/** The colon-joined cache keys of validated reads, and that no two different reads share one. */
module CacheKeys {
  import opened Base
  import opened Types
  import opened EffectiveConfigs

  const MAX_IDENTITY_FIELD_LEN: nat := 128

  /** ASCII alphanumeric, dot, underscore or hyphen. */
  predicate IsIdentityChar(c: char) {
    'a' <= c <= 'z' || 'A' <= c <= 'Z' || '0' <= c <= '9' || c == '.' || c == '_' || c == '-'
  }

  /** What `validate_identity_field` accepts. */
  predicate IdentityField(s: string) {
    !Blank(s) && |s| <= MAX_IDENTITY_FIELD_LEN && forall i :: 0 <= i < |s| ==> IsIdentityChar(s[i])
  }

  ghost predicate ColonFree(s: string) {
    forall i :: 0 <= i < |s| ==> s[i] != ':'
  }

  function JoinFields(fields: seq<string>): string
    requires fields != []
  {
    if |fields| == 1 then fields[0] else fields[0] + ":" + JoinFields(fields[1..])
  }

  lemma FirstColonSplits(a: string, x: string, b: string, y: string)
    requires ColonFree(a) && ColonFree(b) && a + ":" + x == b + ":" + y
    ensures a == b && x == y
  {
    var s, t := a + ":" + x, b + ":" + y;
    assert s[|a|] == ':' && t[|b|] == ':';
    assert a == s[..|a|] && b == t[..|b|] && x == s[|a| + 1..] && y == t[|b| + 1..];
  }

  /** Equally many colon-free fields can be read back from their join. */
  lemma {:induction false} JoinIsInjective(a: seq<string>, b: seq<string>)
    requires a != [] && |a| == |b| && JoinFields(a) == JoinFields(b)
    requires forall i :: 0 <= i < |a| ==> ColonFree(a[i]) && ColonFree(b[i])
    ensures a == b
  {
    if |a| > 1 {
      FirstColonSplits(a[0], JoinFields(a[1..]), b[0], JoinFields(b[1..]));
      JoinIsInjective(a[1..], b[1..]);
      assert a == [a[0]] + a[1..] && b == [b[0]] + b[1..];
    }
  }

  // ---------- retrieve instance ----------

  predicate ValidRetrieve(k: InstanceKey) {
    IdentityField(k.namespace) && IdentityField(k.environment) && IdentityField(k.service) && IdentityField(k.instanceId)
  }

  function RetrieveKey(k: InstanceKey): string {
    JoinFields(["retrieve", k.namespace, k.environment, k.service, k.instanceId])
  }

  lemma RetrieveKeyIsInjective(a: InstanceKey, b: InstanceKey)
    requires ValidRetrieve(a) && ValidRetrieve(b) && RetrieveKey(a) == RetrieveKey(b)
    ensures a == b
  {
    var x := ["retrieve", a.namespace, a.environment, a.service, a.instanceId];
    var y := ["retrieve", b.namespace, b.environment, b.service, b.instanceId];
    JoinIsInjective(x, y);
    assert x[1] == y[1] && x[2] == y[2] && x[3] == y[3] && x[4] == y[4];
  }

  // ---------- effective configuration ----------

  predicate ValidConfigRead(q: ConfigQuery) {
    && IdentityField(q.namespace) && IdentityField(q.environment) && IdentityField(q.application)
    && IdentityField(q.service) && IdentityField(q.group)
  }

  function ConfigKey(q: ConfigQuery): string {
    JoinFields(["config", q.namespace, q.environment, q.application, q.service, q.group])
  }

  lemma ConfigKeyIsInjective(a: ConfigQuery, b: ConfigQuery)
    requires ValidConfigRead(a) && ValidConfigRead(b) && ConfigKey(a) == ConfigKey(b)
    ensures a == b
  {
    var x := ["config", a.namespace, a.environment, a.application, a.service, a.group];
    var y := ["config", b.namespace, b.environment, b.application, b.service, b.group];
    JoinIsInjective(x, y);
    assert x[1] == y[1] && x[2] == y[2] && x[3] == y[3] && x[4] == y[4] && x[5] == y[5];
  }

  // ---------- watch ----------

  predicate ValidWatch(q: WatchQuery) {
    && IdentityField(q.namespace) && IdentityField(q.environment)
    && (q.service.Some? ==> IdentityField(q.service.value))
    && (q.group.Some? ==> IdentityField(q.group.value))
    && (q.application.Some? ==> IdentityField(q.application.value))
  }

  /** Rust's `{:?}` of an optional string that needs no escapes. */
  function Debug(o: Option<string>): string {
    if o.None? then "None" else "Some(\"" + o.value + "\")"
  }

  function WatchFields(q: WatchQuery): seq<string> {
    ["watch", q.namespace, q.environment, "from=" + Decimal(q.fromRevision), "max=" + Decimal(q.maxEvents),
     "service=" + Debug(q.service), "group=" + Debug(q.group), "application=" + Debug(q.application)]
  }

  function WatchKey(q: WatchQuery): string {
    JoinFields(WatchFields(q))
  }

  lemma DecimalIsColonFree(n: nat)
    ensures ColonFree(Decimal(n))
  {
  }

  lemma DebugIsInjective(a: Option<string>, b: Option<string>)
    requires Debug(a) == Debug(b)
    ensures a == b
  {
    var s, t := Debug(a), Debug(b);
    assert s[0] == t[0];
    if a.Some? && b.Some? {
      assert s[6..|s| - 2] == a.value && t[6..|t| - 2] == b.value;
    }
  }

  lemma SuffixIsInjective(prefix: string, a: string, b: string)
    requires prefix + a == prefix + b
    ensures a == b
  {
    assert a == (prefix + a)[|prefix|..] && b == (prefix + b)[|prefix|..];
  }

  lemma WatchFieldsAreColonFree(q: WatchQuery)
    requires ValidWatch(q)
    ensures forall i :: 0 <= i < |WatchFields(q)| ==> ColonFree(WatchFields(q)[i])
  {
    DecimalIsColonFree(q.fromRevision);
    DecimalIsColonFree(q.maxEvents);
    DebugIsColonFree(q.service);
    DebugIsColonFree(q.group);
    DebugIsColonFree(q.application);
  }

  lemma DebugIsColonFree(o: Option<string>)
    requires o.Some? ==> IdentityField(o.value)
    ensures ColonFree(Debug(o))
  {
  }

  lemma WatchKeyIsInjective(a: WatchQuery, b: WatchQuery)
    requires ValidWatch(a) && ValidWatch(b) && WatchKey(a) == WatchKey(b)
    ensures a == b
  {
    var x, y := WatchFields(a), WatchFields(b);
    WatchFieldsAreColonFree(a);
    WatchFieldsAreColonFree(b);
    JoinIsInjective(x, y);
    assert x[1] == y[1] && x[2] == y[2] && x[3] == y[3] && x[4] == y[4] && x[5] == y[5] && x[6] == y[6] && x[7] == y[7];
    SuffixIsInjective("from=", Decimal(a.fromRevision), Decimal(b.fromRevision));
    SuffixIsInjective("max=", Decimal(a.maxEvents), Decimal(b.maxEvents));
    SuffixIsInjective("service=", Debug(a.service), Debug(b.service));
    SuffixIsInjective("group=", Debug(a.group), Debug(b.group));
    SuffixIsInjective("application=", Debug(a.application), Debug(b.application));
    DecimalIsInjective(a.fromRevision, b.fromRevision);
    DecimalIsInjective(a.maxEvents, b.maxEvents);
    DebugIsInjective(a.service, b.service);
    DebugIsInjective(a.group, b.group);
    DebugIsInjective(a.application, b.application);
  }
}
