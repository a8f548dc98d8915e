/** Effective configuration: the fold over releases, what it selects, and how a new release changes it. */
module EffectiveConfigs {
  import opened Base
  import opened Types
  import opened Configs
  import opened Runs
  import opened ConfigRuns

  datatype ConfigQuery = ConfigQuery(
    namespace: string, environment: string, application: string, service: string, group: string)
  {
    predicate Valid() {
      !Blank(namespace) && !Blank(environment) && !Blank(application) && !Blank(service) && !Blank(group)
    }
  }

  datatype EffectiveValue = EffectiveValue(
    value: string, format: ConfigFormat, sourceReleaseId: string, sourceSpecificity: nat, sourceRevision: nat)

  datatype EffectiveConfig = EffectiveConfig(revision: nat, values: map<string, EffectiveValue>)

  predicate Applies(q: ConfigQuery, r: ConfigRelease) {
    && r.content.namespace == q.namespace && r.content.environment == q.environment && r.content.group == q.group
    && r.content.scope.AppliesTo(q.application, q.service)
  }

  function ValueOf(r: ConfigRelease): EffectiveValue {
    EffectiveValue(r.content.value, r.content.format, r.releaseId, r.content.scope.Specificity(), r.revision)
  }

  predicate Replaces(r: ConfigRelease, values: map<string, EffectiveValue>) {
    r.content.key in values ==>
      var current := values[r.content.key];
      var specificity := r.content.scope.Specificity();
      specificity > current.sourceSpecificity
      || (specificity == current.sourceSpecificity && r.revision >= current.sourceRevision)
  }

  /** One round of the loop of `retrieve_effective_config`. */
  function Absorb(q: ConfigQuery, c: EffectiveConfig, r: ConfigRelease): EffectiveConfig {
    if !Applies(q, r) then c
    else EffectiveConfig(if r.revision > c.revision then r.revision else c.revision,
                         if Replaces(r, c.values) then c.values[r.content.key := ValueOf(r)] else c.values)
  }

  function Fold(q: ConfigQuery, releases: seq<ConfigRelease>): EffectiveConfig {
    if releases == [] then EffectiveConfig(0, map[])
    else Absorb(q, Fold(q, releases[..|releases| - 1]), releases[|releases| - 1])
  }

  function Effective(q: ConfigQuery, releases: seq<ConfigRelease>): Result<EffectiveConfig, DiscoveryError> {
    if q.Valid() then Ok(Fold(q, releases)) else Err(InvalidArgument)
  }

  // ---------- what the fold selects ----------

  /** Lexicographic order on (specificity, revision). */
  predicate AtMost(a: ConfigRelease, b: ConfigRelease) {
    var sa, sb := a.content.scope.Specificity(), b.content.scope.Specificity();
    sa < sb || (sa == sb && a.revision <= b.revision)
  }

  /** An applicable release that no applicable release of the same key exceeds. */
  ghost predicate Best(q: ConfigQuery, releases: seq<ConfigRelease>, r: ConfigRelease) {
    && r in releases && Applies(q, r)
    && (forall o :: o in releases && Applies(q, o) && o.content.key == r.content.key ==> AtMost(o, r))
  }

  ghost predicate Selects(q: ConfigQuery, releases: seq<ConfigRelease>, key: string, v: EffectiveValue) {
    exists r :: Best(q, releases, r) && r.content.key == key && v == ValueOf(r)
  }

  /** The whole answer, said without the loop. */
  ghost predicate Answers(q: ConfigQuery, releases: seq<ConfigRelease>, c: EffectiveConfig) {
    && (forall r :: r in releases && Applies(q, r) ==> r.content.key in c.values && r.revision <= c.revision)
    && (forall k :: k in c.values ==> Selects(q, releases, k, c.values[k]))
    && (c.revision == 0 || exists r :: r in releases && Applies(q, r) && r.revision == c.revision)
  }

  lemma AbsorbAnswers(q: ConfigQuery, releases: seq<ConfigRelease>, c: EffectiveConfig, r: ConfigRelease)
    requires Answers(q, releases, c)
    ensures Answers(q, releases + [r], Absorb(q, c, r))
  {
    var all, c' := releases + [r], Absorb(q, c, r);
    assert forall o :: o in all <==> o in releases || o == r;
    forall k | k in c'.values
      ensures Selects(q, all, k, c'.values[k])
    {
      if k in c.values {
        var w :| Best(q, releases, w) && w.content.key == k && c.values[k] == ValueOf(w);
        if c'.values[k] == c.values[k] && !(Applies(q, r) && r.content.key == k && Replaces(r, c.values)) {
          assert Best(q, all, w);
        } else {
          assert Best(q, all, r);
        }
      } else {
        assert Best(q, all, r);
      }
    }
  }

  /** The loop returns, for each key of an applicable release, the greatest (specificity, revision), no other key,
      and the greatest applicable revision. */
  lemma {:induction false} FoldAnswers(q: ConfigQuery, releases: seq<ConfigRelease>)
    ensures Answers(q, releases, Fold(q, releases))
  {
    if releases != [] {
      var n := |releases| - 1;
      FoldAnswers(q, releases[..n]);
      assert releases[..n] + [releases[n]] == releases;
      AbsorbAnswers(q, releases[..n], Fold(q, releases[..n]), releases[n]);
    }
  }

  // ---------- the answer as a lookup ----------

  /** A release of the key in the query's namespace, environment and group, of the given scope. */
  predicate Scoped(q: ConfigQuery, r: ConfigRelease, key: string, scope: ConfigScope) {
    && r.content.namespace == q.namespace && r.content.environment == q.environment && r.content.group == q.group
    && r.content.key == key && r.content.scope == scope
  }

  ghost predicate Released(q: ConfigQuery, releases: seq<ConfigRelease>, key: string, scope: ConfigScope) {
    exists r :: r in releases && Scoped(q, r, key, scope)
  }

  /** The value is that of the newest release of the key with the scope. */
  ghost predicate Newest(q: ConfigQuery, releases: seq<ConfigRelease>, key: string, scope: ConfigScope, v: EffectiveValue) {
    exists r :: && r in releases && Scoped(q, r, key, scope)
                && (forall o :: o in releases && Scoped(q, o, key, scope) ==> o.revision <= r.revision)
                && v.value == r.content.value && v.format == r.content.format
                && v.sourceReleaseId == r.releaseId && v.sourceRevision == r.revision
  }

  /** The reader's own service first, then its application, then the namespace, and nothing else. */
  ghost predicate LooksUp(q: ConfigQuery, releases: seq<ConfigRelease>, key: string, values: map<string, EffectiveValue>) {
    var service, application := Service(q.application, q.service), Application(q.application);
    if Released(q, releases, key, service) then key in values && Newest(q, releases, key, service, values[key])
    else if Released(q, releases, key, application) then
      key in values && Newest(q, releases, key, application, values[key])
    else if Released(q, releases, key, Namespace) then key in values && Newest(q, releases, key, Namespace, values[key])
    else key !in values
  }

  lemma ScopedApplies(q: ConfigQuery, r: ConfigRelease)
    ensures Applies(q, r) <==>
            || Scoped(q, r, r.content.key, Service(q.application, q.service))
            || Scoped(q, r, r.content.key, Application(q.application))
            || Scoped(q, r, r.content.key, Namespace)
  {
  }

  lemma BestOfScopeIsNewest(q: ConfigQuery, releases: seq<ConfigRelease>, r: ConfigRelease)
    requires Best(q, releases, r)
    ensures Newest(q, releases, r.content.key, r.content.scope, ValueOf(r))
  {
    forall o | o in releases && Scoped(q, o, r.content.key, r.content.scope)
      ensures o.revision <= r.revision
    {
      assert Applies(q, o) && AtMost(o, r);
    }
    assert Scoped(q, r, r.content.key, r.content.scope);
  }

  lemma BestHasBestScope(q: ConfigQuery, releases: seq<ConfigRelease>, r: ConfigRelease)
    requires Best(q, releases, r)
    ensures var key, service, application := r.content.key, Service(q.application, q.service), Application(q.application);
            r.content.scope == if Released(q, releases, key, service) then service
                               else if Released(q, releases, key, application) then application
                               else Namespace
  {
    var key, service, application := r.content.key, Service(q.application, q.service), Application(q.application);
    ScopedApplies(q, r);
    if Released(q, releases, key, service) {
      var o :| o in releases && Scoped(q, o, key, service);
      assert AtMost(o, r);
    } else if Released(q, releases, key, application) {
      var o :| o in releases && Scoped(q, o, key, application);
      assert AtMost(o, r);
    }
  }

  /** The loop computes the lookup: whatever the order of the releases, the most specific scope that has the key wins,
      and within it the newest release. */
  lemma AnswerIsLookup(q: ConfigQuery, releases: seq<ConfigRelease>, key: string)
    ensures LooksUp(q, releases, key, Fold(q, releases).values)
  {
    var values := Fold(q, releases).values;
    FoldAnswers(q, releases);
    if key in values {
      var r :| Best(q, releases, r) && r.content.key == key && values[key] == ValueOf(r);
      BestHasBestScope(q, releases, r);
      BestOfScopeIsNewest(q, releases, r);
      assert Released(q, releases, key, r.content.scope) by { ScopedApplies(q, r); }
    } else {
      forall scope | scope in {Service(q.application, q.service), Application(q.application), Namespace}
        ensures !Released(q, releases, key, scope)
      {
        forall r | r in releases ensures !Scoped(q, r, key, scope) {}
      }
    }
  }

  ghost predicate DistinctRevisions(releases: seq<ConfigRelease>) {
    forall a, b :: a in releases && b in releases && a.revision == b.revision ==> a == b
  }

  lemma SelectionIsUnique(q: ConfigQuery, a: seq<ConfigRelease>, b: seq<ConfigRelease>, key: string,
                          v: EffectiveValue, u: EffectiveValue)
    requires DistinctRevisions(a) && (forall r :: r in a <==> r in b)
    requires Selects(q, a, key, v) && Selects(q, b, key, u)
    ensures v == u
  {
    var r :| Best(q, a, r) && r.content.key == key && v == ValueOf(r);
    var o :| Best(q, b, o) && o.content.key == key && u == ValueOf(o);
    assert AtMost(o, r) && AtMost(r, o);
  }

  lemma SelectedKeyIsAnswered(q: ConfigQuery, a: seq<ConfigRelease>, b: seq<ConfigRelease>, key: string,
                              v: EffectiveValue, d: EffectiveConfig)
    requires forall r :: r in a <==> r in b
    requires Selects(q, a, key, v) && Answers(q, b, d)
    ensures key in d.values
  {
    var r :| Best(q, a, r) && r.content.key == key && v == ValueOf(r);
    assert r in b;
  }

  lemma AnswerIsUnique(q: ConfigQuery, a: seq<ConfigRelease>, b: seq<ConfigRelease>, c: EffectiveConfig, d: EffectiveConfig)
    requires DistinctRevisions(a) && (forall r :: r in a <==> r in b)
    requires Answers(q, a, c) && Answers(q, b, d)
    ensures c == d
  {
    forall k | k in c.values
      ensures k in d.values && c.values[k] == d.values[k]
    {
      SelectedKeyIsAnswered(q, a, b, k, c.values[k], d);
      SelectionIsUnique(q, a, b, k, c.values[k], d.values[k]);
    }
    forall k | k in d.values
      ensures k in c.values
    {
      SelectedKeyIsAnswered(q, b, a, k, d.values[k], c);
    }
    assert c.values == d.values;
  }

  lemma StoredRevisionsAreDistinct(s: Store)
    requires ReleasesOk(s)
    ensures DistinctRevisions(s.releases)
  {
    forall a, b | a in s.releases && b in s.releases && a.revision == b.revision
      ensures a == b
    {
      var i :| 0 <= i < |s.releases| && s.releases[i] == a;
      var j :| 0 <= j < |s.releases| && s.releases[j] == b;
    }
  }

  /** Any two orderings of releases with distinct revisions give the same answer. */
  lemma FoldIgnoresOrder(q: ConfigQuery, a: seq<ConfigRelease>, b: seq<ConfigRelease>)
    requires DistinctRevisions(a) && multiset(a) == multiset(b)
    ensures Fold(q, a) == Fold(q, b)
  {
    forall r ensures r in a <==> r in b {
      assert r in multiset(a) <==> r in multiset(b);
    }
    FoldAnswers(q, a);
    FoldAnswers(q, b);
    AnswerIsUnique(q, a, b, Fold(q, a), Fold(q, b));
  }

  /** In every run the answer does not depend on the order in which the releases are stored. */
  lemma AnswerIgnoresOrder(ops: seq<Op>, q: ConfigQuery, reordered: seq<ConfigRelease>)
    requires multiset(reordered) == multiset(Exec(ops).store.releases)
    ensures Effective(q, reordered) == Effective(q, Exec(ops).store.releases)
  {
    EveryRunKeepsConfigInv(ops);
    StoredRevisionsAreDistinct(Exec(ops).store);
    FoldIgnoresOrder(q, Exec(ops).store.releases, reordered);
  }

  // ---------- what one release changes ----------

  ghost predicate Outranked(q: ConfigQuery, releases: seq<ConfigRelease>, r: ConfigRelease) {
    exists o :: o in releases && Applies(q, o) && o.content.key == r.content.key
      && o.content.scope.Specificity() > r.content.scope.Specificity()
  }

  /** A release newer than all others: every query it applies to sees its value unless a strictly more specific
      applicable release exists; every other key, and every other answer, is unchanged. */
  lemma NewReleaseEffect(q: ConfigQuery, releases: seq<ConfigRelease>, r: ConfigRelease)
    requires forall o :: o in releases ==> o.revision < r.revision
    ensures var before, after := Fold(q, releases), Fold(q, releases + [r]);
            && (!Applies(q, r) ==> after == before)
            && (Applies(q, r) ==>
                  && after.revision == r.revision
                  && after.values.Keys == before.values.Keys + {r.content.key}
                  && (forall k :: k in before.values && k != r.content.key ==> after.values[k] == before.values[k])
                  && (after.values[r.content.key] == ValueOf(r) <==> !Outranked(q, releases, r))
                  && (Outranked(q, releases, r) ==> after.values == before.values))
  {
    var before := Fold(q, releases);
    assert (releases + [r])[..|releases|] == releases;
    FoldAnswers(q, releases);
    if Applies(q, r) && r.content.key in before.values {
      var w :| Best(q, releases, w) && w.content.key == r.content.key && before.values[w.content.key] == ValueOf(w);
      if w.content.scope.Specificity() > r.content.scope.Specificity() {
        assert Outranked(q, releases, r);
      }
    }
  }

  /** The answers before and after differ only where the release applies and is not outranked. */
  ghost predicate ChangesOnlyBy(q: ConfigQuery, releases: seq<ConfigRelease>, r: ConfigRelease) {
    var before, after := Fold(q, releases).values, Fold(q, releases + [r]).values;
    var key, takes := r.content.key, Applies(q, r) && !Outranked(q, releases, r);
    && (takes ==> key in after && after[key] == ValueOf(r))
    && (forall k :: k != key || !takes ==>
          (k in after <==> k in before) && (k in before ==> after[k] == before[k]))
  }

  lemma NewReleaseChangesOnly(q: ConfigQuery, releases: seq<ConfigRelease>, r: ConfigRelease)
    requires forall o :: o in releases ==> o.revision < r.revision
    ensures ChangesOnlyBy(q, releases, r)
  {
    NewReleaseEffect(q, releases, r);
  }

  /** A newer release under a fresh id changes some value exactly when it applies and is not outranked. */
  lemma NewReleaseChangesIff(q: ConfigQuery, releases: seq<ConfigRelease>, r: ConfigRelease)
    requires forall o :: o in releases ==> o.revision < r.revision && o.releaseId != r.releaseId
    ensures Fold(q, releases + [r]).values != Fold(q, releases).values <==> Applies(q, r) && !Outranked(q, releases, r)
  {
    NewReleaseEffect(q, releases, r);
    var before, key := Fold(q, releases).values, r.content.key;
    if key in before {
      assert before[key] != ValueOf(r) by {
        FoldAnswers(q, releases);
        var w :| Best(q, releases, w) && w.content.key == key && before[key] == ValueOf(w);
      }
    }
  }

  /** The one release a publish or rollback adds, when it is not a replay or an error. */
  lemma PublishAdds(s: Store, c: PublishCommand)
    ensures var s', answer := Publish(s, c).store, Publish(s, c).outcome;
            || s'.releases == s.releases
            || (answer.Ok? && s'.releases == s.releases + [answer.value] && answer.value.revision == s.revision + 1)
  {
  }

  lemma RollbackAdds(s: Store, c: RollbackCommand)
    ensures var s', answer := Rollback(s, c).store, Rollback(s, c).outcome;
            || s'.releases == s.releases
            || (answer.Ok? && s'.releases == s.releases + [answer.value] && answer.value.revision == s.revision + 1)
  {
  }

  lemma ReleaseAdded(s: Store, op: Op)
    requires op.DoPublish? || op.DoRollback?
    ensures var s' := Apply(s, op);
            || s'.releases == s.releases
            || (&& |s'.releases| == |s.releases| + 1
                && s'.releases == s.releases + [s'.releases[|s.releases|]]
                && s'.releases[|s.releases|].revision == s.revision + 1
                && Answer(s, op) == Ok(s'.releases[|s.releases|].releaseId))
  {
    match op
    case DoPublish(c) => PublishAdds(s, c);
    case DoRollback(c) => RollbackAdds(s, c);
  }

  /** In every run, a publish or rollback either changes no answer at all, being a replay or an error, or acts on
      every query as its one new release. */
  lemma PublishOrRollbackEffect(ops: seq<Op>, op: Op, q: ConfigQuery)
    requires op.DoPublish? || op.DoRollback?
    ensures var s, s' := Exec(ops).store, Apply(Exec(ops).store, op);
            || s'.releases == s.releases
            || (&& |s'.releases| == |s.releases| + 1
                && s'.releases == s.releases + [s'.releases[|s.releases|]]
                && Answer(s, op) == Ok(s'.releases[|s.releases|].releaseId)
                && ChangesOnlyBy(q, s.releases, s'.releases[|s.releases|]))
  {
    var s := Exec(ops).store;
    var s' := Apply(s, op);
    ReleaseAdded(s, op);
    if s'.releases != s.releases {
      var r := s'.releases[|s.releases|];
      assert forall o :: o in s.releases ==> o.revision < r.revision by {
        EveryRunKeepsConfigInv(ops);
      }
      NewReleaseChangesOnly(q, s.releases, r);
    }
  }

  /** In every run, a publish or rollback that adds a release changes some value a reader sees exactly when the release
      applies to the reader and no more specific one hides it. */
  lemma AddedReleaseChangesIff(ops: seq<Op>, op: Op, q: ConfigQuery)
    requires op.DoPublish? || op.DoRollback?
    requires |Apply(Exec(ops).store, op).releases| > |Exec(ops).store.releases|
    ensures var s, s' := Exec(ops).store, Apply(Exec(ops).store, op);
            Fold(q, s'.releases).values != Fold(q, s.releases).values <==>
            Applies(q, s'.releases[|s.releases|]) && !Outranked(q, s.releases, s'.releases[|s.releases|])
  {
    var s := Exec(ops).store;
    var s' := Apply(s, op);
    ReleaseAdded(s, op);
    var r := s'.releases[|s.releases|];
    assert ReleasesOk(s') by {
      EveryRunKeepsConfigInv(ops + [op]);
      assert (ops + [op])[..|ops|] == ops;
    }
    forall o | o in s.releases ensures o.revision < r.revision && o.releaseId != r.releaseId {
      var i :| 0 <= i < |s.releases| && s.releases[i] == o;
      assert s'.releases[i] == o;
    }
    NewReleaseChangesIff(q, s.releases, r);
  }
}
