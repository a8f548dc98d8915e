/** The store's event log: watch queries, retention and compaction, as functions of the log's value. */
module EventLog {
  import opened Base
  import opened Types

  /** Revisions strictly increase along the log. */
  ghost predicate Ascending(events: seq<Event>) {
    forall i, j :: 0 <= i < j < |events| ==> events[i].revision < events[j].revision
  }

  // ---------- watch ----------

  predicate ValidFilter(f: Option<string>) {
    f.Some? ==> !Blank(f.value)
  }

  predicate ValidQuery(q: WatchQuery) {
    && !Blank(q.namespace) && !Blank(q.environment)
    && ValidFilter(q.service) && ValidFilter(q.group) && ValidFilter(q.application)
    && q.maxEvents != 0
  }

  /** `WatchEventsQuery::matches_event`; an event without a service passes any service filter. */
  predicate Matches(q: WatchQuery, e: Event) {
    && e.namespace == q.namespace
    && e.environment == q.environment
    && e.revision > q.fromRevision
    && (q.service.Some? ==> e.service.Some? ==> e.service == q.service)
    && (q.group.Some? ==> e.group == q.group)
    && (q.application.Some? ==> e.application == q.application)
  }

  function Matching(q: WatchQuery, events: seq<Event>): seq<Event> {
    if events == [] then [] else
      var n := |events| - 1;
      Matching(q, events[..n]) + if Matches(q, events[n]) then [events[n]] else []
  }

  /** `watch_events`: the first `maxEvents` matching events, in log order. */
  function Watch(q: WatchQuery, events: seq<Event>): Result<seq<Event>, DiscoveryError> {
    if !ValidQuery(q) then Err(InvalidArgument)
    else
      var all := Matching(q, events);
      Ok(if |all| <= q.maxEvents then all else all[..q.maxEvents])
  }

  lemma {:induction false} MatchingIsExact(q: WatchQuery, events: seq<Event>)
    ensures forall e :: e in Matching(q, events) <==> e in events && Matches(q, e)
    ensures Ascending(events) ==> Ascending(Matching(q, events))
  {
    if events != [] {
      var n := |events| - 1;
      MatchingIsExact(q, events[..n]);
      assert events == events[..n] + [events[n]];
      if Ascending(events) {
        forall i | 0 <= i < |Matching(q, events[..n])|
          ensures Matching(q, events[..n])[i].revision < events[n].revision
        {
          assert Matching(q, events[..n])[i] in events[..n];
        }
      }
    }
  }

  /** A watch is refused exactly when a name is missing or blank or it asks for nothing, and answers with as many of the
      earliest matches as it asks for. */
  lemma WatchAnswers(q: WatchQuery, events: seq<Event>)
    ensures Watch(q, events).Err? <==>
            || Blank(q.namespace) || Blank(q.environment) || q.maxEvents == 0
            || (q.service.Some? && Blank(q.service.value)) || (q.group.Some? && Blank(q.group.value))
            || (q.application.Some? && Blank(q.application.value))
    ensures Watch(q, events).Ok? ==>
              var batch := Watch(q, events).value;
              && batch <= Matching(q, events)
              && (|batch| == q.maxEvents || (|batch| < q.maxEvents && batch == Matching(q, events)))
  {
  }

  // ---------- removal by index ----------

  /** The events at indices `lo <= i < hi` that are not dropped, in order. */
  function KeepRange(events: seq<Event>, lo: nat, hi: nat, drop: set<nat>): seq<Event>
    requires lo <= hi <= |events|
  {
    if lo == hi then []
    else KeepRange(events, lo, hi - 1, drop) + if hi - 1 in drop then [] else [events[hi - 1]]
  }

  function Without(events: seq<Event>, drop: set<nat>): seq<Event> {
    KeepRange(events, 0, |events|, drop)
  }

  lemma {:induction false} KeepRangeSplits(events: seq<Event>, lo: nat, mid: nat, hi: nat, drop: set<nat>)
    requires lo <= mid <= hi <= |events|
    ensures KeepRange(events, lo, hi, drop) == KeepRange(events, lo, mid, drop) + KeepRange(events, mid, hi, drop)
  {
    if mid < hi {
      KeepRangeSplits(events, lo, mid, hi - 1, drop);
    }
  }

  lemma {:induction false} KeepRangeWhole(events: seq<Event>, lo: nat, hi: nat, drop: set<nat>)
    requires lo <= hi <= |events|
    requires forall i :: lo <= i < hi ==> i !in drop
    ensures KeepRange(events, lo, hi, drop) == events[lo..hi]
  {
    if lo < hi {
      KeepRangeWhole(events, lo, hi - 1, drop);
    }
  }

  lemma {:induction false} KeepRangeMembers(events: seq<Event>, lo: nat, hi: nat, drop: set<nat>)
    requires lo <= hi <= |events|
    ensures forall i :: lo <= i < hi && i !in drop ==> events[i] in KeepRange(events, lo, hi, drop)
    ensures forall e :: e in KeepRange(events, lo, hi, drop) ==>
                          exists i :: lo <= i < hi && i !in drop && e == events[i]
  {
    if lo < hi {
      KeepRangeMembers(events, lo, hi - 1, drop);
    }
  }

  lemma {:induction false} KeepRangeAscends(events: seq<Event>, lo: nat, hi: nat, drop: set<nat>)
    requires lo <= hi <= |events| && Ascending(events)
    ensures Ascending(KeepRange(events, lo, hi, drop))
  {
    if lo < hi {
      KeepRangeAscends(events, lo, hi - 1, drop);
      KeepRangeMembers(events, lo, hi - 1, drop);
      var before := KeepRange(events, lo, hi - 1, drop);
      forall i | 0 <= i < |before|
        ensures before[i].revision < events[hi - 1].revision
      {
        assert before[i] in before;
      }
    }
  }

  /** What is left is exactly the events at the kept indices, still ascending. */
  lemma WithoutIsExact(events: seq<Event>, drop: set<nat>)
    requires Ascending(events)
    ensures forall i :: 0 <= i < |events| ==> (i !in drop <==> events[i] in Without(events, drop))
    ensures forall e :: e in Without(events, drop) ==> e in events
    ensures Ascending(Without(events, drop))
  {
    KeepRangeMembers(events, 0, |events|, drop);
    KeepRangeAscends(events, 0, |events|, drop);
    forall i | 0 <= i < |events| && events[i] in Without(events, drop)
      ensures i !in drop
    {
      var j :| 0 <= j < |events| && j !in drop && events[i] == events[j];
      assert i == j;
    }
  }

  // ---------- retention ----------

  /** How many of the first `n` events are old enough to collect. */
  function OldCount(events: seq<Event>, n: nat, before: nat): (count: nat)
    requires n <= |events|
    ensures count <= n
  {
    if n == 0 then 0 else OldCount(events, n - 1, before) + if events[n - 1].revision <= before then 1 else 0
  }

  /** The first `maxDeletes` events at or below the bound. */
  function Collectable(events: seq<Event>, before: nat, maxDeletes: nat): set<nat> {
    set i | 0 <= i < |events| && events[i].revision <= before && OldCount(events, i, before) < maxDeletes
  }

  function Collected(events: seq<Event>, before: nat, maxDeletes: nat): seq<Event> {
    Without(events, Collectable(events, before, maxDeletes))
  }

  /** On an ascending log retention cuts a prefix, so it never leaves a hole. */
  lemma CollectionCutsAPrefix(events: seq<Event>, before: nat, maxDeletes: nat)
    requires Ascending(events)
    ensures var aged := OldCount(events, |events|, before);
            Collected(events, before, maxDeletes) == events[if aged <= maxDeletes then aged else maxDeletes..]
  {
    var drop, n := Collectable(events, before, maxDeletes), |events|;
    var aged := OldCount(events, n, before);
    var k := if aged <= maxDeletes then aged else maxDeletes;
    forall i | 0 <= i < n
      ensures i in drop <==> i < k
    {
      OldEventsLead(events, n, before);
      OldEventsLead(events, i, before);
    }
    KeepRangeSplits(events, 0, k, n, drop);
    KeepRangeWhole(events, k, n, drop);
    KeepRangeNone(events, 0, k, drop);
  }

  /** Retention keeps an event exactly when it is newer than the bound or at least as many events as may be deleted come
      before it. */
  lemma CollectionKeepsExactly(events: seq<Event>, before: nat, maxDeletes: nat, i: nat)
    requires Ascending(events) && i < |events|
    ensures events[i] in Collected(events, before, maxDeletes) <==> events[i].revision > before || i >= maxDeletes
  {
    OldEventsLead(events, i + 1, before);
    WithoutIsExact(events, Collectable(events, before, maxDeletes));
  }

  lemma {:induction false} OldEventsLead(events: seq<Event>, n: nat, before: nat)
    requires n <= |events| && Ascending(events)
    ensures forall i :: 0 <= i < n ==> (events[i].revision <= before <==> i < OldCount(events, n, before))
  {
    if n > 0 {
      OldEventsLead(events, n - 1, before);
    }
  }

  lemma {:induction false} KeepRangeNone(events: seq<Event>, lo: nat, hi: nat, drop: set<nat>)
    requires lo <= hi <= |events|
    requires forall i :: lo <= i < hi ==> i in drop
    ensures KeepRange(events, lo, hi, drop) == []
  {
    if lo < hi {
      KeepRangeNone(events, lo, hi - 1, drop);
    }
  }

  // ---------- compaction ----------

  predicate InScope(e: Event, namespace: string, environment: string) {
    e.namespace == namespace && e.environment == environment
  }

  /** The later in-scope events that share event `i`'s resource id. */
  function LaterSame(events: seq<Event>, i: nat, namespace: string, environment: string): set<nat>
    requires i < |events|
  {
    set j | i < j < |events| && InScope(events[j], namespace, environment)
         && events[j].resourceId == events[i].resourceId
  }

  /** The in-scope events that `maxPerResource` or more later ones supersede. */
  function Superseded(events: seq<Event>, namespace: string, environment: string, maxPerResource: nat): set<nat> {
    set i | 0 <= i < |events| && InScope(events[i], namespace, environment)
         && |LaterSame(events, i, namespace, environment)| >= maxPerResource
  }

  function Compacted(events: seq<Event>, namespace: string, environment: string, maxPerResource: nat): seq<Event> {
    Without(events, Superseded(events, namespace, environment, maxPerResource))
  }

  /** Compaction keeps an event exactly when it is out of scope or fewer than the limit of later in-scope events share
      its resource id, and keeps the order. */
  lemma CompactionKeepsExactly(events: seq<Event>, ns: string, env: string, max: nat, i: nat)
    requires Ascending(events) && i < |events|
    ensures events[i] in Compacted(events, ns, env, max) <==>
            !InScope(events[i], ns, env) || |LaterSame(events, i, ns, env)| < max
    ensures Ascending(Compacted(events, ns, env, max))
    ensures forall e :: e in Compacted(events, ns, env, max) ==> e in events
  {
    WithoutIsExact(events, Superseded(events, ns, env, max));
  }
}
