/** What compaction leaves of each instance: exactly when the last event about it goes. */
module CompactedLogs {
  import opened Base
  import opened Types
  import opened EventLog
  import opened Runs

  lemma {:induction false} LatestIsGreatest(h: seq<Event>, k: InstanceKey)
    requires Ascending(h)
    ensures Latest(h, k).None? ==> forall e :: e in h ==> !Concerns(e, k)
    ensures Latest(h, k).Some? ==>
              var last := Latest(h, k).value;
              && last in h && Concerns(last, k)
              && forall e :: e in h && Concerns(e, k) && e != last ==> e.revision < last.revision
  {
    if h != [] {
      var n := |h| - 1;
      LatestIsGreatest(h[..n], k);
      assert h == h[..n] + [h[n]];
      forall e | e in h[..n] ensures e.revision < h[n].revision {}
    }
  }

  /** A part of a log that holds the last event about a key has the same last event about it. */
  lemma LatestInPart(part: seq<Event>, whole: seq<Event>, k: InstanceKey)
    requires Ascending(part) && Ascending(whole) && forall e :: e in part ==> e in whole
    requires Latest(whole, k).Some? ==> Latest(whole, k).value in part
    ensures Latest(part, k) == Latest(whole, k)
  {
    LatestIsGreatest(part, k);
    LatestIsGreatest(whole, k);
  }

  /** The in-scope events after the last one about a key that share the key's instance id; none is about the key, so
      each is another service's or a release's. */
  function Shadows(events: seq<Event>, k: InstanceKey, namespace: string, environment: string): set<nat> {
    set j | 0 <= j < |events| && InScope(events[j], namespace, environment) && events[j].resourceId == k.instanceId
         && Latest(events, k).Some? && events[j].revision > Latest(events, k).value.revision
  }

  /** Compaction of the key's scope would count at least its limit of them. */
  predicate Shadowed(events: seq<Event>, k: InstanceKey, namespace: string, environment: string, maxPerResource: nat) {
    && k.namespace == namespace && k.environment == environment
    && |Shadows(events, k, namespace, environment)| >= maxPerResource
  }

  lemma ShadowsAreLater(events: seq<Event>, k: InstanceKey, ns: string, env: string, i: nat)
    requires Ascending(events) && i < |events| && Latest(events, k) == Some(events[i])
    ensures Shadows(events, k, ns, env) == LaterSame(events, i, ns, env)
    ensures forall j :: j in Shadows(events, k, ns, env) ==> !Concerns(events[j], k)
    ensures forall m :: 0 <= m < |events| && Concerns(events[m], k) ==> m <= i
  {
    LatestIsGreatest(events, k);
  }

  /** An event about a shadowed key is dropped, the last and all before it. */
  lemma ShadowedIsDropped(events: seq<Event>, k: InstanceKey, ns: string, env: string, max: nat, i: nat, m: nat)
    requires Ascending(events) && i < |events| && Latest(events, k) == Some(events[i])
    requires Shadowed(events, k, ns, env, max) && m < |events| && Concerns(events[m], k)
    ensures events[m] !in Compacted(events, ns, env, max)
  {
    ShadowsAreLater(events, k, ns, env, i);
    assert Concerns(events[i], k) by { LatestIsGreatest(events, k); }
    assert LaterSame(events, i, ns, env) <= LaterSame(events, m, ns, env);
    SubsetsAreSmaller(LaterSame(events, i, ns, env), LaterSame(events, m, ns, env));
    CompactionKeepsExactly(events, ns, env, max, m);
  }

  lemma {:induction false} SubsetsAreSmaller(a: set<nat>, b: set<nat>)
    requires a <= b
    ensures |a| <= |b|
  {
    if a != {} {
      var x :| x in a;
      SubsetsAreSmaller(a - {x}, b - {x});
    }
  }

  /** Exactly when compaction drops what is last known of a key: when at least the limit of later in-scope events share
      its instance id. Then nothing about the key is left; otherwise its last event stays its last event. */
  lemma CompactionDropsLatestIff(events: seq<Event>, k: InstanceKey, ns: string, env: string, max: nat)
    requires Ascending(events)
    ensures Latest(Compacted(events, ns, env, max), k) ==
            if Shadowed(events, k, ns, env, max) then None else Latest(events, k)
    ensures forall j :: j in Shadows(events, k, ns, env) ==> !Concerns(events[j], k)
  {
    var kept := Compacted(events, ns, env, max);
    LatestIsGreatest(events, k);
    assert Ascending(kept) && forall e :: e in kept ==> e in events by {
      WithoutIsExact(events, Superseded(events, ns, env, max));
    }
    if Latest(events, k).Some? {
      var i :| 0 <= i < |events| && events[i] == Latest(events, k).value;
      ShadowsAreLater(events, k, ns, env, i);
      if Shadowed(events, k, ns, env, max) {
        forall e | e in kept ensures !Concerns(e, k) {
          var m :| 0 <= m < |events| && events[m] == e;
          if Concerns(e, k) {
            ShadowedIsDropped(events, k, ns, env, max, i, m);
          }
        }
        LatestIsGreatest(kept, k);
      } else {
        CompactionKeepsExactly(events, ns, env, max, i);
        LatestInPart(kept, events, k);
      }
    } else {
      LatestInPart(kept, events, k);
    }
  }

  lemma LatestSurvivesIff(events: seq<Event>, k: InstanceKey, ns: string, env: string, max: nat)
    requires Ascending(events) && Latest(events, k).Some?
    ensures Latest(events, k).value in Compacted(events, ns, env, max) <==> !Shadowed(events, k, ns, env, max)
  {
    LatestIsGreatest(events, k);
    WithoutIsExact(events, Superseded(events, ns, env, max));
    CompactionDropsLatestIff(events, k, ns, env, max);
    LatestIsGreatest(Compacted(events, ns, env, max), k);
  }

  /** So a positive limit is safe for every key whose instance id no other subject of the scope uses. */
  lemma UnsharedIdsAreNeverShadowed(events: seq<Event>, k: InstanceKey, ns: string, env: string, max: nat)
    requires Ascending(events) && max > 0
    requires forall e :: e in events && InScope(e, ns, env) && e.resourceId == k.instanceId ==> Concerns(e, k)
    ensures !Shadowed(events, k, ns, env, max)
  {
    LatestIsGreatest(events, k);
    assert Shadows(events, k, ns, env) == {};
  }

  /** The last event about a key in a longer log is among the new events or the old one. */
  lemma {:induction false} LatestOfExtension(h: seq<Event>, more: seq<Event>, k: InstanceKey)
    ensures Latest(h + more, k) == if Latest(more, k).Some? then Latest(more, k) else Latest(h, k)
    ensures Latest(more, k).Some? ==> Latest(more, k).value in more
  {
    if more == [] {
      assert h + more == h;
    } else {
      var n := |more| - 1;
      LatestOfExtension(h, more[..n], k);
      assert (h + more)[..|h| + n] == h + more[..n];
    }
  }
}
