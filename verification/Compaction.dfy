/** Compaction's two index lists: events grouped by resource id, and indices removed from the back. */
module Compaction {
  import opened Types
  import opened EventLog
  import opened Sorting

  /** The in-scope indices below `n` with the resource id, in order. */
  function IndicesOf(events: seq<Event>, n: nat, namespace: string, environment: string, id: string): seq<nat>
    requires n <= |events|
  {
    if n == 0 then []
    else
      IndicesOf(events, n - 1, namespace, environment, id)
      + if InScope(events[n - 1], namespace, environment) && events[n - 1].resourceId == id then [n - 1] else []
  }

  predicate Increasing(s: seq<nat>) {
    forall i, j :: 0 <= i < j < |s| ==> s[i] < s[j]
  }

  lemma {:induction false} IndicesAreExact(events: seq<Event>, n: nat, ns: string, env: string, id: string)
    requires n <= |events|
    ensures Increasing(IndicesOf(events, n, ns, env, id))
    ensures forall i :: i in IndicesOf(events, n, ns, env, id) <==>
              0 <= i < n && InScope(events[i], ns, env) && events[i].resourceId == id
  {
    if n > 0 {
      IndicesAreExact(events, n - 1, ns, env, id);
      var before := IndicesOf(events, n - 1, ns, env, id);
      forall i | 0 <= i < |before| ensures before[i] < n - 1 { assert before[i] in before; }
    }
  }

  /** The indices of a group past its p-th are the later events of the same resource. */
  lemma LaterIsSuffix(events: seq<Event>, ns: string, env: string, id: string, p: nat, j: nat)
    requires p < |IndicesOf(events, |events|, ns, env, id)|
    ensures var group := IndicesOf(events, |events|, ns, env, id);
            && group[p] < |events|
            && (j in LaterSame(events, group[p], ns, env) <==> j in group[p + 1..])
  {
    var group := IndicesOf(events, |events|, ns, env, id);
    IndicesAreExact(events, |events|, ns, env, id);
    assert group[p] in group;
    if j in LaterSame(events, group[p], ns, env) {
      assert j in group;
      var m :| 0 <= m < |group| && group[m] == j;
      assert group[p + 1..][m - p - 1] == j;
    }
    if j in group[p + 1..] {
      var m :| 0 <= m < |group| - p - 1 && group[p + 1..][m] == j;
      assert group[p + 1 + m] == j && j in group;
    }
  }

  /** So the p-th has as many later ones as the group has after it. */
  lemma LaterInGroup(events: seq<Event>, ns: string, env: string, id: string, p: nat)
    requires p < |IndicesOf(events, |events|, ns, env, id)|
    ensures var group := IndicesOf(events, |events|, ns, env, id);
            group[p] < |events| && |LaterSame(events, group[p], ns, env)| == |group| - 1 - p
  {
    var group := IndicesOf(events, |events|, ns, env, id);
    var later := group[p + 1..];
    LaterIsSuffix(events, ns, env, id, p, 0);
    var same := LaterSame(events, group[p], ns, env);
    assert Increasing(later) by { IndicesAreExact(events, |events|, ns, env, id); }
    forall j ensures j in same <==> j in later {
      if j >= 0 { LaterIsSuffix(events, ns, env, id, p, j); }
    }
    IncreasingEnumerates(later, same);
    EnumerationsHaveNoRepeats(later, same);
  }

  /** What a group contributes to the removal list. */
  function Excess(group: seq<nat>, maxPerResource: nat): seq<nat> {
    if |group| > maxPerResource then group[..|group| - maxPerResource] else []
  }

  ghost function SupersededOf(events: seq<Event>, ns: string, env: string, max: nat, id: string): set<nat> {
    set i | i in Superseded(events, ns, env, max) && events[i].resourceId == id
  }

  /** An index of a group is superseded exactly when it stands in the group's excess. */
  lemma SupersededByPosition(events: seq<Event>, ns: string, env: string, max: nat, id: string, p: nat)
    requires p < |IndicesOf(events, |events|, ns, env, id)|
    ensures var group := IndicesOf(events, |events|, ns, env, id);
            group[p] in SupersededOf(events, ns, env, max, id) <==> p < |group| - max
  {
    var group := IndicesOf(events, |events|, ns, env, id);
    assert group[p] in group;
    IndicesAreExact(events, |events|, ns, env, id);
    LaterInGroup(events, ns, env, id, p);
  }

  lemma ExcessIsSuperseded(events: seq<Event>, ns: string, env: string, max: nat, id: string)
    ensures Enumerates(Excess(IndicesOf(events, |events|, ns, env, id), max), SupersededOf(events, ns, env, max, id))
  {
    var group := IndicesOf(events, |events|, ns, env, id);
    var excess := Excess(group, max);
    IndicesAreExact(events, |events|, ns, env, id);
    forall i
      ensures i in SupersededOf(events, ns, env, max, id) <==> i in excess
    {
      if i in SupersededOf(events, ns, env, max, id) {
        assert i in group;
        var p :| 0 <= p < |group| && group[p] == i;
        SupersededByPosition(events, ns, env, max, id, p);
        assert excess[p] == i;
      }
      if i in excess {
        var p :| 0 <= p < |excess| && excess[p] == i;
        SupersededByPosition(events, ns, env, max, id, p);
      }
    }
    IncreasingEnumerates(excess, SupersededOf(events, ns, env, max, id));
  }

  lemma {:induction false} IncreasingEnumerates(s: seq<nat>, elements: set<nat>)
    requires Increasing(s) && forall i :: i in elements <==> i in s
    ensures Enumerates(s, elements)
  {
    if s == [] {
      assert elements == {};
    } else {
      var n := |s| - 1;
      assert s == s[..n] + [s[n]];
      assert s[n] in elements;
      IncreasingEnumerates(s[..n], elements - {s[n]});
      assert multiset(elements) == multiset(elements - {s[n]}) + multiset{s[n]};
    }
  }

  /** The grouping pass over the first `n` events. */
  ghost predicate Groups(groups: map<string, seq<nat>>, events: seq<Event>, n: nat, ns: string, env: string)
    requires n <= |events|
  {
    forall id :: Listed(groups, events, n, ns, env, id)
  }

  predicate Listed(groups: map<string, seq<nat>>, events: seq<Event>, n: nat, ns: string, env: string, id: string)
    requires n <= |events|
  {
    IndicesOf(events, n, ns, env, id) == if id in groups then groups[id] else []
  }

  lemma GroupsStep(groups: map<string, seq<nat>>, events: seq<Event>, i: nat, ns: string, env: string)
    requires i < |events| && Groups(groups, events, i, ns, env)
    ensures var id := events[i].resourceId;
            if InScope(events[i], ns, env)
            then Groups(groups[id := (if id in groups then groups[id] else []) + [i]], events, i + 1, ns, env)
            else Groups(groups, events, i + 1, ns, env)
  {
    var own := events[i].resourceId;
    var groups' := if InScope(events[i], ns, env)
                   then groups[own := (if own in groups then groups[own] else []) + [i]] else groups;
    var n := i + 1;
    forall id ensures Listed(groups', events, n, ns, env, id) {
      assert Listed(groups, events, i, ns, env, id);
    }
  }

  /** The superseded indices of the groups already handled. */
  ghost function SupersededOutside(events: seq<Event>, ns: string, env: string, max: nat, todo: set<string>): set<nat> {
    set i | i in Superseded(events, ns, env, max) && events[i].resourceId !in todo
  }

  lemma OutsideNothingIsAll(events: seq<Event>, ns: string, env: string, max: nat)
    ensures SupersededOutside(events, ns, env, max, {}) == Superseded(events, ns, env, max)
  {
  }

  lemma SupersededIsGrouped(groups: map<string, seq<nat>>, events: seq<Event>, ns: string, env: string, max: nat)
    requires Groups(groups, events, |events|, ns, env)
    ensures SupersededOutside(events, ns, env, max, groups.Keys) == {}
  {
    forall i | i in Superseded(events, ns, env, max)
      ensures events[i].resourceId in groups
    {
      var id := events[i].resourceId;
      IndicesAreExact(events, |events|, ns, env, id);
      assert i in IndicesOf(events, |events|, ns, env, id);
      assert Listed(groups, events, |events|, ns, env, id);
    }
  }

  /** Handling one more group adds exactly its excess. */
  lemma ExcessOfGroup(groups: map<string, seq<nat>>, events: seq<Event>, ns: string, env: string, max: nat,
                      todo: set<string>, id: string)
    requires Groups(groups, events, |events|, ns, env) && id in todo && id in groups
    ensures multiset(SupersededOutside(events, ns, env, max, todo - {id}))
         == multiset(SupersededOutside(events, ns, env, max, todo)) + multiset(Excess(groups[id], max))
  {
    ExcessIsSuperseded(events, ns, env, max, id);
    assert Listed(groups, events, |events|, ns, env, id);
    var before, more := SupersededOutside(events, ns, env, max, todo), SupersededOf(events, ns, env, max, id);
    assert SupersededOutside(events, ns, env, max, todo - {id}) == before + more;
    assert before !! more;
  }

  predicate NatLe(a: nat, b: nat) {
    a <= b
  }

  /** A sorted listing of a set of indices increases strictly. */
  lemma SortedListingIncreases(listed: seq<nat>, elements: set<nat>)
    requires Enumerates(listed, elements)
    ensures var sorted := SortBy(NatLe, listed);
            Increasing(sorted) && (forall i :: i in sorted <==> i in elements) && |sorted| == |elements|
  {
    var sorted := SortBy(NatLe, listed);
    assert Preorder(NatLe);
    SortBySorts(NatLe, listed);
    EnumerationsHaveNoRepeats(sorted, elements);
    forall i, j | 0 <= i < j < |sorted| ensures sorted[i] < sorted[j] {
      assert NatLe(sorted[i], sorted[j]) && sorted[i] != sorted[j];
    }
  }

  lemma KeepAroundHole(events: seq<Event>, drop: set<nat>, idx: nat, done: nat)
    requires idx < done <= |events| && idx in drop
    requires forall i :: idx < i < done ==> i !in drop
    ensures KeepRange(events, idx, |events|, drop) == events[idx + 1..done] + KeepRange(events, done, |events|, drop)
  {
    var all, tail := KeepRange(events, idx, |events|, drop), KeepRange(events, done, |events|, drop);
    var rest := KeepRange(events, idx + 1, |events|, drop);
    assert all == rest by {
      KeepRangeSplits(events, idx, idx + 1, |events|, drop);
      assert KeepRange(events, idx, idx + 1, drop) == KeepRange(events, idx, idx, drop) == [];
    }
    assert rest == events[idx + 1..done] + tail by {
      KeepRangeSplits(events, idx + 1, done, |events|, drop);
      KeepRangeWhole(events, idx + 1, done, drop);
    }
  }

  lemma RemoveInside(events: seq<Event>, tail: seq<Event>, idx: nat, done: nat)
    requires idx < done <= |events|
    ensures var now := events[..done] + tail;
            now[..idx] + now[idx + 1..] == events[..idx] + (events[idx + 1..done] + tail)
  {
  }

  /** Removing the next index from the back: everything from it on is now as it should be. */
  lemma RemovalStep(events: seq<Event>, drop: set<nat>, idx: nat, done: nat)
    requires idx < done <= |events| && idx in drop
    requires forall i :: idx < i < done ==> i !in drop
    ensures var now := events[..done] + KeepRange(events, done, |events|, drop);
            now[..idx] + now[idx + 1..] == events[..idx] + KeepRange(events, idx, |events|, drop)
  {
    KeepAroundHole(events, drop, idx, done);
    RemoveInside(events, KeepRange(events, done, |events|, drop), idx, done);
  }

  lemma RemovalEnds(events: seq<Event>, drop: set<nat>, done: nat)
    requires done <= |events| && forall i :: 0 <= i < done ==> i !in drop
    ensures events[..done] + KeepRange(events, done, |events|, drop) == Without(events, drop)
  {
    KeepRangeSplits(events, 0, done, |events|, drop);
    KeepRangeWhole(events, 0, done, drop);
  }
}
