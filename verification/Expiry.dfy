/** Expiry scans: which instances go, what stays, and exactly which later calls can tell. */
module Expiry {
  import opened Base
  import opened Types
  import opened Sorting
  import opened Registry
  import opened Runs
  import opened Pagination
  import opened Discovery
  import opened ServiceList

  /** Keys compare as the tuple of namespace, environment, service and instance id. */
  lemma KeyLeIsTupleOrder(a: InstanceKey, b: InstanceKey)
    ensures KeyLe(a, b) <==>
            ListLe([a.namespace, a.environment, a.service, a.instanceId], [b.namespace, b.environment, b.service, b.instanceId])
  {
    StringLeTotal(a.instanceId, b.instanceId);
    TupleLe(a.namespace, a.environment, a.service, a.instanceId, b.namespace, b.environment, b.service, b.instanceId);
  }

  lemma TupleLe(a: string, b: string, c: string, d: string, e: string, f: string, g: string, h: string)
    ensures ListLe([a, b, c, d], [e, f, g, h]) <==>
            if a != e then StringLe(a, e) else if b != f then StringLe(b, f)
            else if c != g then StringLe(c, g) else d == h || StringLe(d, h)
  {
    assert [a, b, c, d][1..] == [b, c, d] && [e, f, g, h][1..] == [f, g, h];
    assert [b, c, d][1..] == [c, d] && [f, g, h][1..] == [g, h];
    assert [c, d][1..] == [d] && [g, h][1..] == [h];
    assert [d][1..] == [] && [h][1..] == [];
    assert ListLe([d], [h]) <==> d == h || StringLe(d, h);
    assert ListLe([c, d], [g, h]) <==> if c != g then StringLe(c, g) else d == h || StringLe(d, h);
    assert ListLe([b, c, d], [f, g, h]) <==>
           if b != f then StringLe(b, f) else if c != g then StringLe(c, g) else d == h || StringLe(d, h);
  }

  lemma KeyLeIsPreorder()
    ensures Preorder(KeyLe)
  {
    forall a, b ensures KeyLe(a, b) || KeyLe(b, a) {
      KeyLeTotal(a, b);
    }
    forall a, b, c | KeyLe(a, b) && KeyLe(b, c) ensures KeyLe(a, c) {
      KeyLeTransitive(a, b, c);
    }
  }

  lemma KeyLeTotal(a: InstanceKey, b: InstanceKey)
    ensures KeyLe(a, b) || KeyLe(b, a)
    ensures KeyLe(a, b) && KeyLe(b, a) ==> a == b
  {
    StringLeTotal(a.namespace, b.namespace);
    StringLeTotal(a.environment, b.environment);
    StringLeTotal(a.service, b.service);
    StringLeTotal(a.instanceId, b.instanceId);
  }

  /** Used on strings that differ somewhere along a chain. */
  lemma StrictChain(a: string, b: string, c: string)
    ensures StringLe(a, b) && StringLe(b, c) ==> StringLe(a, c)
    ensures StringLe(a, b) && StringLe(b, c) && a == c ==> a == b
  {
    StringLeTotal(a, b);
    if StringLe(a, b) && StringLe(b, c) {
      StringLeTransitive(a, b, c);
    }
  }

  lemma KeyLeTransitive(a: InstanceKey, b: InstanceKey, c: InstanceKey)
    requires KeyLe(a, b) && KeyLe(b, c)
    ensures KeyLe(a, c)
  {
    StrictChain(a.namespace, b.namespace, c.namespace);
    StrictChain(a.environment, b.environment, c.environment);
    StrictChain(a.service, b.service, c.service);
    StrictChain(a.instanceId, b.instanceId, c.instanceId);
  }

  /** Sorting any listing of a set of keys gives the set's sorted list. */
  lemma KeysSortUniquely(keys: set<InstanceKey>, listed: seq<InstanceKey>)
    requires Enumerates(listed, keys)
    ensures SortBy(KeyLe, listed) == SortedKeys(keys)
    ensures Enumerates(SortedKeys(keys), keys) && Sorted(KeyLe, SortedKeys(keys))
  {
    KeyLeIsPreorder();
    forall i, j | 0 <= i < |listed| && 0 <= j < |listed| && KeyLe(listed[i], listed[j]) && KeyLe(listed[j], listed[i])
      ensures listed[i] == listed[j]
    {
      KeyLeTotal(listed[i], listed[j]);
    }
    SortIgnoresInputOrder(KeyLe, listed, Listing(keys));
    SortBySorts(KeyLe, Listing(keys));
  }

  // ---------- what a scan removes ----------

  ghost function Elements(keys: seq<InstanceKey>): set<InstanceKey> {
    set k | k in keys
  }

  ghost function LeasesOf(s: Store, keys: seq<InstanceKey>): set<string>
    requires forall k :: k in keys ==> k in s.instances
  {
    set k | k in keys :: s.instances[k].leaseId
  }

  lemma {:induction false} RemoveAllInstances(s: Store, keys: seq<InstanceKey>)
    requires forall k :: k in keys ==> k in s.instances
    requires forall i, j :: 0 <= i < j < |keys| ==> keys[i] != keys[j]
    ensures RemoveAll(s, keys).0.instances == s.instances - Elements(keys)
    ensures RemoveAll(s, keys).0.revision == s.revision + |keys|
  {
    if keys != [] {
      var n := |keys| - 1;
      RemoveAllInstances(s, keys[..n]);
      assert keys == keys[..n] + [keys[n]];
      assert keys[n] !in keys[..n];
      assert Elements(keys) == Elements(keys[..n]) + {keys[n]};
    }
  }

  lemma LeasesOfMore(s: Store, keys: seq<InstanceKey>)
    requires keys != [] && forall k :: k in keys ==> k in s.instances
    ensures var n := |keys| - 1;
            LeasesOf(s, keys) == LeasesOf(s, keys[..n]) + {s.instances[keys[n]].leaseId}
  {
    var n := |keys| - 1;
    assert keys == keys[..n] + [keys[n]];
  }

  lemma {:induction false} RemoveAllLeases(s: Store, keys: seq<InstanceKey>)
    requires forall k :: k in keys ==> k in s.instances
    requires forall i, j :: 0 <= i < j < |keys| ==> keys[i] != keys[j]
    ensures RemoveAll(s, keys).0.leaseIndex == s.leaseIndex - LeasesOf(s, keys)
  {
    if keys != [] {
      var n := |keys| - 1;
      RemoveAllLeases(s, keys[..n]);
      RemoveAllInstances(s, keys[..n]);
      assert keys[n] !in keys[..n];
      LeasesOfMore(s, keys);
    }
  }

  lemma {:induction false} RemoveAllReceipts(s: Store, keys: seq<InstanceKey>)
    requires forall k :: k in keys ==> k in s.instances
    requires forall i, j :: 0 <= i < j < |keys| ==> keys[i] != keys[j]
    ensures var receipts := RemoveAll(s, keys).1;
            && |receipts| == |keys|
            && (forall i :: 0 <= i < |keys| ==>
                  receipts[i] == DeregisterReceipt(s.instances[keys[i]].key, s.revision + 1 + i, true))
  {
    if keys != [] {
      var n := |keys| - 1;
      RemoveAllReceipts(s, keys[..n]);
      RemoveAllInstances(s, keys[..n]);
      assert keys[n] !in keys[..n];
    }
  }

  /** Removing distinct stored keys takes exactly them, their leases, and one revision each. */
  lemma RemoveAllEffect(s: Store, keys: seq<InstanceKey>)
    requires forall k :: k in keys ==> k in s.instances
    requires forall i, j :: 0 <= i < j < |keys| ==> keys[i] != keys[j]
    ensures var (s', receipts) := RemoveAll(s, keys);
            && s'.instances == s.instances - Elements(keys)
            && s'.leaseIndex == s.leaseIndex - LeasesOf(s, keys)
            && s'.revision == s.revision + |keys|
            && |receipts| == |keys|
            && (forall i :: 0 <= i < |keys| ==>
                  receipts[i] == DeregisterReceipt(s.instances[keys[i]].key, s.revision + 1 + i, true))
  {
    RemoveAllInstances(s, keys);
    RemoveAllLeases(s, keys);
    RemoveAllReceipts(s, keys);
  }

  lemma {:induction false} DistinctCount(keys: seq<InstanceKey>)
    requires forall i, j :: 0 <= i < j < |keys| ==> keys[i] != keys[j]
    ensures |Elements(keys)| == |keys|
  {
    if keys != [] {
      var n := |keys| - 1;
      DistinctCount(keys[..n]);
      assert keys == keys[..n] + [keys[n]];
      assert Elements(keys) == Elements(keys[..n]) + {keys[n]};
    }
  }

  /** A cut of a sorted listing holds its first elements. */
  lemma CutHoldsTheFirst(all: seq<InstanceKey>, keys: set<InstanceKey>, max: nat)
    requires Enumerates(all, keys) && Sorted(KeyLe, all)
    ensures var cut := Elements(Take(all, max));
            && cut <= keys && |cut| == |Take(all, max)| == (if |keys| <= max then |keys| else max)
            && (forall k, m :: k in cut && m in keys - cut ==> KeyLe(k, m))
    ensures forall i, j :: 0 <= i < j < |Take(all, max)| ==> Take(all, max)[i] != Take(all, max)[j]
  {
    EnumerationsHaveNoRepeats(all, keys);
    var first := Take(all, max);
    assert forall i :: 0 <= i < |first| ==> first[i] == all[i];
    DistinctCount(first);
    forall k, m | k in Elements(first) && m in keys - Elements(first)
      ensures KeyLe(k, m)
    {
      var i :| 0 <= i < |first| && first[i] == k;
      assert m in all;
      var j :| 0 <= j < |all| && all[j] == m;
    }
  }

  lemma VictimsAreTheFirst(s: Store, now: U64, max: nat)
    ensures var victims, expired := Victims(s, now, max), ExpiredKeys(s, now);
            && Elements(victims) <= expired
            && |Elements(victims)| == |victims| == (if |expired| <= max then |expired| else max)
            && (forall k, m :: k in Elements(victims) && m in expired - Elements(victims) ==> KeyLe(k, m))
    ensures forall i, j :: 0 <= i < j < |Victims(s, now, max)| ==> Victims(s, now, max)[i] != Victims(s, now, max)[j]
  {
    var expired := ExpiredKeys(s, now);
    KeysSortUniquely(expired, Listing(expired));
    CutHoldsTheFirst(SortedKeys(expired), expired, max);
  }

  /** The scan's effect, in terms of the victims. */
  lemma ScanEffect(s: Store, now: U64, max: nat)
    requires max > 0
    ensures forall k :: k in Victims(s, now, max) ==> k in s.instances && !s.instances[k].LiveAt(now)
    ensures var step, victims := Expire(s, now, max), Victims(s, now, max);
            && step.outcome.Ok? && |step.outcome.value| == |victims|
            && step.store.instances == s.instances - Elements(victims)
            && step.store.leaseIndex == s.leaseIndex - LeasesOf(s, victims)
            && (forall i :: 0 <= i < |victims| ==>
                  step.outcome.value[i] == DeregisterReceipt(s.instances[victims[i]].key, s.revision + 1 + i, true))
  {
    VictimsAreTheFirst(s, now, max);
    forall k | k in Victims(s, now, max)
      ensures k in s.instances && !s.instances[k].LiveAt(now)
    {
      assert k in Elements(Victims(s, now, max));
    }
    RemoveAllEffect(s, Victims(s, now, max));
  }

  /** A scan removes exactly the first `max` expired keys in lexicographic order and leaves the rest as it was. */
  lemma ScanRemovesExactly(s: Store, now: U64, max: nat)
    requires max > 0
    ensures var s', expired := Expire(s, now, max).store, ExpiredKeys(s, now);
            var gone := s.instances.Keys - s'.instances.Keys;
            && gone <= expired
            && |gone| == (if |expired| <= max then |expired| else max)
            && (forall k, m :: k in gone && m in expired - gone ==> KeyLe(k, m))
            && s'.instances == s.instances - gone
  {
    VictimsAreTheFirst(s, now, max);
    ScanEffect(s, now, max);
    var victims := Elements(Victims(s, now, max));
    assert s.instances.Keys - Expire(s, now, max).store.instances.Keys == victims;
  }

  // ---------- repeated scans ----------

  ghost function Scans(s: Store, now: U64, max: nat, n: nat): Store {
    if n == 0 then s else Expire(Scans(s, now, max, n - 1), now, max).store
  }

  /** What is left of `n` after taking `k`. */
  function Left(n: nat, k: nat): nat {
    if n <= k then 0 else n - k
  }

  lemma ScanCountsDown(s: Store, now: U64, max: nat)
    requires max > 0
    ensures |ExpiredKeys(Expire(s, now, max).store, now)| == Left(|ExpiredKeys(s, now)|, max)
  {
    VictimsAreTheFirst(s, now, max);
    ScanEffect(s, now, max);
    var gone := Elements(Victims(s, now, max));
    assert ExpiredKeys(Expire(s, now, max).store, now) == ExpiredKeys(s, now) - gone;
  }

  /** Repeated scans at one time leave no expired instance once they have had room for all of them. */
  lemma {:induction false} RepeatedScansFinish(s: Store, now: U64, max: nat, n: nat)
    requires max > 0
    ensures |ExpiredKeys(Scans(s, now, max, n), now)| == Left(|ExpiredKeys(s, now)|, Span(n, max))
  {
    if n > 0 {
      RepeatedScansFinish(s, now, max, n - 1);
      ScanCountsDown(Scans(s, now, max, n - 1), now, max);
    }
  }

  // ---------- invisibility ----------

  /** At time `t` the two stores hold the same live instances. */
  ghost predicate SameLive(s: Store, s': Store, t: U64) {
    forall k :: && (Holds(s, k, t) <==> Holds(s', k, t))
                && (Holds(s, k, t) ==> s'.instances[k] == s.instances[k])
  }

  lemma ScanKeepsLive(s: Store, now: U64, max: nat, t: U64)
    requires Keyed(s) && max > 0 && now <= t
    ensures SameLive(s, Expire(s, now, max).store, t)
  {
    ScanEffect(s, now, max);
  }

  /** Retrieval, discovery under any map order and hash, and listing see only the live instances. */
  lemma ReadsSeeOnlyLive(s: Store, s': Store, t: U64, key: InstanceKey, q: DiscoverQuery, l: ListQuery)
    requires SameLive(s, s', t)
    ensures Retrieve(s', key, t) == Retrieve(s, key, t)
    ensures Candidates(s', q, t) == Candidates(s, q, t)
    ensures List(s, l, t).Ok? <==> List(s', l, t).Ok?
    ensures List(s, l, t).Ok? ==> List(s', l, t).value.page == List(s, l, t).value.page
  {
    forall i
      ensures i in Candidates(s', q, t) <==> i in Candidates(s, q, t)
    {
      if i in Candidates(s, q, t) {
        var k :| k in s.instances && Candidate(q, s.instances[k], t) && i == s.instances[k];
        assert Holds(s, k, t) && Holds(s', k, t);
      }
      if i in Candidates(s', q, t) {
        var k :| k in s'.instances && Candidate(q, s'.instances[k], t) && i == s'.instances[k];
        assert Holds(s', k, t) && Holds(s, k, t);
      }
    }
    CountedSeesOnlyLive(s, s', t, l);
  }

  lemma CountedSeesOnlyLive(s: Store, s': Store, t: U64, l: ListQuery)
    requires SameLive(s, s', t)
    ensures Counted(s'.instances, l, t) == Counted(s.instances, l, t)
  {
    forall i
      ensures i in Counted(s'.instances, l, t) <==> i in Counted(s.instances, l, t)
    {
      if i in Counted(s.instances, l, t) {
        var k :| k in s.instances && i == s.instances[k];
        assert Holds(s, k, t) && Holds(s', k, t);
      }
      if i in Counted(s'.instances, l, t) {
        var k :| k in s'.instances && i == s'.instances[k];
        assert Holds(s', k, t) && Holds(s, k, t);
      }
    }
  }

  function HideStatusRevision(r: Result<StatusReceipt, DiscoveryError>): Result<StatusReceipt, DiscoveryError> {
    if r.Ok? then Ok(r.value.(revision := 0)) else r
  }

  function HideDeregisterRevision(r: Result<DeregisterReceipt, DiscoveryError>): Result<DeregisterReceipt, DiscoveryError> {
    if r.Ok? then Ok(r.value.(revision := 0)) else r
  }

  function HideLeaseRevision(r: Result<LeaseReceipt, DiscoveryError>): Result<LeaseReceipt, DiscoveryError> {
    if r.Ok? then Ok(r.value.(revision := 0)) else r
  }

  /** Apart from revision numbers, status reports and deregistrations answer as if the scan had not run. */
  lemma ScanIsInvisible(s: Store, now: U64, max: nat, report: StatusCommand, key: InstanceKey, t: U64,
                        q: DiscoverQuery, l: ListQuery)
    requires Keyed(s) && max > 0 && now <= t && now <= report.now
    ensures var s' := Expire(s, now, max).store;
            && Retrieve(s', key, t) == Retrieve(s, key, t)
            && Candidates(s', q, t) == Candidates(s, q, t)
            && (List(s, l, t).Ok? ==> List(s', l, t).Ok? && List(s', l, t).value.page == List(s, l, t).value.page)
            && HideStatusRevision(ReportStatus(s', report).outcome) == HideStatusRevision(ReportStatus(s, report).outcome)
            && HideDeregisterRevision(Deregister(s', key, t).outcome) == HideDeregisterRevision(Deregister(s, key, t).outcome)
  {
    var s' := Expire(s, now, max).store;
    ScanKeepsLive(s, now, max, t);
    ReadsSeeOnlyLive(s, s', t, key, q, l);
    assert Holds(s, key, t) <==> Holds(s', key, t);
    ScanKeepsLive(s, now, max, report.now);
    assert Holds(s, report.key, report.now) <==> Holds(s', report.key, report.now);
  }

  /** The one renewal that can tell: the lease belongs to a removed instance and the asked expiry overflows, which
      the code checks before it looks at the instance. */
  predicate RenewalTells(s: Store, s': Store, c: RenewCommand) {
    && !Blank(c.leaseId) && c.ttlSeconds != 0
    && c.leaseId in s.leaseIndex && s.leaseIndex[c.leaseId] !in s'.instances
    && c.now + 1000 * c.ttlSeconds > U64_MAX
  }

  lemma ScanDropsOnlyGoneLeases(s: Store, now: U64, max: nat, lease: string)
    requires Keyed(s) && LeasesOk(s) && max > 0 && lease in s.leaseIndex
    ensures var s' := Expire(s, now, max).store;
            && (lease in s'.leaseIndex <==> s.leaseIndex[lease] in s'.instances)
            && (lease in s'.leaseIndex ==> s'.leaseIndex[lease] == s.leaseIndex[lease])
  {
    var victims := Victims(s, now, max);
    ScanEffect(s, now, max);
    var key := s.leaseIndex[lease];
    assert key in s.instances && s.instances[key].leaseId == lease;
    assert lease in LeasesOf(s, victims) <==> key in victims;
  }

  /** What a renewal needs to know of the scan: its lease was dropped exactly when its instance went, and only an
      expired instance goes. */
  ghost predicate SameForLease(s: Store, s': Store, lease: string, now: U64) {
    if lease !in s.leaseIndex then lease !in s'.leaseIndex
    else
      var key := s.leaseIndex[lease];
      && key in s.instances
      && if key in s'.instances
         then lease in s'.leaseIndex && s'.leaseIndex[lease] == key && s'.instances[key] == s.instances[key]
         else lease !in s'.leaseIndex && !s.instances[key].LiveAt(now)
  }

  lemma ScanIsSameForLease(s: Store, now: U64, max: nat, lease: string)
    requires Keyed(s) && LeasesOk(s) && max > 0
    ensures SameForLease(s, Expire(s, now, max).store, lease, now)
  {
    ScanEffect(s, now, max);
    if lease in s.leaseIndex {
      ScanDropsOnlyGoneLeases(s, now, max, lease);
    }
  }

  lemma RenewalTellsIff(s: Store, s': Store, now: U64, c: RenewCommand)
    requires SameForLease(s, s', c.leaseId, now) && now <= c.now
    ensures HideLeaseRevision(Renew(s', c).outcome) == HideLeaseRevision(Renew(s, c).outcome)
            <==> !RenewalTells(s, s', c)
  {
  }

  /** A renewal at or after the scan answers as if it had not run, apart from revisions, exactly when it is not the
      one above. */
  lemma RenewalSeesScanIffOverflow(s: Store, now: U64, max: nat, c: RenewCommand)
    requires Keyed(s) && LeasesOk(s) && max > 0 && now <= c.now
    ensures var s' := Expire(s, now, max).store;
            HideLeaseRevision(Renew(s', c).outcome) == HideLeaseRevision(Renew(s, c).outcome)
            <==> !RenewalTells(s, s', c)
  {
    ScanIsSameForLease(s, now, max, c.leaseId);
    RenewalTellsIff(s, Expire(s, now, max).store, now, c);
  }

  /** The one registration that can tell: it expects a revision that the removed instance did not have. */
  predicate RegistrationTells(s: Store, s': Store, c: RegisterCommand) {
    ValidRegister(c) && c.key !in s'.instances && ConflictsWith(s, c.key, c.expectedRevision)
  }

  lemma ScanLeavesSequence(s: Store, keys: seq<InstanceKey>)
    ensures RemoveAll(s, keys).0.nextSequence == s.nextSequence
  {
    if keys != [] {
      ScanLeavesSequence(s, keys[..|keys| - 1]);
    }
  }

  /** What a registration needs to know of the scan: only an expired instance goes, and no id is used up. */
  ghost predicate SameForKey(s: Store, s': Store, key: InstanceKey, now: U64) {
    && s'.nextSequence == s.nextSequence
    && if key in s'.instances then key in s.instances && s'.instances[key] == s.instances[key]
       else key in s.instances ==> !s.instances[key].LiveAt(now)
  }

  lemma RegistrationTellsIff(s: Store, s': Store, c: RegisterCommand)
    requires SameForKey(s, s', c.key, c.now)
    ensures HideLeaseRevision(Register(s', c).outcome) == HideLeaseRevision(Register(s, c).outcome)
            <==> !RegistrationTells(s, s', c)
  {
  }

  /** A registration at or after the scan answers as if it had not run, apart from revisions, exactly when it is not
      the one above. */
  lemma RegistrationSeesScanIffConflict(s: Store, now: U64, max: nat, c: RegisterCommand)
    requires max > 0 && now <= c.now
    ensures var s' := Expire(s, now, max).store;
            HideLeaseRevision(Register(s', c).outcome) == HideLeaseRevision(Register(s, c).outcome)
            <==> !RegistrationTells(s, s', c)
  {
    assert SameForKey(s, Expire(s, now, max).store, c.key, c.now) by {
      ScanEffect(s, now, max);
      ScanLeavesSequence(s, Victims(s, now, max));
    }
    RegistrationTellsIff(s, Expire(s, now, max).store, c);
  }
}
