/** Two facts about whole runs: when a live lease can be renewed, exactly, and that a revision is never reused. */
module Leases {
  import opened Base
  import opened Types
  import opened Registry
  import opened Runs

  // ---------- live leases are indexed ----------

  /** Every instance live at time `t` is found through its lease. */
  ghost predicate Reachable(s: Store, t: U64) {
    forall k :: k in s.instances && s.instances[k].LiveAt(t) ==>
      s.instances[k].leaseId in s.leaseIndex && s.leaseIndex[s.instances[k].leaseId] == k
  }

  /** The one step that takes a live lease away: a well-formed renewal, at a reading when the instance is expired, of
      the lease of an instance that is live at `t`. */
  predicate Hides(s: Store, op: Op, t: U64) {
    op.DoRenew? &&
      var c := op.renew;
      && !Blank(c.leaseId) && c.ttlSeconds != 0 && c.now + 1000 * c.ttlSeconds <= U64_MAX
      && c.leaseId in s.leaseIndex
      && Holds(s, s.leaseIndex[c.leaseId], t) && !Holds(s, s.leaseIndex[c.leaseId], c.now)
  }

  /** No other instance holds the lease a registration ends up with. */
  lemma LeaseForIsOwn(s: Store, c: RegisterCommand, m: InstanceKey)
    requires LeasesOk(s) && m in s.instances && m != c.key
    ensures s.instances[m].leaseId != LeaseFor(s, c)
    ensures c.key in s.instances ==> s.instances[m].leaseId != s.instances[c.key].leaseId
  {
    NextIdIsFresh("lease", s.nextSequence);
  }

  /** Storing an instance under a lease no other holds, after dropping the one it replaces, hides no other. */
  lemma PlacedStaysReachable(s: Store, s': Store, k: InstanceKey, i: Instance, t: U64)
    requires Reachable(s, t) && s'.instances == s.instances[k := i]
    requires s'.leaseIndex == DropSupersededLease(s, k, i.leaseId)[i.leaseId := k]
    requires forall m :: m in s.instances && m != k ==>
               s.instances[m].leaseId != i.leaseId && (k in s.instances ==> s.instances[m].leaseId != s.instances[k].leaseId)
    ensures Reachable(s', t)
  {
  }

  lemma RegisterKeepsReachable(s: Store, c: RegisterCommand, t: U64)
    requires LeasesOk(s) && Reachable(s, t)
    ensures Reachable(Register(s, c).store, t)
  {
    var step := Register(s, c);
    if step.outcome.Ok? {
      var i := step.store.instances[c.key];
      forall m | m in s.instances && m != c.key
        ensures s.instances[m].leaseId != i.leaseId
             && (c.key in s.instances ==> s.instances[m].leaseId != s.instances[c.key].leaseId)
      {
        LeaseForIsOwn(s, c, m);
      }
      PlacedStaysReachable(s, step.store, c.key, i, t);
    } else {
      RefusedRegisterIsQuiet(s, c);
    }
  }

  lemma RemoveKeepsReachable(s: Store, key: InstanceKey, t: U64)
    requires LeasesOk(s) && Reachable(s, t) && key in s.instances
    ensures Reachable(Remove(s, key), t) && LeasesOk(Remove(s, key))
  {
  }

  /** Dropping a lease hides its instance, if that is live, and nothing else. */
  lemma DroppedLeaseHides(s: Store, lease: string, t: U64)
    requires LeasesOk(s) && Reachable(s, t) && lease in s.leaseIndex
    ensures Reachable(s.(leaseIndex := s.leaseIndex - {lease}), t) <==> !Holds(s, s.leaseIndex[lease], t)
  {
    var s' := s.(leaseIndex := s.leaseIndex - {lease});
    var k := s.leaseIndex[lease];
    if Holds(s, k, t) {
      assert s'.instances[k].leaseId !in s'.leaseIndex;
    }
  }

  /** An instance found through the lease it keeps stays so, and so do the others. */
  lemma SameLeaseStaysReachable(s: Store, s': Store, lease: string, k: InstanceKey, i: Instance, t: U64)
    requires Reachable(s, t) && s'.instances == s.instances[k := i] && s'.leaseIndex == s.leaseIndex
    requires i.leaseId == lease && lease in s.leaseIndex && s.leaseIndex[lease] == k
    ensures Reachable(s', t)
  {
  }

  lemma RenewHidesIff(s: Store, c: RenewCommand, t: U64)
    requires LeasesOk(s) && Reachable(s, t)
    ensures Reachable(Renew(s, c).store, t) <==> !Hides(s, DoRenew(c), t)
  {
    var step := Renew(s, c);
    if step.outcome.Ok? {
      var key := s.leaseIndex[c.leaseId];
      SameLeaseStaysReachable(s, step.store, c.leaseId, key, step.store.instances[key], t);
    } else if !Blank(c.leaseId) && c.ttlSeconds != 0 && c.leaseId in s.leaseIndex && c.now + 1000 * c.ttlSeconds <= U64_MAX {
      DroppedLeaseHides(s, c.leaseId, t);
    }
  }

  lemma {:induction false} RegisterAllKeepsReachable(s: Store, cs: seq<RegisterCommand>, t: U64)
    requires LeasesOk(s) && Reachable(s, t)
    ensures LeasesOk(RegisterAll(s, cs).0) && Reachable(RegisterAll(s, cs).0, t)
  {
    if cs != [] {
      var n := |cs| - 1;
      RegisterAllKeepsReachable(s, cs[..n], t);
      var s1 := RegisterAll(s, cs[..n]).0;
      RegisterKeepsReachable(s1, cs[n], t);
      RegisterKeepsLeases(s1, cs[n]);
    }
  }

  lemma {:induction false} DeregisterAllKeepsReachable(s: Store, ns: string, env: string, svc: string,
                                                       ids: seq<string>, now: U64, t: U64)
    requires LeasesOk(s) && Reachable(s, t)
    ensures LeasesOk(DeregisterAll(s, ns, env, svc, ids, now).store)
    ensures Reachable(DeregisterAll(s, ns, env, svc, ids, now).store, t)
  {
    if ids != [] {
      var n := |ids| - 1;
      DeregisterAllKeepsReachable(s, ns, env, svc, ids[..n], now, t);
      var s1 := DeregisterAll(s, ns, env, svc, ids[..n], now).store;
      var key := InstanceKey(ns, env, svc, ids[n]);
      if key in s1.instances {
        RemoveKeepsReachable(s1, key, t);
      }
    }
  }

  lemma {:induction false} RemoveAllKeepsReachable(s: Store, keys: seq<InstanceKey>, t: U64)
    requires LeasesOk(s) && Reachable(s, t)
    ensures LeasesOk(RemoveAll(s, keys).0) && Reachable(RemoveAll(s, keys).0, t)
  {
    if keys != [] {
      var n := |keys| - 1;
      RemoveAllKeepsReachable(s, keys[..n], t);
      if keys[n] in RemoveAll(s, keys[..n]).0.instances {
        RemoveKeepsReachable(RemoveAll(s, keys[..n]).0, keys[n], t);
      }
    }
  }

  /** The operation touches no lease: same index, same instances, same leases and expiries. */
  ghost predicate LeavesLeases(s: Store, s': Store) {
    && s'.leaseIndex == s.leaseIndex
    && s'.instances.Keys <= s.instances.Keys
    && (forall k :: k in s'.instances ==>
          s'.instances[k].leaseId == s.instances[k].leaseId && s'.instances[k].expiresAt == s.instances[k].expiresAt)
  }

  lemma QuietOpsLeaveLeases(s: Store, op: Op)
    requires op.DoReport? || op.DoUpdateHealth? || op.Trims()
    ensures LeavesLeases(s, Apply(s, op))
  {
  }

  lemma DeregisterKeepsReachable(s: Store, key: InstanceKey, now: U64, t: U64)
    requires LeasesOk(s) && Reachable(s, t)
    ensures Reachable(Deregister(s, key, now).store, t)
  {
    if key in s.instances {
      RemoveKeepsReachable(s, key, t);
    }
  }

  lemma RegistryStepKeepsReachable(s: Store, op: Op, t: U64)
    requires LeasesOk(s) && Reachable(s, t)
    requires op.DoRegister? || op.DoRegisterAll? || op.DoDeregister? || op.DoDeregisterAll? || op.DoExpire?
    ensures Reachable(Apply(s, op), t)
  {
    match op
    case DoRegister(c) => RegisterKeepsReachable(s, c, t);
    case DoRegisterAll(cs) => RegisterAllKeepsReachable(s, cs, t);
    case DoDeregisterAll(ns, env, svc, ids, now) => DeregisterAllKeepsReachable(s, ns, env, svc, ids, now, t);
    case DoExpire(now, max) => RemoveAllKeepsReachable(s, if max == 0 then [] else Victims(s, now, max), t);
    case DoDeregister(key, now) => DeregisterKeepsReachable(s, key, now, t);
  }

  /** For every operation and every time, whatever the clock did before: all live leases stay reachable if and only if
      the operation is not the one above. */
  lemma StepHidesIff(s: Store, op: Op, t: U64)
    requires LeasesOk(s) && Reachable(s, t)
    ensures Reachable(Apply(s, op), t) <==> !Hides(s, op, t)
  {
    if op.DoCreate? || op.DoPublish? || op.DoRollback? {
      ConfigOpsLeaveRegistry(s, op);
    } else if op.DoRenew? {
      RenewHidesIff(s, op.renew, t);
    } else if op.DoReport? || op.DoUpdateHealth? || op.Trims() {
      QuietOpsLeaveLeases(s, op);
    } else {
      RegistryStepKeepsReachable(s, op, t);
    }
  }

  /** At any time no earlier than every renewal's reading, whatever the other readings were, every live instance is
      found through its lease, even though a failed renewal removes an index entry. */
  lemma {:induction false} LiveLeasesAreReachable(ops: seq<Op>, t: U64)
    requires forall i :: 0 <= i < |ops| && ops[i].DoRenew? ==> ops[i].renew.now <= t
    ensures Reachable(Exec(ops).store, t)
  {
    if ops != [] {
      var n := |ops| - 1;
      LiveLeasesAreReachable(ops[..n], t);
      EveryRunKeepsRegistryInv(ops[..n]);
      StepHidesIff(Exec(ops[..n]).store, ops[n], t);
    }
  }

  /** What reachability is for: a well-formed renewal of any live instance's lease succeeds, for the asked time. */
  lemma LiveLeaseRenews(s: Store, key: InstanceKey, ttlSeconds: U64, now: U64)
    requires Keyed(s) && Reachable(s, now) && Holds(s, key, now)
    requires !Blank(s.instances[key].leaseId) && ttlSeconds != 0 && now + 1000 * ttlSeconds <= U64_MAX
    ensures var step := Renew(s, RenewCommand(s.instances[key].leaseId, ttlSeconds, now));
            && step.outcome == Ok(LeaseReceipt(s.instances[key].leaseId, key, s.revision + 1, now + 1000 * ttlSeconds))
            && (forall t: U64 :: Holds(step.store, key, t) <==> t < now + 1000 * ttlSeconds)
  {
  }

  /** So in every run a live instance can be renewed through its lease, unless an earlier renewal carried a later
      reading. */
  lemma LiveLeaseRenewsInEveryRun(ops: seq<Op>, key: InstanceKey, ttlSeconds: U64, now: U64)
    requires forall i :: 0 <= i < |ops| && ops[i].DoRenew? ==> ops[i].renew.now <= now
    requires Holds(Exec(ops).store, key, now) && ttlSeconds != 0 && now + 1000 * ttlSeconds <= U64_MAX
    ensures var s := Exec(ops).store;
            var step := Renew(s, RenewCommand(s.instances[key].leaseId, ttlSeconds, now));
            && step.outcome == Ok(LeaseReceipt(s.instances[key].leaseId, key, s.revision + 1, now + 1000 * ttlSeconds))
            && (forall t: U64 :: Holds(step.store, key, t) <==> t < now + 1000 * ttlSeconds)
  {
    var s := Exec(ops).store;
    EveryRunKeepsRegistryInv(ops);
    LiveLeasesAreReachable(ops, now);
    IssuedIsNotBlank(s.instances[key].leaseId, s.nextSequence);
    LiveLeaseRenews(s, key, ttlSeconds, now);
  }

  lemma IssuedIsNotBlank(id: string, upTo: nat)
    requires Issued("lease", id, upTo)
    ensures !Blank(id)
  {
    assert id[0] == 'l';
  }

  /** What a registration is for: the instance is retrieved, as commanded, until its expiry and not after, whatever was
      stored before; every other instance is retrieved as before. */
  lemma RegistrationIsVisible(s: Store, c: RegisterCommand, t: U64, other: InstanceKey)
    requires Register(s, c).outcome.Ok? && other != c.key
    ensures var s', receipt := Register(s, c).store, Register(s, c).outcome.value;
            && receipt.expiresAt == (if c.persistent then U64_MAX else c.now + 1000 * c.ttlSeconds)
            && Retrieve(s', c.key, t) ==
               (if t < receipt.expiresAt
                then Ok(Some(Instance(c.key, c.profile, c.status, receipt.leaseId, receipt.expiresAt, receipt.revision,
                                      HealthState(0, 0, 0))))
                else Ok(None))
            && Retrieve(s', other, t) == Retrieve(s, other, t)
            && receipt.leaseId in s'.leaseIndex && s'.leaseIndex[receipt.leaseId] == c.key
            && (Holds(s, c.key, c.now) <==> s'.nextSequence == s.nextSequence)
            && (Holds(s, c.key, c.now) ==> receipt.leaseId == s.instances[c.key].leaseId)
  {
  }

  // ---------- revisions are never reused ----------

  /** The store's revision has reached `r` and the instance, if one is named, is off revision `r`. */
  ghost predicate Past(s: Store, key: Option<InstanceKey>, r: nat) {
    s.revision >= r && (key.Some? && key.value in s.instances ==> s.instances[key.value].revision != r)
  }

  lemma {:induction false} RegisterAllStaysPast(s: Store, cs: seq<RegisterCommand>, key: Option<InstanceKey>, r: nat)
    requires Past(s, key, r)
    ensures Past(RegisterAll(s, cs).0, key, r)
  {
    if cs != [] {
      RegisterAllStaysPast(s, cs[..|cs| - 1], key, r);
    }
  }

  lemma {:induction false} DeregisterAllStaysPast(s: Store, ns: string, env: string, svc: string, ids: seq<string>,
                                                  now: U64, key: Option<InstanceKey>, r: nat)
    requires Past(s, key, r)
    ensures Past(DeregisterAll(s, ns, env, svc, ids, now).store, key, r)
  {
    if ids != [] {
      DeregisterAllStaysPast(s, ns, env, svc, ids[..|ids| - 1], now, key, r);
    }
  }

  lemma {:induction false} RemoveAllStaysPast(s: Store, keys: seq<InstanceKey>, key: Option<InstanceKey>, r: nat)
    requires Past(s, key, r)
    ensures Past(RemoveAll(s, keys).0, key, r)
  {
    if keys != [] {
      RemoveAllStaysPast(s, keys[..|keys| - 1], key, r);
    }
  }

  lemma StepStaysPast(s: Store, op: Op, key: Option<InstanceKey>, r: nat)
    requires Past(s, key, r)
    ensures Past(Apply(s, op), key, r)
  {
    match op
    case DoRegister(c) =>
    case DoRegisterAll(cs) => RegisterAllStaysPast(s, cs, key, r);
    case DoDeregisterAll(ns, env, svc, ids, now) => DeregisterAllStaysPast(s, ns, env, svc, ids, now, key, r);
    case DoExpire(now, max) => RemoveAllStaysPast(s, if max == 0 then [] else Victims(s, now, max), key, r);
    case _ =>
  }

  /** Once an instance has left a revision it held, it never holds it again, even after deregistering and
      registering anew. */
  lemma {:induction false} RevisionNeverReturns(ops: seq<Op>, i: nat, j: nat, k: nat, key: InstanceKey, r: nat)
    requires i <= j <= k <= |ops|
    requires var s := Exec(ops[..i]).store; key in s.instances && s.instances[key].revision == r
    requires var s := Exec(ops[..j]).store; key in s.instances ==> s.instances[key].revision != r
    ensures Past(Exec(ops[..k]).store, Some(key), r)
  {
    if j == k {
      EveryRunKeepsRegistryInv(ops[..i]);
      RevisionGrows(ops, i, j);
      var w := Exec(ops[..i]);
      assert Latest(w.history, key).value in w.history by { LatestIsLogged(w.history, key); }
    } else {
      RevisionNeverReturns(ops, i, j, k - 1, key, r);
      ExecStep(ops, k - 1);
      StepStaysPast(Exec(ops[..k - 1]).store, ops[k - 1], Some(key), r);
    }
  }

  lemma {:induction false} LatestIsLogged(h: seq<Event>, key: InstanceKey)
    ensures Latest(h, key).Some? ==> Latest(h, key).value in h
  {
    if h != [] && !Concerns(h[|h| - 1], key) {
      LatestIsLogged(h[..|h| - 1], key);
    }
  }

  lemma StepGrowsRevision(ops: seq<Op>, i: nat)
    requires i < |ops|
    ensures Exec(ops[..i]).store.revision <= Exec(ops[..i + 1]).store.revision
  {
    ExecStep(ops, i);
    var s := Exec(ops[..i]).store;
    StepStaysPast(s, ops[i], None, s.revision);
  }

  lemma {:induction false} RevisionGrows(ops: seq<Op>, i: nat, j: nat)
    requires i <= j <= |ops|
    ensures Exec(ops[..i]).store.revision <= Exec(ops[..j]).store.revision
  {
    if i < j {
      RevisionGrows(ops, i, j - 1);
      StepGrowsRevision(ops, j - 1);
    }
  }

  ghost predicate Accepted(ops: seq<Op>, i: nat, key: InstanceKey, r: nat)
    requires i < |ops|
  {
    && ops[i].DoReport? && ops[i].report.key == key && ops[i].report.expectedRevision == Some(r)
    && ReportStatus(Exec(ops[..i]).store, ops[i].report).outcome.Ok?
  }

  /** Compare-and-set: of all the status reports for one instance that expect one revision, at most one succeeds. */
  lemma AtMostOneReportWins(ops: seq<Op>, i: nat, j: nat, key: InstanceKey, r: nat)
    requires i < j < |ops| && Accepted(ops, i, key, r)
    ensures !Accepted(ops, j, key, r)
  {
    ExecStep(ops, i);
    var s := Exec(ops[..i]).store;
    EveryRunKeepsRegistryInv(ops[..i]);
    LatestIsLogged(Exec(ops[..i]).history, key);
    assert s.instances[key].revision == r <= s.revision;
    RevisionNeverReturns(ops, i, i + 1, j, key, r);
  }
}
