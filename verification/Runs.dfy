/** Runs of the store: any sequence of operations from the empty store, with the full event history kept beside it. */
module Runs {
  import opened Base
  import opened Types
  import opened Registry
  import opened Configs
  import opened EventLog

  datatype Op =
    | DoRegister(register: RegisterCommand)
    | DoRegisterAll(registers: seq<RegisterCommand>)
    | DoRenew(renew: RenewCommand)
    | DoReport(report: StatusCommand)
    | DoDeregister(key: InstanceKey, now: U64)
    | DoDeregisterAll(namespace: string, environment: string, service: string, ids: seq<string>, now: U64)
    | DoExpire(now: U64, maxInstances: nat)
    | DoUpdateHealth(key: InstanceKey, health: HealthState)
    | DoCreate(create: CreateDraftCommand)
    | DoPublish(publish: PublishCommand)
    | DoRollback(rollback: RollbackCommand)
    | DoCollect(beforeRevision: nat, maxDeletes: nat)
    | DoCompact(namespace: string, environment: string, maxPerResource: nat)
  {
    /** Retention and compaction only take events away; every other operation only adds them. */
    predicate Trims() {
      DoCollect? || DoCompact?
    }
  }

  ghost function Apply(s: Store, op: Op): Store {
    match op
    case DoRegister(c) => Register(s, c).store
    case DoRegisterAll(cs) => RegisterAll(s, cs).0
    case DoRenew(c) => Renew(s, c).store
    case DoReport(c) => ReportStatus(s, c).store
    case DoDeregister(key, now) => Deregister(s, key, now).store
    case DoDeregisterAll(ns, env, svc, ids, now) => DeregisterAll(s, ns, env, svc, ids, now).store
    case DoExpire(now, max) => Expire(s, now, max).store
    case DoUpdateHealth(key, health) => UpdateHealth(s, key, health).store
    case DoCreate(c) => CreateDraft(s, c).store
    case DoPublish(c) => Publish(s, c).store
    case DoRollback(c) => Rollback(s, c).store
    case DoCollect(bound, max) => if max == 0 then s else s.(events := Collected(s.events, bound, max))
    case DoCompact(ns, env, max) => s.(events := Compacted(s.events, ns, env, max))
  }

  /** `history` is every event ever appended; `publishes` the draft of every publish that made a release. */
  datatype World = World(store: Store, history: seq<Event>, publishes: seq<string>)

  const Genesis := World(EmptyStore, [], [])

  /** The history once the log has grown from `s` to `s'`. */
  ghost function Extend(h: seq<Event>, s: Store, s': Store): seq<Event> {
    if |s.events| <= |s'.events| then h + s'.events[|s.events|..] else h
  }

  ghost function Next(w: World, op: Op): World {
    var s' := Apply(w.store, op);
    World(s',
          if op.Trims() then w.history else Extend(w.history, w.store, s'),
          if op.DoPublish? && |s'.releases| > |w.store.releases| then w.publishes + [op.publish.draftId] else w.publishes)
  }

  ghost function Exec(ops: seq<Op>): World {
    if ops == [] then Genesis else Next(Exec(ops[..|ops| - 1]), ops[|ops| - 1])
  }

  lemma ExecStep(ops: seq<Op>, i: nat)
    requires i < |ops|
    ensures Exec(ops[..i + 1]) == Next(Exec(ops[..i]), ops[i])
  {
    assert ops[..i + 1][..i] == ops[..i];
  }

  // ---------- the history refines the instance map ----------

  predicate Concerns(e: Event, k: InstanceKey) {
    && !e.kind.IsConfig()
    && e.namespace == k.namespace && e.environment == k.environment
    && e.service == Some(k.service) && e.resourceId == k.instanceId
  }

  /** The last event about an instance. */
  function Latest(h: seq<Event>, k: InstanceKey): Option<Event> {
    if h == [] then None
    else if Concerns(h[|h| - 1], k) then Some(h[|h| - 1])
    else Latest(h[..|h| - 1], k)
  }

  predicate Present(h: seq<Event>, k: InstanceKey) {
    Latest(h, k).Some? && !Latest(h, k).value.kind.InstanceDeregistered?
  }

  ghost predicate LogOk(s: Store, h: seq<Event>) {
    && Ascending(h) && Ascending(s.events)
    && (forall e :: e in h ==> 0 < e.revision <= s.revision)
    && (forall e :: e in s.events ==> e in h)
  }

  ghost predicate Mirrors(s: Store, h: seq<Event>) {
    && (forall k :: k in s.instances <==> Present(h, k))
    && (forall k :: k in s.instances ==> s.instances[k].revision == Latest(h, k).value.revision)
  }

  ghost predicate Keyed(s: Store) {
    forall k :: k in s.instances ==> s.instances[k].key == k && k.Valid()
  }

  // ---------- the lease index ----------

  ghost predicate LeasesOk(s: Store) {
    && (forall l :: l in s.leaseIndex ==>
          s.leaseIndex[l] in s.instances && s.instances[s.leaseIndex[l]].leaseId == l)
    && (forall k, m :: k in s.instances && m in s.instances && s.instances[k].leaseId == s.instances[m].leaseId ==> k == m)
    && (forall k :: k in s.instances ==> Issued("lease", s.instances[k].leaseId, s.nextSequence))
  }

  ghost predicate RegistryInv(s: Store, h: seq<Event>) {
    LogOk(s, h) && Mirrors(s, h) && Keyed(s) && LeasesOk(s)
  }

  /** Only the subject of the new event may change, and it changes as the event says. */
  ghost predicate Explains(e: Event, s: Store, s': Store) {
    forall k ::
      if Concerns(e, k) then
        && (k in s'.instances <==> !e.kind.InstanceDeregistered?)
        && (k in s'.instances ==> s'.instances[k].revision == e.revision)
      else
        && (k in s'.instances <==> k in s.instances)
        && (k in s'.instances ==> s'.instances[k].revision == s.instances[k].revision)
  }

  lemma AppendKeepsMirror(s: Store, h: seq<Event>, s': Store, e: Event)
    requires LogOk(s, h) && Mirrors(s, h)
    requires s'.events == s.events + [e] && e.revision == s'.revision > s.revision
    requires Explains(e, s, s')
    ensures Extend(h, s, s') == h + [e]
    ensures LogOk(s', h + [e]) && Mirrors(s', h + [e])
  {
    assert s'.events[|s.events|..] == [e];
    forall i | 0 <= i < |h| ensures h[i].revision < e.revision { assert h[i] in h; }
    forall i | 0 <= i < |s.events| ensures s.events[i].revision < e.revision { assert s.events[i] in h; }
    assert (h + [e])[..|h|] == h;
    forall k
      ensures k in s'.instances <==> Present(h + [e], k)
      ensures k in s'.instances ==> s'.instances[k].revision == Latest(h + [e], k).value.revision
    {
      if !Concerns(e, k) {
        assert Latest(h + [e], k) == Latest(h, k);
      }
    }
  }

  lemma QuietKeepsMirror(s: Store, h: seq<Event>, s': Store)
    requires LogOk(s, h) && Mirrors(s, h)
    requires s'.events == s.events && s'.revision >= s.revision && s'.instances.Keys == s.instances.Keys
    requires forall k :: k in s.instances ==> s'.instances[k].revision == s.instances[k].revision
    ensures Extend(h, s, s') == h
    ensures LogOk(s', h) && Mirrors(s', h)
  {
    assert s'.events[|s.events|..] == [];
    forall k ensures k in s'.instances <==> k in s.instances { assert k in s'.instances.Keys <==> k in s.instances.Keys; }
  }

  lemma LeaseIdsStayIssued(s: Store, upTo: nat)
    requires LeasesOk(s) && upTo >= s.nextSequence
    ensures LeasesOk(s.(nextSequence := upTo))
  {
  }

  /** An operation that stores one instance under a new revision and logs a matching event. */
  ghost predicate Upserts(s: Store, s': Store, k: InstanceKey, i: Instance, kind: EventKind) {
    && s'.instances == s.instances[k := i] && i.key == k && k.Valid()
    && i.revision == s'.revision == s.revision + 1
    && s'.events == s.events + [InstanceEvent(k, kind, i.revision)]
    && !kind.IsConfig() && !kind.InstanceDeregistered?
  }

  lemma UpsertKeepsMirror(s: Store, h: seq<Event>, s': Store, k: InstanceKey, i: Instance, kind: EventKind)
    requires LogOk(s, h) && Mirrors(s, h) && Keyed(s)
    requires Upserts(s, s', k, i, kind)
    ensures LogOk(s', Extend(h, s, s')) && Mirrors(s', Extend(h, s, s')) && Keyed(s')
  {
    var e := InstanceEvent(k, kind, i.revision);
    assert Explains(e, s, s') by {
      forall m | Concerns(e, m) ensures m == k {}
    }
    AppendKeepsMirror(s, h, s', e);
  }

  /** Storing an instance that keeps its lease leaves the index sound. */
  lemma SameLeaseKeepsLeases(s: Store, s': Store, k: InstanceKey, i: Instance)
    requires LeasesOk(s) && k in s.instances && i.leaseId == s.instances[k].leaseId
    requires s'.instances == s.instances[k := i] && s'.nextSequence == s.nextSequence
    requires s'.leaseIndex == s.leaseIndex || s'.leaseIndex == s.leaseIndex[i.leaseId := k]
    ensures LeasesOk(s')
  {
  }

  /** Storing an instance under a fresh lease, after dropping the one it replaces, does too. */
  lemma FreshLeaseKeepsLeases(s: Store, s': Store, k: InstanceKey, i: Instance)
    requires LeasesOk(s) && s'.nextSequence == s.nextSequence + 1 && i.leaseId == Id("lease", s'.nextSequence)
    requires s'.instances == s.instances[k := i]
    requires s'.leaseIndex == DropSupersededLease(s, k, i.leaseId)[i.leaseId := k]
    ensures LeasesOk(s')
  {
    var lease := i.leaseId;
    NextIdIsFresh("lease", s.nextSequence);
    assert forall m :: m in s.instances ==> s.instances[m].leaseId != lease;
    FreshLeaseIsIndexed(s, s', k, i);
  }

  lemma FreshLeaseIsIndexed(s: Store, s': Store, k: InstanceKey, i: Instance)
    requires LeasesOk(s)
    requires forall m :: m in s.instances ==> s.instances[m].leaseId != i.leaseId
    requires s'.instances == s.instances[k := i]
    requires s'.leaseIndex == DropSupersededLease(s, k, i.leaseId)[i.leaseId := k]
    ensures forall l :: l in s'.leaseIndex ==>
              s'.leaseIndex[l] in s'.instances && s'.instances[s'.leaseIndex[l]].leaseId == l
  {
    forall l | l in s'.leaseIndex && l != i.leaseId
      ensures s'.leaseIndex[l] in s'.instances && s'.instances[s'.leaseIndex[l]].leaseId == l
    {
      assert s.leaseIndex[l] in s.instances && s.leaseIndex[l] != k;
    }
  }

  lemma RegisterKeepsLeases(s: Store, c: RegisterCommand)
    requires LeasesOk(s)
    ensures LeasesOk(Register(s, c).store)
  {
    var step := Register(s, c);
    if step.outcome.Ok? {
      var i := step.store.instances[c.key];
      if Holds(s, c.key, c.now) {
        SameLeaseKeepsLeases(s, step.store, c.key, i);
      } else {
        FreshLeaseKeepsLeases(s, step.store, c.key, i);
      }
    } else {
      LeaseIdsStayIssued(s, step.store.nextSequence);
    }
  }

  lemma RegisterUpserts(s: Store, c: RegisterCommand)
    requires Register(s, c).outcome.Ok?
    ensures Upserts(s, Register(s, c).store, c.key, Register(s, c).store.instances[c.key],
                    if Holds(s, c.key, c.now) then InstanceUpdated else InstanceRegistered)
  {
  }

  lemma RefusedRegisterIsQuiet(s: Store, c: RegisterCommand)
    requires Register(s, c).outcome.Err?
    ensures Register(s, c).store in {s, TakeNumbers(s, c)}
  {
  }

  lemma RegisterKeepsInv(s: Store, h: seq<Event>, c: RegisterCommand)
    requires RegistryInv(s, h)
    ensures s.events <= Register(s, c).store.events
    ensures RegistryInv(Register(s, c).store, Extend(h, s, Register(s, c).store))
  {
    var step := Register(s, c);
    RegisterKeepsLeases(s, c);
    if step.outcome.Ok? {
      RegisterUpserts(s, c);
      UpsertKeepsMirror(s, h, step.store, c.key, step.store.instances[c.key],
                        if Holds(s, c.key, c.now) then InstanceUpdated else InstanceRegistered);
    } else {
      RefusedRegisterIsQuiet(s, c);
      QuietKeepsMirror(s, h, step.store);
    }
  }

  lemma RenewUpserts(s: Store, c: RenewCommand)
    requires Renew(s, c).outcome.Ok? && Keyed(s)
    ensures c.leaseId in s.leaseIndex && s.leaseIndex[c.leaseId] in s.instances
    ensures var key := s.leaseIndex[c.leaseId];
            var s' := Renew(s, c).store;
            && Upserts(s, s', key, s'.instances[key], InstanceRenewed)
            && s'.instances[key].leaseId == s.instances[key].leaseId
            && s'.leaseIndex == s.leaseIndex && s'.nextSequence == s.nextSequence
  {
  }

  /** Storing a changed instance under the lease it has, with a matching event, keeps the whole invariant. */
  lemma UpdateKeepsInv(s: Store, h: seq<Event>, s': Store, k: InstanceKey, i: Instance, kind: EventKind)
    requires RegistryInv(s, h) && Upserts(s, s', k, i, kind)
    requires k in s.instances && i.leaseId == s.instances[k].leaseId
    requires s'.leaseIndex == s.leaseIndex && s'.nextSequence == s.nextSequence
    ensures RegistryInv(s', Extend(h, s, s'))
  {
    assert LeasesOk(s') by { SameLeaseKeepsLeases(s, s', k, i); }
    UpsertKeepsMirror(s, h, s', k, i, kind);
  }

  /** A refused renewal changes nothing but, at most, the lease index, from which it drops the lease. */
  lemma RefusedRenewKeepsInv(s: Store, h: seq<Event>, c: RenewCommand)
    requires RegistryInv(s, h) && !Renew(s, c).outcome.Ok?
    ensures RegistryInv(Renew(s, c).store, Extend(h, s, Renew(s, c).store))
  {
    var s' := Renew(s, c).store;
    assert s' == s || s' == s.(leaseIndex := s.leaseIndex - {c.leaseId});
    assert LeasesOk(s') && Keyed(s');
    QuietKeepsMirror(s, h, s');
  }

  lemma RenewAppends(s: Store, c: RenewCommand)
    ensures s.events <= Renew(s, c).store.events
  {
  }

  lemma GrantedRenewKeepsInv(s: Store, h: seq<Event>, c: RenewCommand)
    requires RegistryInv(s, h) && Renew(s, c).outcome.Ok?
    ensures RegistryInv(Renew(s, c).store, Extend(h, s, Renew(s, c).store))
  {
    RenewUpserts(s, c);
    var key, s' := s.leaseIndex[c.leaseId], Renew(s, c).store;
    UpdateKeepsInv(s, h, s', key, s'.instances[key], InstanceRenewed);
  }

  lemma RenewKeepsInv(s: Store, h: seq<Event>, c: RenewCommand)
    requires RegistryInv(s, h)
    ensures s.events <= Renew(s, c).store.events
    ensures RegistryInv(Renew(s, c).store, Extend(h, s, Renew(s, c).store))
  {
    if Renew(s, c).outcome.Ok? {
      GrantedRenewKeepsInv(s, h, c);
    } else {
      RefusedRenewKeepsInv(s, h, c);
    }
    RenewAppends(s, c);
  }

  lemma ReportKeepsInv(s: Store, h: seq<Event>, c: StatusCommand)
    requires RegistryInv(s, h)
    ensures s.events <= ReportStatus(s, c).store.events
    ensures RegistryInv(ReportStatus(s, c).store, Extend(h, s, ReportStatus(s, c).store))
  {
    var s' := ReportStatus(s, c).store;
    if ReportStatus(s, c).outcome.Ok? {
      UpdateKeepsInv(s, h, s', c.key, s'.instances[c.key], InstanceStatusReported);
    } else {
      QuietKeepsMirror(s, h, s');
    }
  }

  lemma RemoveKeepsLeases(s: Store, key: InstanceKey)
    requires LeasesOk(s) && key in s.instances
    ensures LeasesOk(Remove(s, key))
  {
  }

  lemma RemoveKeepsInv(s: Store, h: seq<Event>, key: InstanceKey)
    requires RegistryInv(s, h) && key in s.instances
    ensures RegistryInv(Remove(s, key), Extend(h, s, Remove(s, key)))
  {
    var s' := Remove(s, key);
    var e := InstanceEvent(key, InstanceDeregistered, s'.revision);
    assert LeasesOk(s') by { RemoveKeepsLeases(s, key); }
    assert Keyed(s') && s'.events == s.events + [e];
    assert Explains(e, s, s');
    AppendKeepsMirror(s, h, s', e);
  }

  lemma DeregisterKeepsInv(s: Store, h: seq<Event>, key: InstanceKey, now: U64)
    requires RegistryInv(s, h)
    ensures s.events <= Deregister(s, key, now).store.events
    ensures RegistryInv(Deregister(s, key, now).store, Extend(h, s, Deregister(s, key, now).store))
  {
    QuietKeepsMirror(s, h, s);
    if Holds(s, key, now) {
      RemoveKeepsInv(s, h, key);
    }
  }

  lemma ExtendComposes(h: seq<Event>, a: Store, b: Store, c: Store)
    requires a.events <= b.events <= c.events
    ensures Extend(Extend(h, a, b), b, c) == Extend(h, a, c)
  {
    var i, j := |a.events|, |b.events|;
    assert c.events[..j] == b.events;
    assert b.events[i..] + c.events[j..] == c.events[i..];
  }

  lemma {:induction false} RegisterAllKeepsInv(s: Store, h: seq<Event>, cs: seq<RegisterCommand>)
    requires RegistryInv(s, h)
    ensures s.events <= RegisterAll(s, cs).0.events
    ensures RegistryInv(RegisterAll(s, cs).0, Extend(h, s, RegisterAll(s, cs).0))
  {
    if cs == [] {
      QuietKeepsMirror(s, h, s);
    } else {
      var n := |cs| - 1;
      RegisterAllKeepsInv(s, h, cs[..n]);
      var s1 := RegisterAll(s, cs[..n]).0;
      RegisterKeepsInv(s1, Extend(h, s, s1), cs[n]);
      ExtendComposes(h, s, s1, Register(s1, cs[n]).store);
    }
  }

  lemma {:induction false} DeregisterAllKeepsInv(s: Store, h: seq<Event>, ns: string, env: string, svc: string,
                                                 ids: seq<string>, now: U64)
    requires RegistryInv(s, h)
    ensures s.events <= DeregisterAll(s, ns, env, svc, ids, now).store.events
    ensures RegistryInv(DeregisterAll(s, ns, env, svc, ids, now).store,
                        Extend(h, s, DeregisterAll(s, ns, env, svc, ids, now).store))
  {
    if ids == [] {
      QuietKeepsMirror(s, h, s);
    } else {
      var n := |ids| - 1;
      DeregisterAllKeepsInv(s, h, ns, env, svc, ids[..n], now);
      var s1 := DeregisterAll(s, ns, env, svc, ids[..n], now).store;
      var key := InstanceKey(ns, env, svc, ids[n]);
      DeregisterKeepsInv(s1, Extend(h, s, s1), key, now);
      ExtendComposes(h, s, s1, Deregister(s1, key, now).store);
    }
  }

  lemma {:induction false} RemoveAllKeepsInv(s: Store, h: seq<Event>, keys: seq<InstanceKey>)
    requires RegistryInv(s, h)
    ensures s.events <= RemoveAll(s, keys).0.events
    ensures RegistryInv(RemoveAll(s, keys).0, Extend(h, s, RemoveAll(s, keys).0))
  {
    if keys == [] {
      QuietKeepsMirror(s, h, s);
    } else {
      var n := |keys| - 1;
      RemoveAllKeepsInv(s, h, keys[..n]);
      var s1 := RemoveAll(s, keys[..n]).0;
      if keys[n] in s1.instances {
        RemoveKeepsInv(s1, Extend(h, s, s1), keys[n]);
        ExtendComposes(h, s, s1, Remove(s1, keys[n]));
      }
    }
  }

  /** Configuration operations leave the registry alone and add at most one event, about a release. */
  ghost predicate LeavesRegistry(s: Store, s': Store) {
    && s'.instances == s.instances && s'.leaseIndex == s.leaseIndex && s'.nextSequence >= s.nextSequence
    && (|| (s'.events == s.events && s'.revision == s.revision)
        || (&& |s'.events| == |s.events| + 1 && s'.events == s.events + [s'.events[|s.events|]]
            && s'.events[|s.events|].kind.IsConfig()
            && s'.events[|s.events|].revision == s'.revision == s.revision + 1))
  }

  lemma ConfigOpsLeaveRegistry(s: Store, op: Op)
    requires op.DoCreate? || op.DoPublish? || op.DoRollback?
    ensures LeavesRegistry(s, Apply(s, op))
  {
  }

  lemma ConfigOpKeepsInv(s: Store, h: seq<Event>, s': Store)
    requires RegistryInv(s, h) && LeavesRegistry(s, s')
    ensures s.events <= s'.events
    ensures RegistryInv(s', Extend(h, s, s'))
  {
    LeaseIdsStayIssued(s, s'.nextSequence);
    if s'.events == s.events {
      QuietKeepsMirror(s, h, s');
    } else {
      AppendKeepsMirror(s, h, s', s'.events[|s.events|]);
    }
  }

  lemma TrimKeepsInv(s: Store, h: seq<Event>, op: Op)
    requires RegistryInv(s, h) && op.Trims()
    ensures RegistryInv(Apply(s, op), h)
    ensures forall e :: e in Apply(s, op).events ==> e in s.events
  {
    match op
    case DoCollect(bound, max) => WithoutIsExact(s.events, Collectable(s.events, bound, max));
    case DoCompact(ns, env, max) => WithoutIsExact(s.events, Superseded(s.events, ns, env, max));
  }

  lemma ExpireKeepsInv(s: Store, h: seq<Event>, now: U64, max: nat)
    requires RegistryInv(s, h)
    ensures s.events <= Expire(s, now, max).store.events
    ensures RegistryInv(Expire(s, now, max).store, Extend(h, s, Expire(s, now, max).store))
  {
    RemoveAllKeepsInv(s, h, if max == 0 then [] else Victims(s, now, max));
  }

  lemma HealthKeepsInv(s: Store, h: seq<Event>, key: InstanceKey, health: HealthState)
    requires RegistryInv(s, h)
    ensures s.events <= UpdateHealth(s, key, health).store.events
    ensures RegistryInv(UpdateHealth(s, key, health).store, Extend(h, s, UpdateHealth(s, key, health).store))
  {
    var s' := UpdateHealth(s, key, health).store;
    assert LeasesOk(s') by {
      if key in s.instances {
        SameLeaseKeepsLeases(s, s', key, s'.instances[key]);
      }
    }
    assert Keyed(s');
    QuietKeepsMirror(s, h, s');
  }

  lemma RegistryStepKeepsInv(s: Store, h: seq<Event>, op: Op)
    requires RegistryInv(s, h)
    requires op.DoRegister? || op.DoRegisterAll? || op.DoRenew? || op.DoReport? || op.DoDeregister?
          || op.DoDeregisterAll? || op.DoExpire? || op.DoUpdateHealth?
    ensures s.events <= Apply(s, op).events
    ensures RegistryInv(Apply(s, op), Extend(h, s, Apply(s, op)))
  {
    match op
    case DoRegister(c) => RegisterKeepsInv(s, h, c);
    case DoRegisterAll(cs) => RegisterAllKeepsInv(s, h, cs);
    case DoRenew(c) => RenewKeepsInv(s, h, c);
    case DoReport(c) => ReportKeepsInv(s, h, c);
    case DoDeregister(key, now) => DeregisterKeepsInv(s, h, key, now);
    case DoDeregisterAll(ns, env, svc, ids, now) => DeregisterAllKeepsInv(s, h, ns, env, svc, ids, now);
    case DoExpire(now, max) => ExpireKeepsInv(s, h, now, max);
    case DoUpdateHealth(key, health) => HealthKeepsInv(s, h, key, health);
  }

  lemma StepKeepsRegistryInv(w: World, op: Op)
    requires RegistryInv(w.store, w.history)
    ensures RegistryInv(Next(w, op).store, Next(w, op).history)
    ensures !op.Trims() ==> w.store.events <= Next(w, op).store.events
  {
    var s, h := w.store, w.history;
    if op.Trims() {
      TrimKeepsInv(s, h, op);
    } else if op.DoCreate? || op.DoPublish? || op.DoRollback? {
      ConfigOpsLeaveRegistry(s, op);
      ConfigOpKeepsInv(s, h, Apply(s, op));
    } else {
      RegistryStepKeepsInv(s, h, op);
    }
  }

  /** In every run the history refines the instance map and the lease index is sound. */
  lemma {:induction false} EveryRunKeepsRegistryInv(ops: seq<Op>)
    ensures RegistryInv(Exec(ops).store, Exec(ops).history)
  {
    if ops != [] {
      EveryRunKeepsRegistryInv(ops[..|ops| - 1]);
      StepKeepsRegistryInv(Exec(ops[..|ops| - 1]), ops[|ops| - 1]);
    }
  }
}
