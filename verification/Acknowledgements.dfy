/** What the answers tell: a client that sees every call and its answer, and nothing else, knows the whole registry, all
    configuration and the whole event history, and exactly which calls would leave it wrong. */
module Acknowledgements {
  import opened Base
  import opened Types
  import opened Registry
  import opened Configs
  import opened Runs
  import opened ConfigRuns
  import opened CallEffects

  datatype Reply =
    | Leased(lease: Result<LeaseReceipt, DiscoveryError>)
    | BatchLeased(batch: BatchReceipt)
    | Reported(status: Result<StatusReceipt, DiscoveryError>)
    | Removed(removals: Result<seq<DeregisterReceipt>, DiscoveryError>)
    | Checked(checked: Result<(), DiscoveryError>)
    | Drafted(draft: Result<ConfigDraft, DiscoveryError>)
    | Released(release: Result<ConfigRelease, DiscoveryError>)
    | Trimmed

  function One<T>(r: Result<T, DiscoveryError>): Result<seq<T>, DiscoveryError> {
    match r
    case Ok(v) => Ok([v])
    case Err(e) => Err(e)
  }

  ghost function ReplyOf(s: Store, op: Op): Reply {
    match op
    case DoRegister(c) => Leased(Register(s, c).outcome)
    case DoRegisterAll(cs) => BatchLeased(RegisterAll(s, cs).1)
    case DoRenew(c) => Leased(Renew(s, c).outcome)
    case DoReport(c) => Reported(ReportStatus(s, c).outcome)
    case DoDeregister(key, now) => Removed(One(Deregister(s, key, now).outcome))
    case DoDeregisterAll(ns, env, svc, ids, now) => Removed(DeregisterAll(s, ns, env, svc, ids, now).outcome)
    case DoExpire(now, max) => Removed(Expire(s, now, max).outcome)
    case DoUpdateHealth(key, health) => Checked(UpdateHealth(s, key, health).outcome)
    case DoCreate(c) => Drafted(CreateDraft(s, c).outcome)
    case DoPublish(c) => Released(Publish(s, c).outcome)
    case DoRollback(c) => Released(Rollback(s, c).outcome)
    case DoCollect(_, _) => Trimmed
    case DoCompact(_, _, _) => Trimmed
  }

  // ---------- the client ----------

  datatype Ledger = Ledger(
    instances: map<InstanceKey, Instance>, drafts: map<string, ConfigDraft>, releases: seq<ConfigRelease>,
    history: seq<Event>)

  const EmptyLedger := Ledger(map[], map[], [], [])

  function LearnRegistration(l: Ledger, c: RegisterCommand, answer: Result<LeaseReceipt, DiscoveryError>): Ledger {
    if answer.Err? then l else
      var r := answer.value;
      var update := c.key in l.instances && c.now < l.instances[c.key].expiresAt;
      l.(instances := l.instances[c.key := Instance(c.key, c.profile, c.status, r.leaseId, r.expiresAt, r.revision,
                                                    HealthState(0, 0, 0))],
         history := l.history + [InstanceEvent(c.key, if update then InstanceUpdated else InstanceRegistered, r.revision)])
  }

  function LearnRegistrations(l: Ledger, cs: seq<RegisterCommand>, answers: seq<Result<LeaseReceipt, DiscoveryError>>): Ledger
    requires |answers| == |cs|
  {
    if cs == [] then l else
      var n := |cs| - 1;
      LearnRegistration(LearnRegistrations(l, cs[..n], answers[..n]), cs[n], answers[n])
  }

  function LearnRenewal(l: Ledger, answer: Result<LeaseReceipt, DiscoveryError>): Ledger {
    if answer.Err? || answer.value.key !in l.instances then l else
      var r := answer.value;
      l.(instances := l.instances[r.key := l.instances[r.key].(expiresAt := r.expiresAt, revision := r.revision)],
         history := l.history + [InstanceEvent(r.key, InstanceRenewed, r.revision)])
  }

  function LearnStatus(l: Ledger, c: StatusCommand, answer: Result<StatusReceipt, DiscoveryError>): Ledger {
    if answer.Err? || c.key !in l.instances then l else
      var r := answer.value;
      l.(instances := l.instances[c.key := l.instances[c.key].(status := r.status, revision := r.revision)],
         history := l.history + [InstanceEvent(c.key, InstanceStatusReported, r.revision)])
  }

  function LearnRemovals(l: Ledger, receipts: seq<DeregisterReceipt>): Ledger {
    if receipts == [] then l else
      var n := |receipts| - 1;
      var before, r := LearnRemovals(l, receipts[..n]), receipts[n];
      if !r.deregistered then before
      else before.(instances := before.instances - {r.key},
                   history := before.history + [InstanceEvent(r.key, InstanceDeregistered, r.revision)])
  }

  function LearnHealth(l: Ledger, key: InstanceKey, health: HealthState, answer: Result<(), DiscoveryError>): Ledger {
    if answer.Err? || key !in l.instances then l
    else l.(instances := l.instances[key := l.instances[key].(health := health)])
  }

  function LearnDraft(l: Ledger, answer: Result<ConfigDraft, DiscoveryError>): Ledger {
    if answer.Err? then l else l.(drafts := l.drafts[answer.value.draftId := answer.value])
  }

  /** A release the client has seen before is a replay. */
  function LearnRelease(l: Ledger, kind: EventKind, answer: Result<ConfigRelease, DiscoveryError>): Ledger {
    if answer.Err? || answer.value in l.releases || answer.value.draftId !in l.drafts then l else
      var r := answer.value;
      l.(releases := l.releases + [r],
         drafts := l.drafts[r.draftId := l.drafts[r.draftId].(published := true)],
         history := l.history + [ReleaseEvent(r, kind)])
  }

  function Learn(l: Ledger, op: Op, reply: Reply): Ledger {
    match (op, reply)
    case (DoRegister(c), Leased(answer)) => LearnRegistration(l, c, answer)
    case (DoRegisterAll(cs), BatchLeased(receipt)) =>
      var answers := ReadBatch(receipt, |cs|);
      if answers.Some? && |answers.value| == |cs| then LearnRegistrations(l, cs, answers.value) else l
    case (DoRenew(_), Leased(answer)) => LearnRenewal(l, answer)
    case (DoReport(c), Reported(answer)) => LearnStatus(l, c, answer)
    case (_, Removed(answer)) => if answer.Ok? then LearnRemovals(l, answer.value) else l
    case (DoUpdateHealth(key, health), Checked(answer)) => LearnHealth(l, key, health, answer)
    case (DoCreate(_), Drafted(answer)) => LearnDraft(l, answer)
    case (DoPublish(_), Released(answer)) => LearnRelease(l, ConfigPublished, answer)
    case (DoRollback(_), Released(answer)) => LearnRelease(l, ConfigRolledBack, answer)
    case _ => l
  }

  /** What the client holds after any calls. */
  ghost function Learned(ops: seq<Op>): Ledger {
    if ops == [] then EmptyLedger else
      var n := |ops| - 1;
      Learn(Learned(ops[..n]), ops[n], ReplyOf(Exec(ops[..n]).store, ops[n]))
  }

  // ---------- each call is learned ----------

  function View(s: Store, h: seq<Event>): Ledger {
    Ledger(s.instances, s.drafts, s.releases, h)
  }

  lemma ExtendByOne(h: seq<Event>, s: Store, s': Store, e: Event)
    requires s'.events == s.events + [e]
    ensures s.events <= s'.events && Extend(h, s, s') == h + [e]
  {
    assert s'.events[|s.events|..] == [e];
  }

  lemma ExtendByNone(h: seq<Event>, s: Store, s': Store)
    requires s'.events == s.events
    ensures s.events <= s'.events && Extend(h, s, s') == h
  {
    assert s'.events[|s.events|..] == [];
  }

  lemma RegistrationIsLearned(s: Store, h: seq<Event>, c: RegisterCommand)
    ensures var s' := Register(s, c).store;
            s.events <= s'.events && LearnRegistration(View(s, h), c, Register(s, c).outcome) == View(s', Extend(h, s, s'))
  {
    var s' := Register(s, c).store;
    if Register(s, c).outcome.Ok? {
      ExtendByOne(h, s, s', s'.events[|s.events|]);
    } else {
      RefusedRegisterIsQuiet(s, c);
      ExtendByNone(h, s, s');
    }
  }

  lemma {:induction false} BatchIsLearned(s: Store, h: seq<Event>, cs: seq<RegisterCommand>)
    ensures var s' := RegisterAll(s, cs).0;
            s.events <= s'.events && LearnRegistrations(View(s, h), cs, OneByOne(s, cs)) == View(s', Extend(h, s, s'))
  {
    if cs == [] {
      ExtendByNone(h, s, s);
    } else {
      var n := |cs| - 1;
      BatchIsLearned(s, h, cs[..n]);
      var s1 := RegisterAll(s, cs[..n]).0;
      assert OneByOne(s, cs)[..n] == OneByOne(s, cs[..n]);
      BatchStoreIsOneByOne(s, cs[..n]);
      RegistrationIsLearned(s1, Extend(h, s, s1), cs[n]);
      ExtendComposes(h, s, s1, Register(s1, cs[n]).store);
    }
  }

  lemma RenewalIsLearned(s: Store, h: seq<Event>, c: RenewCommand)
    requires Keyed(s) && LeasesOk(s)
    ensures var s' := Renew(s, c).store;
            s.events <= s'.events && LearnRenewal(View(s, h), Renew(s, c).outcome) == View(s', Extend(h, s, s'))
  {
    var s' := Renew(s, c).store;
    if Renew(s, c).outcome.Ok? {
      GrantedRenewalStores(s, c);
      var r := Renew(s, c).outcome.value;
      ExtendByOne(h, s, s', InstanceEvent(r.key, InstanceRenewed, r.revision));
    } else {
      RefusedRenewalIsUnseen(s, c);
      ExtendByNone(h, s, s');
    }
  }

  lemma RefusedRenewalIsUnseen(s: Store, c: RenewCommand)
    requires Renew(s, c).outcome.Err?
    ensures Renew(s, c).store == s.(leaseIndex := Renew(s, c).store.leaseIndex)
  {
  }

  lemma StatusIsLearned(s: Store, h: seq<Event>, c: StatusCommand)
    requires Keyed(s)
    ensures var s' := ReportStatus(s, c).store;
            s.events <= s'.events && LearnStatus(View(s, h), c, ReportStatus(s, c).outcome) == View(s', Extend(h, s, s'))
  {
    var s' := ReportStatus(s, c).store;
    if ReportStatus(s, c).outcome.Ok? {
      ExtendByOne(h, s, s', InstanceEvent(c.key, InstanceStatusReported, s.revision + 1));
    } else {
      ExtendByNone(h, s, s');
    }
  }

  lemma RemovalIsLearned(s: Store, h: seq<Event>, key: InstanceKey)
    requires Keyed(s) && key in s.instances
    ensures var s' := Remove(s, key);
            && s.events <= s'.events && Keyed(s')
            && View(s', Extend(h, s, s')) ==
               View(s, h).(instances := s.instances - {key},
                           history := h + [InstanceEvent(key, InstanceDeregistered, s.revision + 1)])
  {
    ExtendByOne(h, s, Remove(s, key), InstanceEvent(key, InstanceDeregistered, s.revision + 1));
  }

  lemma LearnOneMore(l: Ledger, receipts: seq<DeregisterReceipt>, r: DeregisterReceipt)
    ensures LearnRemovals(l, receipts + [r]) ==
            var before := LearnRemovals(l, receipts);
            if !r.deregistered then before
            else before.(instances := before.instances - {r.key},
                         history := before.history + [InstanceEvent(r.key, InstanceDeregistered, r.revision)])
  {
    assert (receipts + [r])[..|receipts|] == receipts;
  }

  lemma DeregistrationIsLearned(s: Store, h: seq<Event>, key: InstanceKey, now: U64)
    requires Keyed(s)
    ensures var s' := Deregister(s, key, now).store;
            && s.events <= s'.events && Keyed(s')
            && (Deregister(s, key, now).outcome.Err? ==> View(s', Extend(h, s, s')) == View(s, h))
            && (Deregister(s, key, now).outcome.Ok? ==>
                  View(s', Extend(h, s, s')) == LearnRemovals(View(s, h), [Deregister(s, key, now).outcome.value]))
  {
    var step := Deregister(s, key, now);
    if step.outcome.Ok? {
      LearnOneMore(View(s, h), [], step.outcome.value);
      assert [] + [step.outcome.value] == [step.outcome.value];
    }
    if Holds(s, key, now) && key.Valid() {
      RemovalIsLearned(s, h, key);
    } else {
      ExtendByNone(h, s, s);
    }
  }

  lemma LearnMoreRemovals(l: Ledger, a: seq<DeregisterReceipt>, r: DeregisterReceipt)
    ensures LearnRemovals(l, a + [r]) == LearnRemovals(LearnRemovals(l, a), [r])
  {
    LearnOneMore(l, a, r);
    LearnOneMore(LearnRemovals(l, a), [], r);
    assert [] + [r] == [r];
  }

  lemma {:induction false} DeregistrationsAreLearned(s: Store, h: seq<Event>, ns: string, env: string, svc: string,
                                                     ids: seq<string>, now: U64)
    requires Keyed(s)
    ensures var step := DeregisterAll(s, ns, env, svc, ids, now);
            && s.events <= step.store.events && Keyed(step.store)
            && (step.outcome.Ok? ==>
                  LearnRemovals(View(s, h), step.outcome.value) == View(step.store, Extend(h, s, step.store)))
  {
    if ids == [] {
      ExtendByNone(h, s, s);
    } else {
      var n := |ids| - 1;
      DeregistrationsAreLearned(s, h, ns, env, svc, ids[..n], now);
      var before := DeregisterAll(s, ns, env, svc, ids[..n], now);
      if before.outcome.Ok? {
        var s1, key := before.store, InstanceKey(ns, env, svc, ids[n]);
        DeregisterOneMore(s, ns, env, svc, ids, now);
        DeregistrationIsLearned(s1, Extend(h, s, s1), key, now);
        ExtendComposes(h, s, s1, Deregister(s1, key, now).store);
        if key.Valid() {
          LearnMoreRemovals(View(s, h), before.outcome.value, Deregister(s1, key, now).outcome.value);
        }
      }
    }
  }

  lemma {:induction false} RemovalsAreLearned(s: Store, h: seq<Event>, keys: seq<InstanceKey>)
    requires Keyed(s)
    ensures var (s', receipts) := RemoveAll(s, keys);
            && s.events <= s'.events && Keyed(s')
            && LearnRemovals(View(s, h), receipts) == View(s', Extend(h, s, s'))
  {
    if keys == [] {
      ExtendByNone(h, s, s);
    } else {
      var n := |keys| - 1;
      RemovalsAreLearned(s, h, keys[..n]);
      var (s1, receipts) := RemoveAll(s, keys[..n]);
      if keys[n] in s1.instances {
        RemovalIsLearned(s1, Extend(h, s, s1), keys[n]);
        ExtendComposes(h, s, s1, Remove(s1, keys[n]));
        LearnOneMore(View(s, h), receipts, DeregisterReceipt(keys[n], s1.revision + 1, true));
      }
    }
  }

  lemma HealthIsLearned(s: Store, h: seq<Event>, key: InstanceKey, health: HealthState)
    ensures var s' := UpdateHealth(s, key, health).store;
            LearnHealth(View(s, h), key, health, UpdateHealth(s, key, health).outcome) == View(s', Extend(h, s, s'))
  {
    ExtendByNone(h, s, UpdateHealth(s, key, health).store);
  }

  lemma DraftIsLearned(s: Store, h: seq<Event>, c: CreateDraftCommand)
    requires DraftsOk(s)
    ensures var s' := CreateDraft(s, c).store;
            LearnDraft(View(s, h), CreateDraft(s, c).outcome) == View(s', Extend(h, s, s'))
  {
    ExtendByNone(h, s, CreateDraft(s, c).store);
    var answer := CreateDraft(s, c).outcome;
    if answer.Ok? && CreateDraft(s, c).store == s {
      assert s.drafts[answer.value.draftId := answer.value] == s.drafts;
    }
  }

  /** A call that adds a release answers with it; one that answers with a stored release adds nothing. */
  ghost predicate AddsOrReplays(s: Store, s': Store, answer: Result<ConfigRelease, DiscoveryError>, kind: EventKind) {
    || (s' == s && (answer.Ok? ==> answer.value in s.releases))
    || (&& answer.Ok? && answer.value.revision == s.revision + 1 && answer.value.draftId in s.drafts
        && s'.releases == s.releases + [answer.value]
        && s'.drafts == s.drafts[answer.value.draftId := s.drafts[answer.value.draftId].(published := true)]
        && s'.events == s.events + [ReleaseEvent(answer.value, kind)] && s'.instances == s.instances)
  }

  lemma ReleaseIsLearned(s: Store, h: seq<Event>, s': Store, answer: Result<ConfigRelease, DiscoveryError>, kind: EventKind)
    requires ReleasesOk(s) && AddsOrReplays(s, s', answer, kind)
    ensures LearnRelease(View(s, h), kind, answer) == View(s', Extend(h, s, s'))
  {
    if s' == s {
      ExtendByNone(h, s, s');
    } else {
      assert answer.value !in s.releases;
      ExtendByOne(h, s, s', ReleaseEvent(answer.value, kind));
    }
  }

  lemma PublishAddsOrReplays(s: Store, c: PublishCommand)
    requires DraftsOk(s)
    ensures AddsOrReplays(s, Publish(s, c).store, Publish(s, c).outcome, ConfigPublished)
  {
  }

  lemma RollbackAddsOrReplays(s: Store, c: RollbackCommand)
    requires Faithful(s)
    ensures AddsOrReplays(s, Rollback(s, c).store, Rollback(s, c).outcome, ConfigRolledBack)
  {
    var s' := Rollback(s, c).store;
    if s' != s {
      var source := FindRelease(s.releases, c.sourceReleaseId).value;
      var i :| 0 <= i < |s.releases| && s.releases[i] == source;
      assert s.drafts[source.draftId].(published := true) == s.drafts[source.draftId];
      assert s.drafts[source.draftId := s.drafts[source.draftId]] == s.drafts;
    }
  }

  // ---------- the one call that says too little ----------

  /** The batch removes a live instance of the given id. */
  predicate TakesLive(s: Store, ns: string, env: string, svc: string, ids: seq<string>, now: U64, i: nat) {
    i < |ids| && Holds(s, InstanceKey(ns, env, svc, ids[i]), now)
  }

  lemma {:induction false} BatchTakesLive(s: Store, ns: string, env: string, svc: string, ids: seq<string>, now: U64, i: nat)
    requires AllNamed(ns, env, svc, ids) && TakesLive(s, ns, env, svc, ids, now, i)
    ensures InstanceKey(ns, env, svc, ids[i]) !in DeregisterAll(s, ns, env, svc, ids, now).store.instances
    ensures DeregisterAll(s, ns, env, svc, ids, now).store.instances.Keys <= s.instances.Keys
  {
    var n := |ids| - 1;
    BatchOnlyRemoves(s, ns, env, svc, ids, now);
    AllNamedBefore(ns, env, svc, ids, n);
    NamedBatchStore(s, ns, env, svc, ids[..n], now);
    BatchOnlyRemoves(s, ns, env, svc, ids[..n], now);
    DeregisterOneMore(s, ns, env, svc, ids, now);
    if i < n {
      BatchTakesLive(s, ns, env, svc, ids[..n], now, i);
    }
  }

  lemma {:induction false} BatchOnlyRemoves(s: Store, ns: string, env: string, svc: string, ids: seq<string>, now: U64)
    ensures var s' := DeregisterAll(s, ns, env, svc, ids, now).store;
            forall k :: k in s'.instances ==> k in s.instances && s'.instances[k] == s.instances[k]
  {
    if ids != [] {
      BatchOnlyRemoves(s, ns, env, svc, ids[..|ids| - 1], now);
    }
  }

  lemma {:induction false} BatchTakesNothing(s: Store, ns: string, env: string, svc: string, ids: seq<string>, now: U64)
    requires forall i :: 0 <= i < |ids| ==> !TakesLive(s, ns, env, svc, ids, now, i)
    ensures DeregisterAll(s, ns, env, svc, ids, now).store == s
  {
    if ids != [] {
      var n := |ids| - 1;
      forall i | 0 <= i < n ensures !TakesLive(s, ns, env, svc, ids[..n], now, i) {
        assert !TakesLive(s, ns, env, svc, ids, now, i);
      }
      BatchTakesNothing(s, ns, env, svc, ids[..n], now);
      assert !TakesLive(s, ns, env, svc, ids, now, n);
    }
  }

  /** The batch has a name that is not given in full, and a live instance before the first such name. */
  ghost predicate StopsHalfway(s: Store, ns: string, env: string, svc: string, ids: seq<string>, now: U64) {
    exists m, i {:trigger TakesLive(s, ns, env, svc, ids, now, i), ids[m]} ::
      && 0 <= i < m < |ids| && AllNamed(ns, env, svc, ids[..m]) && !NamedInFull(InstanceKey(ns, env, svc, ids[m]))
      && TakesLive(s, ns, env, svc, ids, now, i)
  }

  ghost predicate Untold(s: Store, op: Op) {
    op.DoDeregisterAll? && StopsHalfway(s, op.namespace, op.environment, op.service, op.ids, op.now)
  }

  lemma {:induction false} FirstUnnamed(ns: string, env: string, svc: string, ids: seq<string>) returns (m: nat)
    requires !AllNamed(ns, env, svc, ids)
    ensures m < |ids| && AllNamed(ns, env, svc, ids[..m]) && !NamedInFull(InstanceKey(ns, env, svc, ids[m]))
  {
    var n := |ids| - 1;
    if AllNamed(ns, env, svc, ids[..n]) {
      m := n;
    } else {
      m := FirstUnnamed(ns, env, svc, ids[..n]);
      assert ids[..n][..m] == ids[..m];
    }
  }

  lemma FirstUnnamedIsOne(ns: string, env: string, svc: string, ids: seq<string>, m: nat, o: nat)
    requires m < |ids| && AllNamed(ns, env, svc, ids[..m]) && !NamedInFull(InstanceKey(ns, env, svc, ids[m]))
    requires o < |ids| && AllNamed(ns, env, svc, ids[..o]) && !NamedInFull(InstanceKey(ns, env, svc, ids[o]))
    ensures m == o
  {
    forall k | 0 <= k < m ensures NamedInFull(InstanceKey(ns, env, svc, ids[k])) { assert ids[..m][k] == ids[k]; }
    forall k | 0 <= k < o ensures NamedInFull(InstanceKey(ns, env, svc, ids[k])) { assert ids[..o][k] == ids[k]; }
  }

  lemma FailedBatchStore(s: Store, ns: string, env: string, svc: string, ids: seq<string>, now: U64, m: nat)
    requires m < |ids| && AllNamed(ns, env, svc, ids[..m]) && !NamedInFull(InstanceKey(ns, env, svc, ids[m]))
    ensures var step := DeregisterAll(s, ns, env, svc, ids, now);
            step.outcome == Err(InvalidArgument) && step.store == DeregisterAll(s, ns, env, svc, ids[..m], now).store
  {
    UnnamedBatchStops(s, ns, env, svc, ids, now, m);
    NamedBatchStore(s, ns, env, svc, ids[..m], now);
  }

  lemma HalfwayMeansLiveBefore(s: Store, ns: string, env: string, svc: string, ids: seq<string>, now: U64, m: nat)
    requires m < |ids| && AllNamed(ns, env, svc, ids[..m]) && !NamedInFull(InstanceKey(ns, env, svc, ids[m]))
    ensures StopsHalfway(s, ns, env, svc, ids, now) <==> exists i :: 0 <= i < m && TakesLive(s, ns, env, svc, ids, now, i)
  {
    if StopsHalfway(s, ns, env, svc, ids, now) {
      var o, i :| && 0 <= i < o < |ids| && AllNamed(ns, env, svc, ids[..o]) && !NamedInFull(InstanceKey(ns, env, svc, ids[o]))
                  && TakesLive(s, ns, env, svc, ids, now, i);
      FirstUnnamedIsOne(ns, env, svc, ids, m, o);
    }
    if i :| 0 <= i < m && TakesLive(s, ns, env, svc, ids, now, i) {
      assert ids[m] == ids[m];
    }
  }

  lemma FailedBatchChangesIff(s: Store, ns: string, env: string, svc: string, ids: seq<string>, now: U64, m: nat)
    requires m < |ids| && AllNamed(ns, env, svc, ids[..m]) && !NamedInFull(InstanceKey(ns, env, svc, ids[m]))
    ensures var step := DeregisterAll(s, ns, env, svc, ids, now);
            && step.outcome.Err?
            && (StopsHalfway(s, ns, env, svc, ids, now) ==> step.store.instances != s.instances)
            && (!StopsHalfway(s, ns, env, svc, ids, now) ==> step.store == s)
  {
    FailedBatchStore(s, ns, env, svc, ids, now, m);
    HalfwayMeansLiveBefore(s, ns, env, svc, ids, now, m);
    if StopsHalfway(s, ns, env, svc, ids, now) {
      var i :| 0 <= i < m && TakesLive(s, ns, env, svc, ids, now, i);
      assert TakesLive(s, ns, env, svc, ids[..m], now, i);
      BatchTakesLive(s, ns, env, svc, ids[..m], now, i);
    } else {
      forall i | 0 <= i < m ensures !TakesLive(s, ns, env, svc, ids[..m], now, i) {
        assert !TakesLive(s, ns, env, svc, ids, now, i);
      }
      BatchTakesNothing(s, ns, env, svc, ids[..m], now);
    }
  }

  lemma NamedNeverStops(s: Store, ns: string, env: string, svc: string, ids: seq<string>, now: U64)
    requires AllNamed(ns, env, svc, ids)
    ensures !StopsHalfway(s, ns, env, svc, ids, now) && DeregisterAll(s, ns, env, svc, ids, now).outcome.Ok?
  {
    forall m | 0 <= m < |ids| ensures NamedInFull(InstanceKey(ns, env, svc, ids[m])) {}
    NamedBatchStore(s, ns, env, svc, ids, now);
  }

  /** A batch deregistration is told of truly if and only if it does not stop halfway. */
  lemma BatchIsToldIff(s: Store, h: seq<Event>, ns: string, env: string, svc: string, ids: seq<string>, now: U64)
    requires Keyed(s)
    ensures var op := DoDeregisterAll(ns, env, svc, ids, now);
            var s' := Apply(s, op);
            Learn(View(s, h), op, ReplyOf(s, op)) == View(s', Extend(h, s, s')) <==> !StopsHalfway(s, ns, env, svc, ids, now)
  {
    if AllNamed(ns, env, svc, ids) {
      NamedNeverStops(s, ns, env, svc, ids, now);
      DeregistrationsAreLearned(s, h, ns, env, svc, ids, now);
    } else {
      var m := FirstUnnamed(ns, env, svc, ids);
      FailedBatchChangesIff(s, ns, env, svc, ids, now, m);
      if !StopsHalfway(s, ns, env, svc, ids, now) {
        ExtendByNone(h, s, s);
      }
    }
  }

  // ---------- over runs ----------

  lemma BatchStepIsLearned(s: Store, h: seq<Event>, cs: seq<RegisterCommand>)
    ensures var op := DoRegisterAll(cs);
            Learn(View(s, h), op, ReplyOf(s, op)) == View(Apply(s, op), Extend(h, s, Apply(s, op)))
  {
    BatchIsOneByOne(s, cs);
    BatchIsLearned(s, h, cs);
  }

  lemma ScanIsLearned(s: Store, h: seq<Event>, now: U64, max: nat)
    requires Keyed(s)
    ensures var op := DoExpire(now, max);
            Learn(View(s, h), op, ReplyOf(s, op)) == View(Apply(s, op), Extend(h, s, Apply(s, op)))
  {
    if max == 0 {
      ExtendByNone(h, s, s);
    } else {
      RemovalsAreLearned(s, h, Victims(s, now, max));
    }
  }

  lemma OneRemovalIsLearned(s: Store, h: seq<Event>, key: InstanceKey, now: U64)
    requires Keyed(s)
    ensures var op := DoDeregister(key, now);
            Learn(View(s, h), op, ReplyOf(s, op)) == View(Apply(s, op), Extend(h, s, Apply(s, op)))
  {
    DeregistrationIsLearned(s, h, key, now);
  }

  lemma RegistryStepIsLearned(s: Store, h: seq<Event>, op: Op)
    requires Keyed(s) && LeasesOk(s)
    requires op.DoRegister? || op.DoRenew? || op.DoReport? || op.DoUpdateHealth?
    ensures Learn(View(s, h), op, ReplyOf(s, op)) == View(Apply(s, op), Extend(h, s, Apply(s, op)))
  {
    match op
    case DoRegister(c) => RegistrationIsLearned(s, h, c);
    case DoRenew(c) => RenewalIsLearned(s, h, c);
    case DoReport(c) => StatusIsLearned(s, h, c);
    case DoUpdateHealth(key, health) => HealthIsLearned(s, h, key, health);
  }

  lemma ConfigStepIsLearned(s: Store, h: seq<Event>, op: Op)
    requires ReleasesOk(s) && DraftsOk(s) && Faithful(s) && ConfigOp(op)
    ensures Learn(View(s, h), op, ReplyOf(s, op)) == View(Apply(s, op), Extend(h, s, Apply(s, op)))
  {
    match op
    case DoCreate(c) => DraftIsLearned(s, h, c);
    case DoPublish(c) =>
      PublishAddsOrReplays(s, c);
      ReleaseIsLearned(s, h, Publish(s, c).store, Publish(s, c).outcome, ConfigPublished);
    case DoRollback(c) =>
      RollbackAddsOrReplays(s, c);
      ReleaseIsLearned(s, h, Rollback(s, c).store, Rollback(s, c).outcome, ConfigRolledBack);
  }

  /** For every operation, a client that knew everything still does after the answer if and only if the operation is not
      the one above. */
  lemma StepIsToldIff(w: World, op: Op)
    requires RegistryInv(w.store, w.history) && ConfigInv(w.store, w.publishes)
    ensures Learn(View(w.store, w.history), op, ReplyOf(w.store, op)) == View(Next(w, op).store, Next(w, op).history)
            <==> !Untold(w.store, op)
  {
    if op.Trims() {
      assert Next(w, op).history == w.history;
    } else if ConfigOp(op) {
      ConfigStepIsLearned(w.store, w.history, op);
    } else if op.DoDeregisterAll? {
      BatchIsToldIff(w.store, w.history, op.namespace, op.environment, op.service, op.ids, op.now);
    } else if op.DoRegisterAll? {
      BatchStepIsLearned(w.store, w.history, op.registers);
    } else if op.DoExpire? {
      ScanIsLearned(w.store, w.history, op.now, op.maxInstances);
    } else if op.DoDeregister? {
      OneRemovalIsLearned(w.store, w.history, op.key, op.now);
    } else {
      RegistryStepIsLearned(w.store, w.history, op);
    }
  }

  /** In every run in which no batch deregistration stops halfway, the calls and their answers tell every instance with
      all its fields, every draft, every release and the whole event history. */
  lemma {:induction false} AnswersTellEverything(ops: seq<Op>)
    requires forall i :: 0 <= i < |ops| ==> !Untold(Exec(ops[..i]).store, ops[i])
    ensures Learned(ops) == View(Exec(ops).store, Exec(ops).history)
  {
    if ops != [] {
      var n := |ops| - 1;
      forall i | 0 <= i < n ensures !Untold(Exec(ops[..n][..i]).store, ops[..n][i]) {
        assert ops[..n][..i] == ops[..i];
        assert !Untold(Exec(ops[..i]).store, ops[i]);
      }
      AnswersTellEverything(ops[..n]);
      EveryRunKeepsRegistryInv(ops[..n]);
      EveryRunKeepsConfigInv(ops[..n]);
      assert !Untold(Exec(ops[..n]).store, ops[n]);
      StepIsToldIff(Exec(ops[..n]), ops[n]);
    }
  }
}
