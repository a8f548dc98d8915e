/** What each registry call means to a client: which calls succeed, what a reader sees afterwards, and that batches are
    their commands one by one. */
module CallEffects {
  import opened Base
  import opened Types
  import opened Registry
  import opened Runs
  import opened Pagination
  import opened Discovery
  import opened ServiceList
  import opened Sorting

  // ---------- which calls succeed ----------

  predicate NamedInFull(k: InstanceKey) {
    !Blank(k.namespace) && !Blank(k.environment) && !Blank(k.service) && !Blank(k.instanceId)
  }

  predicate DescribedInFull(p: Profile) {
    !Blank(p.endpoint) && !Blank(p.protocol) && !Blank(p.version) && !Blank(p.region) && !Blank(p.zone)
  }

  /** A registration succeeds exactly when every field is given, the revision expected is the stored one, expired or
      not, and the expiry fits; a refused one changes nothing, except that one refused only for its expiry has used up
      a revision, and a lease number unless it would have kept its lease. */
  lemma RegisterAnswers(s: Store, c: RegisterCommand)
    ensures var step := Register(s, c);
            var given := NamedInFull(c.key) && DescribedInFull(c.profile) && c.ttlSeconds != 0;
            var expected := c.expectedRevision.None? || c.key !in s.instances
                            || s.instances[c.key].revision == c.expectedRevision.value;
            var fits := c.persistent || c.now + 1000 * c.ttlSeconds <= U64_MAX;
            var live := c.key in s.instances && c.now < s.instances[c.key].expiresAt;
            && (step.outcome.Ok? <==> given && expected && fits)
            && (step.outcome.Ok? ==> step.outcome.value.key == c.key && step.outcome.value.revision == s.revision + 1)
            && (step.outcome == Err(Conflict) <==> given && !expected)
            && (step.outcome.Err? ==> step.outcome.error in {Conflict, InvalidArgument})
            && (!given || !expected ==> step.store == s)
            && (given && expected && !fits ==>
                  step.store == s.(revision := s.revision + 1,
                                   nextSequence := if live then s.nextSequence else s.nextSequence + 1))
  {
  }

  /** What a reader gets for a key, given what it got before and how the instance changed. */
  function Changed(found: Result<Option<Instance>, DiscoveryError>, change: Instance -> Instance):
      Result<Option<Instance>, DiscoveryError>
  {
    if found.Ok? && found.value.Some? then Ok(Some(change(found.value.value))) else found
  }

  /** A status report succeeds exactly when the instance would be retrieved then, at the revision expected if one is;
      afterwards it is retrieved with the new status and revision for as long as before, and nothing else changes. A
      refused report changes nothing. */
  lemma ReportIsVisible(s: Store, c: StatusCommand, t: U64, other: InstanceKey)
    requires other != c.key
    ensures var step, found := ReportStatus(s, c), Retrieve(s, c.key, c.now);
            && (step.outcome.Ok? <==>
                  && found.Ok? && found.value.Some?
                  && (c.expectedRevision.None? || found.value.value.revision == c.expectedRevision.value))
            && (step.outcome.Ok? ==>
                  && step.outcome.value == StatusReceipt(s.revision + 1, c.status)
                  && Retrieve(step.store, c.key, t) ==
                     Changed(Retrieve(s, c.key, t), (i: Instance) => i.(status := c.status, revision := s.revision + 1)))
            && (step.outcome.Err? ==>
                  && step.store == s
                  && step.outcome.error == if found.Err? then InvalidArgument
                                           else if found.value.None? then NotFound else Conflict)
            && Retrieve(step.store, other, t) == Retrieve(s, other, t)
  {
  }

  /** A granted renewal stores the holder of the lease with a new expiry and revision, and answers with both. */
  lemma GrantedRenewalStores(s: Store, c: RenewCommand)
    requires Keyed(s) && LeasesOk(s) && Renew(s, c).outcome.Ok?
    ensures var s', r := Renew(s, c).store, Renew(s, c).outcome.value;
            && r.leaseId == c.leaseId && r.revision == s.revision + 1 && r.expiresAt == c.now + 1000 * c.ttlSeconds
            && Holds(s, r.key, c.now) && s.instances[r.key].leaseId == c.leaseId
            && s'.instances == s.instances[r.key := s.instances[r.key].(expiresAt := r.expiresAt, revision := r.revision)]
            && s'.events == s.events + [InstanceEvent(r.key, InstanceRenewed, r.revision)]
            && s'.drafts == s.drafts && s'.releases == s.releases
  {
  }

  lemma StoredIsRetrieved(s: Store, s': Store, key: InstanceKey, i: Instance, t: U64, other: InstanceKey)
    requires key.Valid() && s'.instances == s.instances[key := i]
    ensures Retrieve(s', key, t) == if t < i.expiresAt then Ok(Some(i)) else Ok(None)
    ensures other != key ==> Retrieve(s', other, t) == Retrieve(s, other, t)
  {
  }

  lemma GrantedRenewalIsVisible(s: Store, c: RenewCommand, t: U64, other: InstanceKey)
    requires Keyed(s) && LeasesOk(s) && Renew(s, c).outcome.Ok?
    ensures var s', r := Renew(s, c).store, Renew(s, c).outcome.value;
            && r.leaseId == c.leaseId && r.revision == s.revision + 1 && r.expiresAt == c.now + 1000 * c.ttlSeconds
            && Holds(s, r.key, c.now) && s.instances[r.key].leaseId == c.leaseId
            && Retrieve(s', r.key, t) ==
               (if t < r.expiresAt
                then Ok(Some(s.instances[r.key].(expiresAt := r.expiresAt, revision := r.revision)))
                else Ok(None))
            && (other != r.key ==> Retrieve(s', other, t) == Retrieve(s, other, t))
  {
    GrantedRenewalStores(s, c);
    var r := Renew(s, c).outcome.value;
    assert r.key.Valid();
    StoredIsRetrieved(s, Renew(s, c).store, r.key,
                      s.instances[r.key].(expiresAt := r.expiresAt, revision := r.revision), t, other);
  }

  lemma RefusedRenewalIsInvisible(s: Store, c: RenewCommand, t: U64, key: InstanceKey)
    requires Renew(s, c).outcome.Err?
    ensures Retrieve(Renew(s, c).store, key, t) == Retrieve(s, key, t)
  {
    assert Renew(s, c).store.instances == s.instances;
  }

  /** A renewal moves the expiry and the revision of the instance its lease belongs to and nothing else; one that is
      refused changes no answer. */
  lemma RenewalIsVisible(s: Store, c: RenewCommand, t: U64, other: InstanceKey)
    requires Keyed(s) && LeasesOk(s)
    ensures var s', outcome := Renew(s, c).store, Renew(s, c).outcome;
            if outcome.Err? then Retrieve(s', other, t) == Retrieve(s, other, t)
            else
              var r := outcome.value;
              && r.leaseId == c.leaseId && r.revision == s.revision + 1 && r.expiresAt == c.now + 1000 * c.ttlSeconds
              && Holds(s, r.key, c.now) && s.instances[r.key].leaseId == c.leaseId
              && Retrieve(s', r.key, t) ==
                 (if t < r.expiresAt
                  then Ok(Some(s.instances[r.key].(expiresAt := r.expiresAt, revision := r.revision)))
                  else Ok(None))
              && (other != r.key ==> Retrieve(s', other, t) == Retrieve(s, other, t))
  {
    if Renew(s, c).outcome.Ok? {
      GrantedRenewalIsVisible(s, c, t, other);
    } else {
      RefusedRenewalIsInvisible(s, c, t, other);
    }
  }

  /** A renewal succeeds exactly when it names a lease in the index, for some time that fits, of an instance live then. */
  lemma RenewAnswers(s: Store, c: RenewCommand)
    requires LeasesOk(s)
    ensures var step := Renew(s, c);
            var given, known := !Blank(c.leaseId) && c.ttlSeconds != 0, c.leaseId in s.leaseIndex;
            var fits := c.now + 1000 * c.ttlSeconds <= U64_MAX;
            && (step.outcome.Ok? <==> given && known && fits && Holds(s, s.leaseIndex[c.leaseId], c.now))
            && (step.outcome.Err? ==>
                  step.outcome.error == if !given || (known && !fits) then InvalidArgument else NotFound)
  {
  }

  /** Deregistration answers whether the instance was there, removes it for every reader and leaves the others. */
  lemma DeregistrationIsVisible(s: Store, key: InstanceKey, now: U64, t: U64, other: InstanceKey)
    requires Keyed(s) && other != key
    ensures var step, found := Deregister(s, key, now), Retrieve(s, key, now);
            && (found.Err? ==> step.outcome == Err(InvalidArgument) && step.store == s)
            && (found == Ok(None) ==> step.outcome == Ok(DeregisterReceipt(key, 0, false)) && step.store == s)
            && (found.Ok? && found.value.Some? ==>
                  && step.outcome == Ok(DeregisterReceipt(key, s.revision + 1, true))
                  && Retrieve(step.store, key, t) == Ok(None))
            && Retrieve(step.store, other, t) == Retrieve(s, other, t)
  {
  }

  /** A health update is seen in the instance, without a new revision or an event. */
  lemma HealthIsVisible(s: Store, key: InstanceKey, health: HealthState, t: U64, other: InstanceKey)
    requires other != key
    ensures var step := UpdateHealth(s, key, health);
            && (step.outcome.Ok? <==> key in s.instances)
            && Retrieve(step.store, key, t) == Changed(Retrieve(s, key, t), (i: Instance) => i.(health := health))
            && Retrieve(step.store, other, t) == Retrieve(s, other, t)
            && step.store.(instances := s.instances) == s
  {
  }

  /** A scan is refused, without effect, exactly when it has no room. */
  lemma ScanAnswers(s: Store, now: U64, max: nat)
    ensures Expire(s, now, max).outcome.Err? <==> max == 0
    ensures max == 0 ==> Expire(s, now, max) == Step(s, Err(InvalidArgument))
  {
  }

  /** Reads are refused exactly when a name is missing; a listing tells the store's revision. */
  lemma ReadsNeedNames(s: Store, key: InstanceKey, q: DiscoverQuery, l: ListQuery, now: U64)
    ensures Retrieve(s, key, now).Err? <==> !NamedInFull(key)
    ensures q.Valid() <==> && !Blank(q.namespace) && !Blank(q.environment) && !Blank(q.service)
                           && (q.protocol == None || !Blank(q.protocol.value))
    ensures List(s, l, now).Err? <==> Blank(l.namespace) || Blank(l.environment)
    ensures List(s, l, now).Ok? ==> List(s, l, now).value.revision == s.revision
  {
  }

  // ---------- batches ----------

  ghost function ApplyAll(s: Store, ops: seq<Op>): Store {
    if ops == [] then s else Apply(ApplyAll(s, ops[..|ops| - 1]), ops[|ops| - 1])
  }

  function Registrations(cs: seq<RegisterCommand>): (ops: seq<Op>)
    ensures |ops| == |cs| && forall i :: 0 <= i < |cs| ==> ops[i] == DoRegister(cs[i])
  {
    seq(|cs|, i requires 0 <= i < |cs| => DoRegister(cs[i]))
  }

  /** What each command of the batch would be told if it were sent by itself, after those before it. */
  ghost function OneByOne(s: Store, cs: seq<RegisterCommand>): (outcomes: seq<Result<LeaseReceipt, DiscoveryError>>)
    ensures |outcomes| == |cs|
  {
    if cs == [] then [] else
      var n := |cs| - 1;
      OneByOne(s, cs[..n]) + [Register(ApplyAll(s, Registrations(cs[..n])), cs[n]).outcome]
  }

  /** What the receipt of a batch says of its first `n` commands: the failed ones are named, the others take the
      receipts in turn. */
  function ReadBatch(receipt: BatchReceipt, n: nat): Option<seq<Result<LeaseReceipt, DiscoveryError>>>
    decreases n
  {
    if n == 0 then if receipt == BatchReceipt([], []) then Some([]) else None
    else
      var results, errors := receipt.results, receipt.errors;
      if errors != [] && errors[|errors| - 1].0 == n - 1 then
        var before := ReadBatch(receipt.(errors := errors[..|errors| - 1]), n - 1);
        if before.None? then None else Some(before.value + [Err(errors[|errors| - 1].1)])
      else if results != [] then
        var before := ReadBatch(receipt.(results := results[..|results| - 1]), n - 1);
        if before.None? then None else Some(before.value + [Ok(results[|results| - 1])])
      else None
  }

  lemma {:induction false} BatchErrorsAreEarlier(s: Store, cs: seq<RegisterCommand>)
    ensures forall e :: e in RegisterAll(s, cs).1.errors ==> e.0 < |cs|
  {
    if cs != [] {
      BatchErrorsAreEarlier(s, cs[..|cs| - 1]);
    }
  }

  lemma {:induction false} BatchStoreIsOneByOne(s: Store, cs: seq<RegisterCommand>)
    ensures RegisterAll(s, cs).0 == ApplyAll(s, Registrations(cs))
  {
    if cs != [] {
      var n := |cs| - 1;
      BatchStoreIsOneByOne(s, cs[..n]);
      assert Registrations(cs)[..n] == Registrations(cs[..n]);
    }
  }

  lemma TallyReadsBack(done: BatchReceipt, n: nat, answer: Result<LeaseReceipt, DiscoveryError>)
    requires forall e :: e in done.errors ==> e.0 < n
    requires ReadBatch(done, n).Some?
    ensures ReadBatch(Tally(done, n, answer), n + 1) == Some(ReadBatch(done, n).value + [answer])
  {
    match answer
    case Ok(receipt) =>
      assert (done.results + [receipt])[..|done.results|] == done.results;
      assert done.errors != [] ==> done.errors[|done.errors| - 1] in done.errors;
    case Err(e) =>
      assert (done.errors + [(n, e)])[..|done.errors|] == done.errors;
  }

  /** A batch of registrations leaves the store its commands would leave one by one, and from its receipt a client reads
      back exactly what each of them would have been told. */
  lemma {:induction false} BatchIsOneByOne(s: Store, cs: seq<RegisterCommand>)
    ensures RegisterAll(s, cs).0 == ApplyAll(s, Registrations(cs))
    ensures ReadBatch(RegisterAll(s, cs).1, |cs|) == Some(OneByOne(s, cs))
  {
    BatchStoreIsOneByOne(s, cs);
    if cs != [] {
      var n := |cs| - 1;
      BatchIsOneByOne(s, cs[..n]);
      BatchErrorsAreEarlier(s, cs[..n]);
      var before := RegisterAll(s, cs[..n]);
      TallyReadsBack(before.1, n, Register(before.0, cs[n]).outcome);
    }
  }

  function Deregistrations(ns: string, env: string, svc: string, ids: seq<string>, now: U64): (ops: seq<Op>)
    ensures |ops| == |ids|
    ensures forall i :: 0 <= i < |ids| ==> ops[i] == DoDeregister(InstanceKey(ns, env, svc, ids[i]), now)
  {
    seq(|ids|, i requires 0 <= i < |ids| => DoDeregister(InstanceKey(ns, env, svc, ids[i]), now))
  }

  predicate AllNamed(ns: string, env: string, svc: string, ids: seq<string>) {
    forall i :: 0 <= i < |ids| ==> NamedInFull(InstanceKey(ns, env, svc, ids[i]))
  }

  lemma AllNamedBefore(ns: string, env: string, svc: string, ids: seq<string>, n: nat)
    requires AllNamed(ns, env, svc, ids) && n < |ids|
    ensures AllNamed(ns, env, svc, ids[..n]) && InstanceKey(ns, env, svc, ids[n]).Valid()
  {
    assert NamedInFull(InstanceKey(ns, env, svc, ids[n]));
  }

  lemma ApplyAllStep(s: Store, ops: seq<Op>, n: nat)
    requires n < |ops|
    ensures ApplyAll(s, ops[..n + 1]) == Apply(ApplyAll(s, ops[..n]), ops[n])
  {
    assert ops[..n + 1][..n] == ops[..n];
  }

  lemma DeregistrationsBefore(s: Store, ns: string, env: string, svc: string, ids: seq<string>, now: U64, n: nat)
    requires n < |ids|
    ensures Deregistrations(ns, env, svc, ids, now)[..n] == Deregistrations(ns, env, svc, ids[..n], now)
    ensures ApplyAll(s, Deregistrations(ns, env, svc, ids[..n + 1], now))
         == Deregister(ApplyAll(s, Deregistrations(ns, env, svc, ids[..n], now)), InstanceKey(ns, env, svc, ids[n]), now).store
  {
    var ops := Deregistrations(ns, env, svc, ids, now);
    assert ops[..n] == Deregistrations(ns, env, svc, ids[..n], now);
    assert ops[..n + 1] == Deregistrations(ns, env, svc, ids[..n + 1], now);
    ApplyAllStep(s, ops, n);
  }

  /** What one more name does to a batch that has not failed. */
  lemma DeregisterOneMore(s: Store, ns: string, env: string, svc: string, ids: seq<string>, now: U64)
    requires ids != []
    requires DeregisterAll(s, ns, env, svc, ids[..|ids| - 1], now).outcome.Ok?
    ensures var n := |ids| - 1;
            var before, key := DeregisterAll(s, ns, env, svc, ids[..n], now), InstanceKey(ns, env, svc, ids[n]);
            var last := Deregister(before.store, key, now);
            && DeregisterAll(s, ns, env, svc, ids, now).store == last.store
            && (key.Valid() ==>
                  && last.outcome.Ok?
                  && DeregisterAll(s, ns, env, svc, ids, now).outcome == Ok(before.outcome.value + [last.outcome.value]))
            && (!key.Valid() ==>
                  && last.store == before.store
                  && DeregisterAll(s, ns, env, svc, ids, now).outcome == Err(InvalidArgument))
  {
  }

  lemma {:induction false} NamedBatchStore(s: Store, ns: string, env: string, svc: string, ids: seq<string>, now: U64)
    requires AllNamed(ns, env, svc, ids)
    ensures var step := DeregisterAll(s, ns, env, svc, ids, now);
            && step.store == ApplyAll(s, Deregistrations(ns, env, svc, ids, now))
            && step.outcome.Ok? && |step.outcome.value| == |ids|
  {
    if ids != [] {
      var n := |ids| - 1;
      AllNamedBefore(ns, env, svc, ids, n);
      NamedBatchStore(s, ns, env, svc, ids[..n], now);
      DeregisterOneMore(s, ns, env, svc, ids, now);
      DeregistrationsBefore(s, ns, env, svc, ids, now, n);
      assert ids[..n + 1] == ids;
    }
  }

  lemma LastNamedReceipt(s: Store, ns: string, env: string, svc: string, ids: seq<string>, now: U64)
    requires AllNamed(ns, env, svc, ids) && ids != []
    ensures var n := |ids| - 1;
            var before, outcome := DeregisterAll(s, ns, env, svc, ids[..n], now), DeregisterAll(s, ns, env, svc, ids, now).outcome;
            && before.outcome.Ok? && |before.outcome.value| == n
            && before.store == ApplyAll(s, Deregistrations(ns, env, svc, ids[..n], now))
            && Deregister(before.store, InstanceKey(ns, env, svc, ids[n]), now).outcome.Ok?
            && outcome == Ok(before.outcome.value + [Deregister(before.store, InstanceKey(ns, env, svc, ids[n]), now).outcome.value])
  {
    var n := |ids| - 1;
    AllNamedBefore(ns, env, svc, ids, n);
    NamedBatchStore(s, ns, env, svc, ids[..n], now);
    DeregisterOneMore(s, ns, env, svc, ids, now);
  }

  lemma {:induction false} NamedBatchReceipts(s: Store, ns: string, env: string, svc: string, ids: seq<string>, now: U64, i: nat)
    requires AllNamed(ns, env, svc, ids) && i < |ids|
    ensures var outcome := DeregisterAll(s, ns, env, svc, ids, now).outcome;
            && outcome.Ok? && |outcome.value| == |ids|
            && Ok(outcome.value[i]) ==
               Deregister(ApplyAll(s, Deregistrations(ns, env, svc, ids[..i], now)), InstanceKey(ns, env, svc, ids[i]), now).outcome
  {
    var n := |ids| - 1;
    LastNamedReceipt(s, ns, env, svc, ids, now);
    if i < n {
      AllNamedBefore(ns, env, svc, ids, n);
      NamedBatchReceipts(s, ns, env, svc, ids[..n], now, i);
      assert ids[..n][..i] == ids[..i] && ids[..n][i] == ids[i];
    }
  }

  /** While every instance is named in full, a batch of deregistrations is its commands one by one, with their
      receipts. */
  lemma NamedBatchIsOneByOne(s: Store, ns: string, env: string, svc: string, ids: seq<string>, now: U64, i: nat)
    requires AllNamed(ns, env, svc, ids) && i < |ids|
    ensures var step := DeregisterAll(s, ns, env, svc, ids, now);
            && step.store == ApplyAll(s, Deregistrations(ns, env, svc, ids, now))
            && step.outcome.Ok? && |step.outcome.value| == |ids|
            && Ok(step.outcome.value[i]) ==
               Deregister(ApplyAll(s, Deregistrations(ns, env, svc, ids[..i], now)), InstanceKey(ns, env, svc, ids[i]), now).outcome
  {
    NamedBatchStore(s, ns, env, svc, ids, now);
    NamedBatchReceipts(s, ns, env, svc, ids, now, i);
  }

  lemma LastUnnamedStops(s: Store, ns: string, env: string, svc: string, ids: seq<string>, now: U64)
    requires ids != [] && AllNamed(ns, env, svc, ids[..|ids| - 1])
    requires !NamedInFull(InstanceKey(ns, env, svc, ids[|ids| - 1]))
    ensures DeregisterAll(s, ns, env, svc, ids, now)
         == Step(ApplyAll(s, Deregistrations(ns, env, svc, ids[..|ids| - 1], now)), Err(InvalidArgument))
  {
    NamedBatchStore(s, ns, env, svc, ids[..|ids| - 1], now);
    DeregisterOneMore(s, ns, env, svc, ids, now);
  }

  lemma FailureIsPassedOn(s: Store, ns: string, env: string, svc: string, ids: seq<string>, now: U64)
    requires ids != [] && DeregisterAll(s, ns, env, svc, ids[..|ids| - 1], now).outcome.Err?
    ensures DeregisterAll(s, ns, env, svc, ids, now) == DeregisterAll(s, ns, env, svc, ids[..|ids| - 1], now)
  {
  }

  /** At the first name that is not, the batch fails, having done exactly the commands before it. */
  lemma {:induction false} UnnamedBatchStops(s: Store, ns: string, env: string, svc: string, ids: seq<string>, now: U64, m: nat)
    requires m < |ids| && AllNamed(ns, env, svc, ids[..m]) && !NamedInFull(InstanceKey(ns, env, svc, ids[m]))
    ensures DeregisterAll(s, ns, env, svc, ids, now)
         == Step(ApplyAll(s, Deregistrations(ns, env, svc, ids[..m], now)), Err(InvalidArgument))
  {
    var n := |ids| - 1;
    if m < n {
      assert ids[..n][..m] == ids[..m];
      UnnamedBatchStops(s, ns, env, svc, ids[..n], now, m);
      FailureIsPassedOn(s, ns, env, svc, ids, now);
    } else {
      LastUnnamedStops(s, ns, env, svc, ids, now);
    }
  }

  // ---------- what discovery and listing show ----------

  /** A registered instance is wanted by exactly the queries that name its service and ask for nothing it is not, until
      it expires. */
  lemma RegisteredIsWantedIff(s: Store, c: RegisterCommand, q: DiscoverQuery, t: U64)
    requires Keyed(s) && Register(s, c).outcome.Ok?
    ensures var s' := Register(s, c).store;
            s'.instances[c.key] in Wanted(s', q, t) <==>
            && q.namespace == c.key.namespace && q.environment == c.key.environment && q.service == c.key.service
            && t < Register(s, c).outcome.value.expiresAt
            && (q.protocol.None? || q.protocol.value == c.profile.protocol)
            && (q.healthyOnly ==> c.status != NotServing)
            && (forall i :: 0 <= i < |q.labels| ==> q.labels[i].Matches(c.profile.metadata))
  {
    var s' := Register(s, c).store;
    WantedIff(s', q, t, c.key);
    assert s'.instances[c.key].expiresAt == Register(s, c).outcome.value.expiresAt;
  }

  lemma WantedIff(s: Store, q: DiscoverQuery, t: U64, key: InstanceKey)
    requires key in s.instances
    ensures s.instances[key] in Wanted(s, q, t) <==> Candidate(q, s.instances[key], t) && Labelled(q, s.instances[key])
  {
  }

  /** A report that an instance is not serving takes it from the queries that ask for healthy instances, and from no
      others; any other report puts it back. */
  lemma ReportedIsWantedIff(s: Store, c: StatusCommand, q: DiscoverQuery, t: U64)
    requires ReportStatus(s, c).outcome.Ok?
    ensures var s' := ReportStatus(s, c).store;
            s'.instances[c.key] in Wanted(s', q, t) <==>
            && s.instances[c.key] in Wanted(s, q.(healthyOnly := false), t)
            && (q.healthyOnly ==> c.status != NotServing)
  {
    WantedIff(ReportStatus(s, c).store, q, t, c.key);
    WantedIff(s, q.(healthyOnly := false), t, c.key);
  }

  /** Asks for every live instance of a service. */
  function AnyOf(l: ListQuery, service: string): DiscoverQuery {
    DiscoverQuery(l.namespace, l.environment, service, false, None, [], None, l.pageSize, None)
  }

  /** The listing and discovery agree: a service is listed exactly when discovery finds an instance of it, with as many
      instances, and the latest of their revisions. */
  lemma ListingAgreesWithDiscovery(s: Store, l: ListQuery, service: string, now: U64)
    ensures var summaries := Summaries(Counted(s.instances, l, now), l);
            var found := Wanted(s, AnyOf(l, service), now);
            && (service in summaries <==> found != {})
            && (service in summaries ==>
                  && summaries[service].namespace == l.namespace && summaries[service].environment == l.environment
                  && summaries[service].service == service && summaries[service].activeInstances == |found|
                  && (forall i :: i in found ==> i.revision <= summaries[service].latestRevision)
                  && (exists i :: i in found && i.revision == summaries[service].latestRevision))
  {
    var counted, found := Counted(s.instances, l, now), Wanted(s, AnyOf(l, service), now);
    forall i ensures i in OfService(counted, service) <==> i in found {
      if i in OfService(counted, service) {
        var k :| k in s.instances && i == s.instances[k] && i.LiveAt(now);
        assert Candidate(AnyOf(l, service), s.instances[k], now);
      }
      if i in found {
        var k :| k in s.instances && i == s.instances[k] && Candidate(AnyOf(l, service), i, now);
        assert i in counted;
      }
    }
    assert OfService(counted, service) == found;
    assert service in ServicesOf(counted) <==> found != {} by {
      if service in ServicesOf(counted) {
        var i :| i in counted && i.key.service == service;
        assert i in found;
      }
      if found != {} {
        var i :| i in found;
        assert i in OfService(counted, service);
      }
    }
  }

  lemma SummariesAreDistinct(s: Store, l: ListQuery, now: U64)
    requires Keyed(s)
    ensures var summaries := Summaries(Counted(s.instances, l, now), l);
            var sorted := SortedSummaries(summaries);
            Enumerates(sorted, summaries.Values) && Sorted(ServiceLe, sorted) && DistinctKeys(sorted, NameOf)
  {
    var summaries := Summaries(Counted(s.instances, l, now), l);
    var listing, sorted := Listing(summaries.Values), SortedSummaries(summaries);
    ServiceLeIsPreorder();
    SortBySorts(ServiceLe, listing);
    EnumerationsHaveNoRepeats(sorted, summaries.Values);
    forall i | 0 <= i < |sorted|
      ensures NameOf(sorted[i]) in summaries && summaries[NameOf(sorted[i])] == sorted[i] && NameOf(sorted[i]) != ""
    {
      assert sorted[i] in summaries.Values;
      var name :| name in summaries && summaries[name] == sorted[i];
      var inst :| inst in Counted(s.instances, l, now) && inst.key.service == name;
      assert !Blank(inst.key.service);
    }
  }

  /** Following the listing's tokens over an unchanged store yields every service once, by name, and ends. */
  lemma ListWalkYieldsEveryServiceOnce(s: Store, l: ListQuery, now: U64, pages: seq<Page<ServiceSummary>>)
    requires Keyed(s) && l.Valid() && pages != []
    requires forall i {:trigger TokenAt(pages, i)} :: 0 <= i < |pages| ==>
               && (i > 0 ==> TokenAt(pages, i).Some?)
               && List(s, l.(pageToken := TokenAt(pages, i)), now).Ok?
               && pages[i] == List(s, l.(pageToken := TokenAt(pages, i)), now).value.page
    ensures var summaries := Summaries(Counted(s.instances, l, now), l);
            var sorted, fetched := SortedSummaries(summaries), Span(|pages|, NormalizePageSize(l.pageSize));
            && Enumerates(sorted, summaries.Values) && Sorted(ServiceLe, sorted)
            && (if pages[|pages| - 1].nextToken.None? then Join(pages) == sorted
                else fetched < |sorted| && Join(pages) == sorted[..fetched])
  {
    var sorted := SortedSummaries(Summaries(Counted(s.instances, l, now), l));
    SummariesAreDistinct(s, l, now);
    forall i {:trigger TokenAt(pages, i)} | 0 <= i < |pages|
      ensures (i > 0 ==> TokenAt(pages, i).Some?) && pages[i] == Paginate(sorted, l.pageSize, TokenAt(pages, i), NameOf)
    {
      TokenLeavesSummaries(s, l, TokenAt(pages, i), now);
    }
    FollowedPagesArePrefix(sorted, l.pageSize, NameOf, pages);
  }

  lemma TokenLeavesSummaries(s: Store, l: ListQuery, token: Option<string>, now: U64)
    ensures var l' := l.(pageToken := token);
            Summaries(Counted(s.instances, l', now), l') == Summaries(Counted(s.instances, l, now), l)
  {
    var l' := l.(pageToken := token);
    assert Counted(s.instances, l', now) == Counted(s.instances, l, now);
  }
}
