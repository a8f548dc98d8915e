/** Runs seen from the configuration side: releases, drafts and idempotent retries. */
module ConfigRuns {
  import opened Base
  import opened Types
  import opened Registry
  import opened Configs
  import opened Runs

  // ---------- releases and drafts ----------

  ghost predicate ReleasesOk(s: Store) {
    && (forall i :: 0 <= i < |s.releases| ==>
          s.releases[i].revision <= s.revision && Issued("release", s.releases[i].releaseId, s.nextSequence))
    && (forall i, j :: 0 <= i < j < |s.releases| ==>
          s.releases[i].revision < s.releases[j].revision && s.releases[i].releaseId != s.releases[j].releaseId)
  }

  ghost predicate DraftsOk(s: Store) {
    forall d :: d in s.drafts ==> s.drafts[d].draftId == d && Issued("draft", d, s.nextSequence)
  }

  /** Every release, however many rollbacks away, repeats its draft, and only published drafts have releases. */
  ghost predicate Faithful(s: Store) {
    forall i :: 0 <= i < |s.releases| ==>
      var r := s.releases[i];
      r.draftId in s.drafts && s.drafts[r.draftId].content == r.content && s.drafts[r.draftId].published
  }

  /** A draft is marked published exactly when one publish, and never two, released it. */
  ghost predicate PublishedOnce(s: Store, publishes: seq<string>) {
    && (forall i :: 0 <= i < |publishes| ==> publishes[i] in s.drafts)
    && (forall d :: d in s.drafts ==> (s.drafts[d].published <==> d in publishes))
    && (forall i, j :: 0 <= i < j < |publishes| ==> publishes[i] != publishes[j])
  }

  ghost predicate ConfigInv(s: Store, publishes: seq<string>) {
    ReleasesOk(s) && DraftsOk(s) && Faithful(s) && PublishedOnce(s, publishes)
  }

  /** Registry and log operations leave configuration alone and only advance the counters. */
  ghost predicate LeavesConfig(s: Store, s': Store) {
    && s'.drafts == s.drafts && s'.releases == s.releases && s'.idempotency == s.idempotency
    && s'.revision >= s.revision && s'.nextSequence >= s.nextSequence
  }

  lemma {:induction false} RegisterAllLeavesConfig(s: Store, cs: seq<RegisterCommand>)
    ensures LeavesConfig(s, RegisterAll(s, cs).0)
  {
    if cs != [] {
      RegisterAllLeavesConfig(s, cs[..|cs| - 1]);
    }
  }

  lemma {:induction false} DeregisterAllLeavesConfig(s: Store, ns: string, env: string, svc: string,
                                                     ids: seq<string>, now: U64)
    ensures LeavesConfig(s, DeregisterAll(s, ns, env, svc, ids, now).store)
  {
    if ids != [] {
      DeregisterAllLeavesConfig(s, ns, env, svc, ids[..|ids| - 1], now);
    }
  }

  lemma {:induction false} RemoveAllLeavesConfig(s: Store, keys: seq<InstanceKey>)
    ensures LeavesConfig(s, RemoveAll(s, keys).0)
  {
    if keys != [] {
      RemoveAllLeavesConfig(s, keys[..|keys| - 1]);
    }
  }

  predicate ConfigOp(op: Op) {
    op.DoCreate? || op.DoPublish? || op.DoRollback?
  }

  lemma BatchesLeaveConfig(s: Store, op: Op)
    requires op.DoRegisterAll? || op.DoDeregisterAll? || op.DoExpire?
    ensures LeavesConfig(s, Apply(s, op))
  {
    match op
    case DoRegisterAll(cs) => RegisterAllLeavesConfig(s, cs);
    case DoDeregisterAll(ns, env, svc, ids, now) => DeregisterAllLeavesConfig(s, ns, env, svc, ids, now);
    case DoExpire(now, max) => RemoveAllLeavesConfig(s, if max == 0 then [] else Victims(s, now, max));
  }

  lemma RegisterLeavesConfig(s: Store, c: RegisterCommand)
    ensures LeavesConfig(s, Register(s, c).store)
  {
  }

  lemma RenewLeavesConfig(s: Store, c: RenewCommand)
    ensures LeavesConfig(s, Renew(s, c).store)
  {
  }

  lemma ReportLeavesConfig(s: Store, c: StatusCommand)
    ensures LeavesConfig(s, ReportStatus(s, c).store)
  {
  }

  lemma OtherOpsLeaveConfig(s: Store, op: Op)
    requires !ConfigOp(op)
    ensures LeavesConfig(s, Apply(s, op))
  {
    if op.DoRegisterAll? || op.DoDeregisterAll? || op.DoExpire? {
      BatchesLeaveConfig(s, op);
    } else if op.DoRegister? {
      RegisterLeavesConfig(s, op.register);
    } else if op.DoRenew? {
      RenewLeavesConfig(s, op.renew);
    } else if op.DoReport? {
      ReportLeavesConfig(s, op.report);
    }
  }

  lemma NextDraftIsNew(s: Store)
    requires DraftsOk(s)
    ensures Id("draft", s.nextSequence + 1) !in s.drafts
  {
    NextIdIsFresh("draft", s.nextSequence);
  }

  lemma NewDraftKeepsConfig(s: Store, publishes: seq<string>, s': Store, draft: ConfigDraft)
    requires ConfigInv(s, publishes) && draft.draftId !in s.drafts && !draft.published
    requires Issued("draft", draft.draftId, s'.nextSequence) && s'.nextSequence >= s.nextSequence
    requires s'.drafts == s.drafts[draft.draftId := draft] && s'.releases == s.releases && s'.revision == s.revision
    ensures ConfigInv(s', publishes)
  {
    assert draft.draftId !in publishes;
  }

  lemma CreateKeepsConfig(s: Store, publishes: seq<string>, c: CreateDraftCommand)
    requires ConfigInv(s, publishes)
    ensures ConfigInv(CreateDraft(s, c).store, publishes)
  {
    var s' := CreateDraft(s, c).store;
    if s' != s {
      assert Id("draft", s.nextSequence + 1) !in s.drafts && Issued("draft", Id("draft", s.nextSequence + 1), s.nextSequence + 1) by {
        NextDraftIsNew(s);
        NextIdIsFresh("draft", s.nextSequence);
      }
      NewDraftKeepsConfig(s, publishes, s', CreateDraft(s, c).outcome.value);
    }
  }

  /** Adding one release made from a stored draft that ends up published. */
  lemma AddReleaseKeepsReleases(s: Store, s': Store, r: ConfigRelease)
    requires ReleasesOk(s)
    requires s'.releases == s.releases + [r] && s'.revision == s.revision + 1 == r.revision
    requires s'.nextSequence == s.nextSequence + 1 && r.releaseId == Id("release", s.nextSequence + 1)
    ensures ReleasesOk(s')
  {
    NextIdIsFresh("release", s.nextSequence);
  }

  lemma PublishKeepsConfig(s: Store, publishes: seq<string>, c: PublishCommand)
    requires ConfigInv(s, publishes)
    ensures var s' := Publish(s, c).store;
            ConfigInv(s', if |s'.releases| > |s.releases| then publishes + [c.draftId] else publishes)
  {
    var s' := Publish(s, c).store;
    if |s'.releases| > |s.releases| {
      AddReleaseKeepsReleases(s, s', s'.releases[|s.releases|]);
      assert c.draftId !in publishes;
      assert c.draftId in publishes + [c.draftId];
    }
  }

  /** Adding a release of a published draft's content, with no draft touched. */
  lemma RepeatedReleaseKeepsConfig(s: Store, publishes: seq<string>, s': Store, r: ConfigRelease)
    requires ConfigInv(s, publishes)
    requires s'.releases == s.releases + [r] && s'.revision == s.revision + 1 == r.revision && s'.drafts == s.drafts
    requires s'.nextSequence == s.nextSequence + 1 && r.releaseId == Id("release", s.nextSequence + 1)
    requires r.draftId in s.drafts && s.drafts[r.draftId].content == r.content && s.drafts[r.draftId].published
    ensures ConfigInv(s', publishes)
  {
    assert ReleasesOk(s') by { AddReleaseKeepsReleases(s, s', r); }
  }

  lemma RollbackKeepsConfig(s: Store, publishes: seq<string>, c: RollbackCommand)
    requires ConfigInv(s, publishes)
    ensures ConfigInv(Rollback(s, c).store, publishes)
  {
    var s' := Rollback(s, c).store;
    if |s'.releases| > |s.releases| {
      var source := FindRelease(s.releases, c.sourceReleaseId).value;
      var i :| 0 <= i < |s.releases| && s.releases[i] == source;
      RepeatedReleaseKeepsConfig(s, publishes, s', s'.releases[|s.releases|]);
    } else {
      assert s' == s;
    }
  }

  lemma LeavingConfigKeepsInv(s: Store, publishes: seq<string>, s': Store)
    requires ConfigInv(s, publishes) && LeavesConfig(s, s')
    ensures ConfigInv(s', publishes)
  {
  }

  lemma PublishNext(w: World, c: PublishCommand)
    ensures var s' := Publish(w.store, c).store;
            && Next(w, DoPublish(c)).store == s'
            && Next(w, DoPublish(c)).publishes == if |s'.releases| > |w.store.releases| then w.publishes + [c.draftId] else w.publishes
  {
  }

  lemma OtherConfigStep(w: World, op: Op)
    requires op.DoCreate? || op.DoRollback?
    ensures Next(w, op).publishes == w.publishes
    ensures Next(w, op).store == if op.DoCreate? then CreateDraft(w.store, op.create).store else Rollback(w.store, op.rollback).store
  {
  }

  lemma ConfigStepKeepsConfigInv(w: World, op: Op)
    requires ConfigInv(w.store, w.publishes) && ConfigOp(op)
    ensures ConfigInv(Next(w, op).store, Next(w, op).publishes)
  {
    if op.DoPublish? {
      PublishNext(w, op.publish);
      PublishKeepsConfig(w.store, w.publishes, op.publish);
    } else {
      OtherConfigStep(w, op);
      if op.DoCreate? {
        CreateKeepsConfig(w.store, w.publishes, op.create);
      } else {
        RollbackKeepsConfig(w.store, w.publishes, op.rollback);
      }
    }
  }

  lemma StepKeepsConfigInv(w: World, op: Op)
    requires ConfigInv(w.store, w.publishes)
    ensures ConfigInv(Next(w, op).store, Next(w, op).publishes)
  {
    if ConfigOp(op) {
      ConfigStepKeepsConfigInv(w, op);
    } else {
      OtherOpsLeaveConfig(w.store, op);
      LeavingConfigKeepsInv(w.store, w.publishes, Apply(w.store, op));
    }
  }

  lemma {:induction false} EveryRunKeepsConfigInv(ops: seq<Op>)
    ensures ConfigInv(Exec(ops).store, Exec(ops).publishes)
  {
    if ops != [] {
      EveryRunKeepsConfigInv(ops[..|ops| - 1]);
      StepKeepsConfigInv(Exec(ops[..|ops| - 1]), ops[|ops| - 1]);
    }
  }

  /** One state follows another: releases grow only at the end, drafts keep their content and records their value. */
  ghost predicate Preserves(s: Store, s': Store) {
    && s.releases <= s'.releases
    && (forall d :: d in s.drafts ==>
          d in s'.drafts && s'.drafts[d].content == s.drafts[d].content && (s.drafts[d].published ==> s'.drafts[d].published))
    && (forall k :: k in s.idempotency ==> k in s'.idempotency && s'.idempotency[k] == s.idempotency[k])
  }

  lemma PreservesIsTransitive(a: Store, b: Store, c: Store)
    requires Preserves(a, b) && Preserves(b, c)
    ensures Preserves(a, c)
  {
  }

  lemma CreatePreserves(s: Store, c: CreateDraftCommand)
    requires Id("draft", s.nextSequence + 1) !in s.drafts
    ensures Preserves(s, CreateDraft(s, c).store)
  {
  }

  lemma PublishPreserves(s: Store, c: PublishCommand)
    ensures Preserves(s, Publish(s, c).store)
  {
  }

  lemma RollbackPreserves(s: Store, c: RollbackCommand)
    ensures Preserves(s, Rollback(s, c).store)
  {
  }

  lemma StepPreserves(s: Store, op: Op)
    requires DraftsOk(s)
    ensures Preserves(s, Apply(s, op))
  {
    if !ConfigOp(op) {
      OtherOpsLeaveConfig(s, op);
    } else {
      match op
      case DoCreate(c) => NextDraftIsNew(s); CreatePreserves(s, c);
      case DoPublish(c) => PublishPreserves(s, c);
      case DoRollback(c) => RollbackPreserves(s, c);
    }
  }

  lemma RunStepPreserves(ops: seq<Op>, i: nat)
    requires i < |ops|
    ensures Preserves(Exec(ops[..i]).store, Exec(ops[..i + 1]).store)
  {
    EveryRunKeepsConfigInv(ops[..i]);
    ExecStep(ops, i);
    StepPreserves(Exec(ops[..i]).store, ops[i]);
  }

  lemma {:induction false} ChainsPreserve(states: seq<Store>, i: nat, j: nat)
    requires i <= j < |states| && forall k :: 0 < k < |states| ==> Preserves(states[k - 1], states[k])
    ensures Preserves(states[i], states[j])
  {
    if i < j {
      ChainsPreserve(states, i, j - 1);
      PreservesIsTransitive(states[i], states[j - 1], states[j]);
    }
  }

  /** From any point of a run to any later one. */
  lemma RunsPreserve(ops: seq<Op>, i: nat, j: nat)
    requires i <= j <= |ops|
    ensures Preserves(Exec(ops[..i]).store, Exec(ops[..j]).store)
  {
    var states := seq(|ops| + 1, k requires 0 <= k <= |ops| => Exec(ops[..k]).store);
    forall k | 0 < k < |states| ensures Preserves(states[k - 1], states[k]) {
      RunStepPreserves(ops, k - 1);
    }
    ChainsPreserve(states, i, j);
  }

  // ---------- idempotency ----------

  const CreateOperation := "discovery.config.drafts.create"
  const PublishOperation := "discovery.config.releases.publish"
  const RollbackOperation := "discovery.config.releases.rollback"

  function ContextOf(op: Op): Option<IdempotencyContext>
    requires ConfigOp(op)
  {
    match op
    case DoCreate(c) => c.idempotency
    case DoPublish(c) => c.idempotency
    case DoRollback(c) => c.idempotency
  }

  predicate ValidOp(op: Op)
    requires ConfigOp(op)
  {
    match op
    case DoCreate(c) => ValidCreate(c)
    case DoPublish(c) => ValidPublish(c)
    case DoRollback(c) => ValidRollback(c)
  }

  function OperationOf(op: Op): string
    requires ConfigOp(op)
  {
    match op
    case DoCreate(_) => CreateOperation
    case DoPublish(_) => PublishOperation
    case DoRollback(_) => RollbackOperation
  }

  /** The service layer stamps each kind of request with its own operation id. */
  ghost predicate Stamped(op: Op) {
    ConfigOp(op) && ContextOf(op).Some? ==> ContextOf(op).value.operationId == OperationOf(op)
  }

  /** The id the call answered with, or its error. */
  function Answer(s: Store, op: Op): Result<string, DiscoveryError>
    requires ConfigOp(op)
  {
    match op
    case DoCreate(c) =>
      var r := CreateDraft(s, c).outcome;
      if r.Ok? then Ok(r.value.draftId) else Err(r.error)
    case DoPublish(c) =>
      var r := Publish(s, c).outcome;
      if r.Ok? then Ok(r.value.releaseId) else Err(r.error)
    case DoRollback(c) =>
      var r := Rollback(s, c).outcome;
      if r.Ok? then Ok(r.value.releaseId) else Err(r.error)
  }

  /** The call added a draft or a release. */
  ghost predicate Creates(s: Store, op: Op)
    requires ConfigOp(op)
  {
    |Apply(s, op).drafts.Keys| > |s.drafts.Keys| || |Apply(s, op).releases| > |s.releases|
  }

  ghost predicate RecordOk(s: Store, k: IdempotencyKey, id: string) {
    && (k.operationId == CreateOperation ==> id in s.drafts)
    && (k.operationId in {PublishOperation, RollbackOperation} ==> FindRelease(s.releases, id).Some?)
  }

  /** Records point at what they made. */
  ghost predicate RecordsOk(s: Store) {
    forall k :: k in s.idempotency ==> RecordOk(s, k, s.idempotency[k].resourceId)
  }

  lemma FindReleaseKeeps(releases: seq<ConfigRelease>, more: seq<ConfigRelease>, id: string)
    requires releases <= more && FindRelease(releases, id).Some?
    ensures FindRelease(more, id).Some?
  {
    var i :| 0 <= i < |releases| && releases[i] == FindRelease(releases, id).value;
    assert more[i].releaseId == id;
  }

  lemma OperationIdsDiffer()
    ensures CreateOperation != PublishOperation && CreateOperation != RollbackOperation && PublishOperation != RollbackOperation
  {
    assert CreateOperation[17] == 'd' && PublishOperation[17] == 'r' && RollbackOperation[17] == 'r';
    assert PublishOperation[26] == 'p' && RollbackOperation[26] == 'r';
  }

  lemma RecordsSurvive(s: Store, s': Store)
    requires RecordsOk(s) && Preserves(s, s') && s'.idempotency == s.idempotency
    ensures RecordsOk(s')
  {
    forall k | k in s.idempotency && k.operationId in {PublishOperation, RollbackOperation}
      ensures FindRelease(s'.releases, s.idempotency[k].resourceId).Some?
    {
      FindReleaseKeeps(s.releases, s'.releases, s.idempotency[k].resourceId);
    }
  }

  /** What a call that is neither refused nor replayed leaves behind. */
  lemma CreatedIsRecorded(s: Store, op: Op)
    requires ConfigOp(op) && Creates(s, op)
    ensures ContextOf(op).Some? ==> KeyOf(ContextOf(op).value) !in s.idempotency
    ensures Answer(s, op).Ok? && Apply(s, op).idempotency == Record(s.idempotency, ContextOf(op), Answer(s, op).value)
  {
    match op
    case DoCreate(c) =>
    case DoPublish(c) =>
    case DoRollback(c) =>
  }

  lemma CreatedIsStored(s: Store, op: Op)
    requires ConfigOp(op) && Creates(s, op) && Answer(s, op).Ok?
    ensures op.DoCreate? ==> Answer(s, op).value in Apply(s, op).drafts
    ensures !op.DoCreate? ==> FindRelease(Apply(s, op).releases, Answer(s, op).value).Some?
  {
    if !op.DoCreate? {
      var made := Apply(s, op).releases;
      assert made[|made| - 1].releaseId == Answer(s, op).value;
    }
  }

  lemma NewKeyGrows(m: map<string, ConfigDraft>, id: string, draft: ConfigDraft)
    requires id !in m
    ensures |m[id := draft].Keys| == |m.Keys| + 1
  {
    assert m[id := draft].Keys == m.Keys + {id};
  }

  /** A call that creates nothing changes nothing. */
  lemma NothingCreatedNothingChanged(s: Store, op: Op)
    requires ConfigOp(op) && !Creates(s, op)
    requires Id("draft", s.nextSequence + 1) !in s.drafts
    ensures Apply(s, op) == s
  {
    match op
    case DoCreate(c) =>
      NewKeyGrows(s.drafts, Id("draft", s.nextSequence + 1),
                  ConfigDraft(Id("draft", s.nextSequence + 1), c.content, c.createdBy, false));
    case DoPublish(c) =>
    case DoRollback(c) =>
  }

  lemma CreationIsRecordedWell(s: Store, op: Op)
    requires ConfigOp(op) && Creates(s, op) && ContextOf(op).Some? && Stamped(op)
    ensures Answer(s, op).Ok? && RecordOk(Apply(s, op), KeyOf(ContextOf(op).value), Answer(s, op).value)
  {
    CreatedIsRecorded(s, op);
    CreatedIsStored(s, op);
    OperationIdsDiffer();
  }

  lemma OneMoreRecord(s: Store, m: map<IdempotencyKey, IdempotencyRecord>, k: IdempotencyKey, record: IdempotencyRecord)
    requires RecordsOk(s.(idempotency := m)) && RecordOk(s, k, record.resourceId) && s.idempotency == m[k := record]
    ensures RecordsOk(s)
  {
    forall j | j in s.idempotency ensures RecordOk(s, j, s.idempotency[j].resourceId) {
      assert j in m ==> RecordOk(s.(idempotency := m), j, m[j].resourceId);
    }
  }

  lemma RecordsGrow(s: Store, s': Store, c: Option<IdempotencyContext>, id: string)
    requires RecordsOk(s) && Preserves(s, s') && s'.idempotency == Record(s.idempotency, c, id)
    requires c.Some? ==> RecordOk(s', KeyOf(c.value), id)
    ensures RecordsOk(s')
  {
    assert RecordsOk(s'.(idempotency := s.idempotency)) by { RecordsSurvive(s, s'.(idempotency := s.idempotency)); }
    if c.Some? {
      OneMoreRecord(s', s.idempotency, KeyOf(c.value), IdempotencyRecord(c.value.requestHash, id));
    }
  }

  lemma StepKeepsRecords(s: Store, op: Op)
    requires RecordsOk(s) && DraftsOk(s) && Stamped(op)
    ensures RecordsOk(Apply(s, op))
  {
    if !ConfigOp(op) {
      OtherOpsLeaveConfig(s, op);
      RecordsSurvive(s, Apply(s, op));
    } else if !Creates(s, op) {
      NextDraftIsNew(s);
      NothingCreatedNothingChanged(s, op);
    } else {
      StepPreserves(s, op);
      CreatedIsRecorded(s, op);
      if ContextOf(op).Some? {
        CreationIsRecordedWell(s, op);
      }
      RecordsGrow(s, Apply(s, op), ContextOf(op), Answer(s, op).value);
    }
  }

  lemma {:induction false} StampedRunsKeepRecords(ops: seq<Op>)
    requires forall i :: 0 <= i < |ops| ==> Stamped(ops[i])
    ensures RecordsOk(Exec(ops).store)
  {
    if ops != [] {
      var n := |ops| - 1;
      StampedRunsKeepRecords(ops[..n]);
      EveryRunKeepsConfigInv(ops[..n]);
      StepKeepsRecords(Exec(ops[..n]).store, ops[n]);
    }
  }

  /** A valid retry of a recorded request changes nothing: the same hash gets the same id, another is rejected. */
  lemma RetryReplays(s: Store, op: Op)
    requires ConfigOp(op) && ValidOp(op) && Stamped(op) && RecordsOk(s) && DraftsOk(s)
    requires ContextOf(op).Some? && KeyOf(ContextOf(op).value) in s.idempotency
    ensures Apply(s, op) == s && !Creates(s, op)
    ensures var record := s.idempotency[KeyOf(ContextOf(op).value)];
            Answer(s, op) == if record.requestHash == ContextOf(op).value.requestHash
                             then Ok(record.resourceId) else Err(InvalidArgument)
  {
    var k := KeyOf(ContextOf(op).value);
    OperationIdsDiffer();
    assert op.DoCreate? ==> s.idempotency[k].resourceId in s.drafts;
    assert !op.DoCreate? ==> FindRelease(s.releases, s.idempotency[k].resourceId).Some?;
  }

  lemma RecordStays(ops: seq<Op>, i: nat, j: nat)
    requires i < j <= |ops| && ConfigOp(ops[i]) && ContextOf(ops[i]).Some? && Creates(Exec(ops[..i]).store, ops[i])
    ensures Answer(Exec(ops[..i]).store, ops[i]).Ok?
    ensures var c := ContextOf(ops[i]).value;
            var records := Exec(ops[..j]).store.idempotency;
            && KeyOf(c) in records
            && records[KeyOf(c)] == IdempotencyRecord(c.requestHash, Answer(Exec(ops[..i]).store, ops[i]).value)
  {
    CreatedIsRecorded(Exec(ops[..i]).store, ops[i]);
    ExecStep(ops, i);
    RunsPreserve(ops, i + 1, j);
  }

  /** Over a whole run each (operation, key) pair makes at most one resource, and every valid retry of it, however
      late, is answered with that resource's id or rejected for a different request, without any change. */
  lemma OneResourcePerKey(ops: seq<Op>, i: nat, j: nat)
    requires forall n :: 0 <= n < |ops| ==> Stamped(ops[n])
    requires i < j < |ops| && ConfigOp(ops[i]) && ConfigOp(ops[j]) && ValidOp(ops[j])
    requires ContextOf(ops[i]).Some? && ContextOf(ops[j]).Some?
    requires KeyOf(ContextOf(ops[i]).value) == KeyOf(ContextOf(ops[j]).value)
    requires Creates(Exec(ops[..i]).store, ops[i])
    ensures var s := Exec(ops[..j]).store;
            && !Creates(s, ops[j]) && Apply(s, ops[j]) == s
            && Answer(s, ops[j]) == if ContextOf(ops[i]).value.requestHash == ContextOf(ops[j]).value.requestHash
                                    then Answer(Exec(ops[..i]).store, ops[i]) else Err(InvalidArgument)
  {
    RecordStays(ops, i, j);
    EveryRunKeepsConfigInv(ops[..j]);
    StampedRunsKeepRecords(ops[..j]);
    RetryReplays(Exec(ops[..j]).store, ops[j]);
  }

  lemma AnswerIsNeverMissing(s: Store, op: Op)
    requires ConfigOp(op) && Stamped(op) && RecordsOk(s) && DraftsOk(s)
    ensures Answer(s, op) != Err(InvalidConfig)
  {
    if ValidOp(op) && ContextOf(op).Some? && KeyOf(ContextOf(op).value) in s.idempotency {
      RetryReplays(s, op);
    } else if ValidOp(op) {
      assert RecordFor(s, ContextOf(op)) == Ok(None);
    }
  }

  /** The "idempotency target is missing" branches are dead in every stamped run. */
  lemma TargetsAreNeverMissing(ops: seq<Op>, op: Op)
    requires forall n :: 0 <= n < |ops| ==> Stamped(ops[n])
    requires ConfigOp(op) && Stamped(op)
    ensures Answer(Exec(ops).store, op) != Err(InvalidConfig)
  {
    StampedRunsKeepRecords(ops);
    EveryRunKeepsConfigInv(ops);
    AnswerIsNeverMissing(Exec(ops).store, op);
  }

  // ---------- shared operation ids ----------

  /** Create looks records up among the drafts, publish and rollback among the releases. */
  predicate SameFamily(a: Op, b: Op) {
    a.DoCreate? <==> b.DoCreate?
  }

  lemma DraftIdsAreNoReleaseIds(s: Store, id: string)
    requires ReleasesOk(s) && DraftsOk(s) && id in s.drafts
    ensures FindRelease(s.releases, id).None?
  {
    forall i | 0 <= i < |s.releases| ensures s.releases[i].releaseId != id {
      var n: nat, m: nat :| s.releases[i].releaseId == Id("release", n) && id == Id("draft", m);
      assert Id("draft", m)[0] == 'd' && Id("release", n)[0] == 'r';
    }
  }

  /** What a creation made is still found, by its own family and not by the other, at any later point of a run. */
  lemma MadeIsFoundByFamily(ops: seq<Op>, i: nat, j: nat)
    requires i < j <= |ops| && ConfigOp(ops[i]) && Creates(Exec(ops[..i]).store, ops[i])
    ensures var answer, s := Answer(Exec(ops[..i]).store, ops[i]), Exec(ops[..j]).store;
            && answer.Ok?
            && (ops[i].DoCreate? <==> answer.value in s.drafts)
            && (ops[i].DoCreate? <==> FindRelease(s.releases, answer.value).None?)
  {
    var before, s := Exec(ops[..i]).store, Exec(ops[..j]).store;
    CreatedIsRecorded(before, ops[i]);
    CreatedIsStored(before, ops[i]);
    ExecStep(ops, i);
    RunsPreserve(ops, i + 1, j);
    EveryRunKeepsConfigInv(ops[..j]);
    var id := Answer(before, ops[i]).value;
    if !ops[i].DoCreate? {
      FindReleaseKeeps(Exec(ops[..i + 1]).store.releases, s.releases, id);
    }
    if id in s.drafts {
      DraftIdsAreNoReleaseIds(s, id);
    }
  }

  /** A valid retry of a recorded request, whatever operation id it carries. */
  lemma RetryByFamily(s: Store, op: Op)
    requires ConfigOp(op) && ValidOp(op) && DraftsOk(s)
    requires ContextOf(op).Some? && KeyOf(ContextOf(op).value) in s.idempotency
    ensures Apply(s, op) == s && !Creates(s, op)
    ensures var record := s.idempotency[KeyOf(ContextOf(op).value)];
            var found := if op.DoCreate? then record.resourceId in s.drafts
                         else FindRelease(s.releases, record.resourceId).Some?;
            Answer(s, op) == if record.requestHash != ContextOf(op).value.requestHash then Err(InvalidArgument)
                             else if found then Ok(record.resourceId) else Err(InvalidConfig)
  {
  }

  /** Without distinct operation ids, over any run: a valid retry of a recorded request with the same hash changes
      nothing, and fails with the missing-target error if and only if the record was made by the other family. */
  lemma TargetIsMissingIff(ops: seq<Op>, i: nat, j: nat)
    requires i < j < |ops| && ConfigOp(ops[i]) && ConfigOp(ops[j]) && ValidOp(ops[j])
    requires ContextOf(ops[i]).Some? && ContextOf(ops[j]) == ContextOf(ops[i])
    requires Creates(Exec(ops[..i]).store, ops[i])
    ensures var s := Exec(ops[..j]).store;
            && !Creates(s, ops[j]) && Apply(s, ops[j]) == s
            && (Answer(s, ops[j]) == Err(InvalidConfig) <==> !SameFamily(ops[i], ops[j]))
            && (SameFamily(ops[i], ops[j]) ==> Answer(s, ops[j]) == Answer(Exec(ops[..i]).store, ops[i]))
  {
    RecordStays(ops, i, j);
    MadeIsFoundByFamily(ops, i, j);
    EveryRunKeepsConfigInv(ops[..j]);
    RetryByFamily(Exec(ops[..j]).store, ops[j]);
  }
}
