/** What each configuration call means: what it stores, where every draft and release of a run came from, and what a
    rollback gives back to readers. */
module ConfigEffects {
  import opened Base
  import opened Types
  import opened Configs
  import opened Runs
  import opened ConfigRuns
  import opened EffectiveConfigs

  /** The request carries no context, or one that has no record yet. */
  predicate Unrecorded(s: Store, context: Option<IdempotencyContext>) {
    context.None? || IdempotencyKey(context.value.operationId, context.value.key) !in s.idempotency
  }

  predicate ContextInFull(context: Option<IdempotencyContext>) {
    context.None? || (!Blank(context.value.operationId) && !Blank(context.value.key) && !Blank(context.value.requestHash))
  }

  predicate ScopeInFull(scope: ConfigScope) {
    scope.Namespace? || (!Blank(scope.application) && (scope.Service? ==> !Blank(scope.service)))
  }

  // ---------- what is stored ----------

  /** A creation that is not a retry succeeds exactly when every field is given, and then stores and answers an
      unpublished draft with the commanded content and author under the next id, and nothing else. */
  lemma CreationStoresItsCommand(s: Store, c: CreateDraftCommand)
    requires Unrecorded(s, c.idempotency)
    ensures var step, id := CreateDraft(s, c), Id("draft", s.nextSequence + 1);
            var given := !Blank(c.content.namespace) && !Blank(c.content.environment) && !Blank(c.content.group)
                         && !Blank(c.content.key) && !Blank(c.createdBy) && ScopeInFull(c.content.scope)
                         && ContextInFull(c.idempotency);
            && (!given ==> step == Step(s, Err(InvalidArgument)))
            && (given ==>
                  && step.outcome.Ok? && step.outcome.value.draftId == id && !step.outcome.value.published
                  && step.outcome.value.content == c.content && step.outcome.value.createdBy == c.createdBy
                  && step.store.drafts == s.drafts[id := step.outcome.value]
                  && step.store.(drafts := s.drafts, nextSequence := s.nextSequence, idempotency := s.idempotency) == s)
  {
  }

  /** The release repeats the draft as it stood, under the publisher's name and time. */
  predicate Publishes(s: Store, c: PublishCommand, r: ConfigRelease) {
    && c.draftId in s.drafts && !s.drafts[c.draftId].published
    && r.draftId == c.draftId && r.content == s.drafts[c.draftId].content
    && r.publishedBy == c.publishedBy && r.publishedAt == c.now
  }

  /** The release repeats release `i`, the first with the id named, under the name and time of the rollback. */
  predicate Repeats(s: Store, c: RollbackCommand, i: nat, r: ConfigRelease) {
    && i < |s.releases| && s.releases[i].releaseId == c.sourceReleaseId
    && (forall j :: 0 <= j < i ==> s.releases[j].releaseId != c.sourceReleaseId)
    && r.draftId == s.releases[i].draftId && r.content == s.releases[i].content
    && r.publishedBy == c.rolledBackBy && r.publishedAt == c.now
  }

  /** The next release in line, with its number and revision. */
  predicate Appends(s: Store, s': Store, r: ConfigRelease) {
    && r.releaseId == Id("release", s.nextSequence + 1) && r.revision == s.revision + 1
    && s'.releases == s.releases + [r] && s'.revision == s.revision + 1 && s'.nextSequence == s.nextSequence + 1
    && s'.instances == s.instances && s'.leaseIndex == s.leaseIndex
  }

  /** A publish that is not a retry succeeds exactly when its fields are given and it names a draft not yet published;
      then the draft's content is released and that draft alone is marked. */
  lemma PublishReleasesItsDraft(s: Store, c: PublishCommand)
    requires DraftsOk(s) && Unrecorded(s, c.idempotency)
    ensures var step := Publish(s, c);
            var given := !Blank(c.draftId) && !Blank(c.publishedBy) && ContextInFull(c.idempotency);
            && (!given ==> step == Step(s, Err(InvalidArgument)))
            && (given && c.draftId !in s.drafts ==> step == Step(s, Err(NotFound)))
            && (given && c.draftId in s.drafts && s.drafts[c.draftId].published ==> step == Step(s, Err(AlreadyPublished)))
            && (given && c.draftId in s.drafts && !s.drafts[c.draftId].published ==>
                  && step.outcome.Ok? && Publishes(s, c, step.outcome.value) && Appends(s, step.store, step.outcome.value)
                  && step.store.drafts == s.drafts[c.draftId := s.drafts[c.draftId].(published := true)])
  {
  }

  /** A rollback that is not a retry succeeds exactly when its fields are given and it names a stored release; then the
      first release with that id is released again, and no draft changes. */
  lemma RollbackRepeatsItsSource(s: Store, c: RollbackCommand, i: nat)
    requires Unrecorded(s, c.idempotency) && i <= |s.releases|
    requires forall j :: 0 <= j < i ==> s.releases[j].releaseId != c.sourceReleaseId
    requires i < |s.releases| ==> s.releases[i].releaseId == c.sourceReleaseId
    ensures var step := Rollback(s, c);
            var given := !Blank(c.sourceReleaseId) && !Blank(c.rolledBackBy) && ContextInFull(c.idempotency);
            && (!given ==> step == Step(s, Err(InvalidArgument)))
            && (given && i == |s.releases| ==> step == Step(s, Err(NotFound)))
            && (given && i < |s.releases| ==>
                  && step.outcome.Ok? && Repeats(s, c, i, step.outcome.value)
                  && Appends(s, step.store, step.outcome.value) && step.store.drafts == s.drafts)
  {
    if i < |s.releases| {
      FindReleaseIsFirst(s.releases, c.sourceReleaseId, i);
    }
  }

  /** A configuration read is refused exactly when a name is missing. */
  lemma ConfigReadNeedsNames(q: ConfigQuery, releases: seq<ConfigRelease>)
    ensures Effective(q, releases).Err? <==>
            Blank(q.namespace) || Blank(q.environment) || Blank(q.application) || Blank(q.service) || Blank(q.group)
  {
  }

  // ---------- where everything came from ----------

  /** The operation, in that state, made the release. */
  ghost predicate MadeRelease(s: Store, op: Op, r: ConfigRelease) {
    match op
    case DoPublish(c) => Publishes(s, c, r) && Appends(s, Apply(s, op), r)
    case DoRollback(c) => (exists i :: 0 <= i && Repeats(s, c, i, r)) && Appends(s, Apply(s, op), r)
    case _ => false
  }

  lemma PublishMadeIt(s: Store, c: PublishCommand)
    requires DraftsOk(s) && |Publish(s, c).store.releases| > |s.releases|
    ensures var s' := Publish(s, c).store; Publishes(s, c, s'.releases[|s.releases|]) && Appends(s, s', s'.releases[|s.releases|])
  {
    PublishReleasesItsDraft(s, c);
  }

  lemma RollbackMadeIt(s: Store, c: RollbackCommand) returns (i: nat)
    requires |Rollback(s, c).store.releases| > |s.releases|
    ensures var s' := Rollback(s, c).store;
            Repeats(s, c, i, s'.releases[|s.releases|]) && Appends(s, s', s'.releases[|s.releases|])
  {
    i := FirstWith(s.releases, c.sourceReleaseId);
    FindReleaseIsFirst(s.releases, c.sourceReleaseId, i);
    RollbackRepeatsItsSource(s, c, i);
  }

  lemma {:induction false} FirstWith(releases: seq<ConfigRelease>, id: string) returns (i: nat)
    requires FindRelease(releases, id).Some?
    ensures i < |releases| && releases[i].releaseId == id && forall j :: 0 <= j < i ==> releases[j].releaseId != id
  {
    if releases[0].releaseId == id {
      i := 0;
    } else {
      i := FirstWith(releases[1..], id);
      i := i + 1;
    }
  }

  lemma OneStepMakesOne(s: Store, op: Op)
    requires DraftsOk(s)
    ensures var s' := Apply(s, op);
            || s'.releases == s.releases
            || (|s'.releases| == |s.releases| + 1 && MadeRelease(s, op, s'.releases[|s.releases|]))
  {
    var s' := Apply(s, op);
    if !ConfigOp(op) {
      OtherOpsLeaveConfig(s, op);
    } else if !op.DoCreate? && s'.releases != s.releases {
      ReleaseAdded(s, op);
      match op
      case DoPublish(c) => PublishMadeIt(s, c);
      case DoRollback(c) => var i := RollbackMadeIt(s, c); assert Repeats(s, c, i, s'.releases[|s.releases|]);
    }
  }

  /** In every run every release was made by one publish or rollback of the run, of what that operation named at the
      time. */
  lemma {:induction false} ReleaseOrigin(ops: seq<Op>, n: nat) returns (j: nat)
    requires n < |Exec(ops).store.releases|
    ensures j < |ops| && |Exec(ops[..j]).store.releases| == n
    ensures MadeRelease(Exec(ops[..j]).store, ops[j], Exec(ops).store.releases[n])
  {
    var m := |ops| - 1;
    var before := Exec(ops[..m]).store;
    assert ops[..|ops|] == ops;
    RunStepPreserves(ops, m);
    if n < |before.releases| {
      j := ReleaseOrigin(ops[..m], n);
      assert ops[..m][..j] == ops[..j];
    } else {
      j := m;
      EveryRunKeepsConfigInv(ops[..m]);
      ExecStep(ops, m);
      OneStepMakesOne(before, ops[m]);
    }
  }

  lemma CreateMadeIt(s: Store, c: CreateDraftCommand, d: string)
    requires d in CreateDraft(s, c).store.drafts && d !in s.drafts
    ensures CreateDraft(s, c).store.drafts[d].content == c.content && CreateDraft(s, c).store.drafts[d].createdBy == c.createdBy
  {
  }

  lemma StepKeepsDraft(s: Store, op: Op, d: string)
    requires DraftsOk(s) && d in s.drafts
    ensures d in Apply(s, op).drafts
    ensures Apply(s, op).drafts[d].content == s.drafts[d].content && Apply(s, op).drafts[d].createdBy == s.drafts[d].createdBy
  {
    if !ConfigOp(op) {
      OtherOpsLeaveConfig(s, op);
    } else if op.DoCreate? {
      NextDraftIsNew(s);
    }
  }

  lemma OnlyCreateAddsDrafts(s: Store, op: Op, d: string)
    requires d in Apply(s, op).drafts && d !in s.drafts
    ensures op.DoCreate?
  {
    if !ConfigOp(op) {
      OtherOpsLeaveConfig(s, op);
    }
  }

  /** And every draft still has the content and author one creation of the run commanded. */
  lemma {:induction false} DraftOrigin(ops: seq<Op>, d: string) returns (j: nat)
    requires d in Exec(ops).store.drafts
    ensures j < |ops| && ops[j].DoCreate? && d !in Exec(ops[..j]).store.drafts
    ensures Exec(ops).store.drafts[d].content == ops[j].create.content
    ensures Exec(ops).store.drafts[d].createdBy == ops[j].create.createdBy
  {
    var m := |ops| - 1;
    var before := Exec(ops[..m]).store;
    EveryRunKeepsConfigInv(ops[..m]);
    if d in before.drafts {
      j := DraftOrigin(ops[..m], d);
      assert ops[..m][..j] == ops[..j];
      StepKeepsDraft(before, ops[m], d);
    } else {
      j := m;
      OnlyCreateAddsDrafts(before, ops[m], d);
      CreateMadeIt(before, ops[m].create, d);
    }
  }

  // ---------- what a rollback gives back ----------

  lemma OutrankedAlike(q: ConfigQuery, releases: seq<ConfigRelease>, a: ConfigRelease, b: ConfigRelease)
    requires a.content == b.content
    ensures Applies(q, a) == Applies(q, b) && Outranked(q, releases, a) == Outranked(q, releases, b)
  {
  }

  /** The reader sees the release's value and format again, if it applies and is not outranked, and otherwise, and for
      all other keys, what it saw. */
  ghost predicate GivesBack(q: ConfigQuery, source: ConfigRelease, releases: seq<ConfigRelease>, more: seq<ConfigRelease>) {
    var before, after, key := Fold(q, releases).values, Fold(q, more).values, source.content.key;
    if Applies(q, source) && !Outranked(q, releases, source) then
      && key in after && after[key].value == source.content.value && after[key].format == source.content.format
      && (forall k :: k != key ==> (k in after <==> k in before) && (k in before ==> after[k] == before[k]))
    else after == before
  }

  lemma RepeatingGivesBack(q: ConfigQuery, source: ConfigRelease, releases: seq<ConfigRelease>, r: ConfigRelease)
    requires r.content == source.content && forall o :: o in releases ==> o.revision < r.revision
    ensures GivesBack(q, source, releases, releases + [r])
  {
    OutrankedAlike(q, releases, source, r);
    NewReleaseChangesOnly(q, releases, r);
    if !Applies(q, r) || Outranked(q, releases, r) {
      assert Fold(q, releases + [r]).values == Fold(q, releases).values;
    }
  }

  /** In every run, a rollback that adds a release gives every reader back what the named release gave. */
  lemma RollbackRestores(ops: seq<Op>, c: RollbackCommand, i: nat, q: ConfigQuery)
    requires var s, s' := Exec(ops).store, Rollback(Exec(ops).store, c).store;
             && |s'.releases| > |s.releases| && i < |s.releases| && s.releases[i].releaseId == c.sourceReleaseId
    ensures var s := Exec(ops).store;
            GivesBack(q, s.releases[i], s.releases, Rollback(s, c).store.releases)
  {
    var s := Exec(ops).store;
    assert ReleasesOk(s) by { EveryRunKeepsConfigInv(ops); }
    SourceIsRepeated(s, c, i);
    RepeatingGivesBack(q, s.releases[i], s.releases, Rollback(s, c).store.releases[|s.releases|]);
  }

  lemma SourceIsRepeated(s: Store, c: RollbackCommand, i: nat)
    requires ReleasesOk(s) && |Rollback(s, c).store.releases| > |s.releases|
    requires i < |s.releases| && s.releases[i].releaseId == c.sourceReleaseId
    ensures var s' := Rollback(s, c).store;
            var r := s'.releases[|s.releases|];
            && s'.releases == s.releases + [r] && r.content == s.releases[i].content
            && forall o :: o in s.releases ==> o.revision < r.revision
  {
    var j := RollbackMadeIt(s, c);
    assert i == j;
  }
}
