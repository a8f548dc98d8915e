/** What each configuration operation of the store does, as a function of the store's value. */
module Configs {
  import opened Base
  import opened Types

  predicate ValidContext(c: Option<IdempotencyContext>) {
    c.Some? ==> c.value.Valid()
  }

  predicate ValidCreate(c: CreateDraftCommand) {
    && !Blank(c.content.namespace) && !Blank(c.content.environment) && !Blank(c.content.group)
    && !Blank(c.content.key) && !Blank(c.createdBy) && c.content.scope.Valid() && ValidContext(c.idempotency)
  }

  predicate ValidPublish(c: PublishCommand) {
    !Blank(c.draftId) && !Blank(c.publishedBy) && ValidContext(c.idempotency)
  }

  predicate ValidRollback(c: RollbackCommand) {
    !Blank(c.sourceReleaseId) && !Blank(c.rolledBackBy) && ValidContext(c.idempotency)
  }

  function KeyOf(c: IdempotencyContext): IdempotencyKey {
    IdempotencyKey(c.operationId, c.key)
  }

  /** The first release with the id. */
  function FindRelease(releases: seq<ConfigRelease>, id: string): (r: Option<ConfigRelease>)
    ensures r.Some? ==> r.value in releases && r.value.releaseId == id
    ensures r.None? ==> forall i :: 0 <= i < |releases| ==> releases[i].releaseId != id
  {
    if releases == [] then None
    else if releases[0].releaseId == id then Some(releases[0])
    else FindRelease(releases[1..], id)
  }

  /** The release found is the first with the id, and one is found whenever there is one. */
  lemma {:induction false} FindReleaseIsFirst(releases: seq<ConfigRelease>, id: string, i: nat)
    requires i < |releases| && releases[i].releaseId == id && forall j :: 0 <= j < i ==> releases[j].releaseId != id
    ensures FindRelease(releases, id) == Some(releases[i])
  {
    if i > 0 {
      assert releases[0].releaseId != id;
      FindReleaseIsFirst(releases[1..], id, i - 1);
    }
  }

  /** The record a retry finds: nothing, a mismatching hash, or the id made the first time. */
  function RecordFor(s: Store, c: Option<IdempotencyContext>): Result<Option<string>, DiscoveryError> {
    if c.None? || KeyOf(c.value) !in s.idempotency then Ok(None)
    else
      var record := s.idempotency[KeyOf(c.value)];
      if record.requestHash != c.value.requestHash then Err(InvalidArgument) else Ok(Some(record.resourceId))
  }

  function ReplayDraft(s: Store, c: Option<IdempotencyContext>): Result<Option<ConfigDraft>, DiscoveryError> {
    match RecordFor(s, c)
    case Err(e) => Err(e)
    case Ok(None) => Ok(None)
    case Ok(Some(id)) => if id in s.drafts then Ok(Some(s.drafts[id])) else Err(InvalidConfig)
  }

  function ReplayRelease(s: Store, c: Option<IdempotencyContext>): Result<Option<ConfigRelease>, DiscoveryError> {
    match RecordFor(s, c)
    case Err(e) => Err(e)
    case Ok(None) => Ok(None)
    case Ok(Some(id)) =>
      var found := FindRelease(s.releases, id);
      if found.Some? then Ok(found) else Err(InvalidConfig)
  }

  function Record(m: map<IdempotencyKey, IdempotencyRecord>, c: Option<IdempotencyContext>, id: string):
      map<IdempotencyKey, IdempotencyRecord>
  {
    if c.None? then m else m[KeyOf(c.value) := IdempotencyRecord(c.value.requestHash, id)]
  }

  function CreateDraft(s: Store, c: CreateDraftCommand): Step<ConfigDraft> {
    if !ValidCreate(c) then Step(s, Err(InvalidArgument))
    else
      match ReplayDraft(s, c.idempotency)
      case Err(e) => Step(s, Err(e))
      case Ok(Some(draft)) => Step(s, Ok(draft))
      case Ok(None) =>
        var id := Id("draft", s.nextSequence + 1);
        var draft := ConfigDraft(id, c.content, c.createdBy, false);
        Step(s.(nextSequence := s.nextSequence + 1,
                drafts := s.drafts[id := draft],
                idempotency := Record(s.idempotency, c.idempotency, id)),
             Ok(draft))
  }

  function ReleaseEvent(r: ConfigRelease, kind: EventKind): Event {
    Event(r.revision, r.content.namespace, r.content.environment, kind, r.releaseId,
          r.content.scope.OwningService(), Some(r.content.group), Some(r.content.key),
          r.content.scope.OwningApplication())
  }

  /** The shared tail of publish and rollback: a new release of the given content. */
  function NewRelease(s: Store, draftId: string, content: ConfigContent, author: string, now: U64): ConfigRelease {
    ConfigRelease(Id("release", s.nextSequence + 1), draftId, content, author, now, s.revision + 1)
  }

  function AddRelease(s: Store, r: ConfigRelease, kind: EventKind, c: Option<IdempotencyContext>): Store {
    s.(revision := s.revision + 1,
       nextSequence := s.nextSequence + 1,
       releases := s.releases + [r],
       events := s.events + [ReleaseEvent(r, kind)],
       idempotency := Record(s.idempotency, c, r.releaseId))
  }

  function Publish(s: Store, c: PublishCommand): Step<ConfigRelease> {
    if !ValidPublish(c) then Step(s, Err(InvalidArgument))
    else
      match ReplayRelease(s, c.idempotency)
      case Err(e) => Step(s, Err(e))
      case Ok(Some(release)) => Step(s, Ok(release))
      case Ok(None) =>
        if c.draftId !in s.drafts then Step(s, Err(NotFound))
        else if s.drafts[c.draftId].published then Step(s, Err(AlreadyPublished))
        else
          var draft := s.drafts[c.draftId];
          var release := NewRelease(s, draft.draftId, draft.content, c.publishedBy, c.now);
          Step(AddRelease(s, release, ConfigPublished, c.idempotency)
               .(drafts := s.drafts[c.draftId := draft.(published := true)]),
               Ok(release))
  }

  function Rollback(s: Store, c: RollbackCommand): Step<ConfigRelease> {
    if !ValidRollback(c) then Step(s, Err(InvalidArgument))
    else
      match ReplayRelease(s, c.idempotency)
      case Err(e) => Step(s, Err(e))
      case Ok(Some(release)) => Step(s, Ok(release))
      case Ok(None) =>
        match FindRelease(s.releases, c.sourceReleaseId)
        case None => Step(s, Err(NotFound))
        case Some(source) =>
          var release := NewRelease(s, source.draftId, source.content, c.rolledBackBy, c.now);
          Step(AddRelease(s, release, ConfigRolledBack, c.idempotency), Ok(release))
  }
}
