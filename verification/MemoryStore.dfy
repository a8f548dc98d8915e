/** The in-memory store itself: each method works on its fields in place, as the source does, and is proved to do
    what the operation's function says. */
module MemoryStore {
  import opened Base
  import opened Types
  import opened Sorting
  import opened Registry
  import opened Configs
  import opened EventLog
  import opened EffectiveConfigs
  import opened Pagination
  import opened Discovery
  import opened ServiceList
  import opened Runs
  import Compaction
  import Expiry

  class MemoryDiscoveryStore {
    var revision: nat
    var nextSequence: nat
    var instances: map<InstanceKey, Instance>
    var leaseIndex: map<string, InstanceKey>
    var drafts: map<string, ConfigDraft>
    var releases: seq<ConfigRelease>
    var events: seq<Event>
    var idempotency: map<IdempotencyKey, IdempotencyRecord>

    function State(): Store
      reads this
    {
      Store(revision, nextSequence, instances, leaseIndex, drafts, releases, events, idempotency)
    }

    /** Every instance is stored under its own key. */
    ghost predicate Valid()
      reads this
    {
      Keyed(State())
    }

    constructor ()
      ensures State() == EmptyStore && Valid()
    {
      revision, nextSequence := 0, 0;
      instances, leaseIndex, drafts, idempotency := map[], map[], map[], map[];
      releases, events := [], [];
    }

    method NextRevision() returns (r: nat)
      modifies this`revision
      ensures r == revision == old(revision) + 1
    {
      revision := revision + 1;
      r := revision;
    }

    method NextId(prefix: string) returns (id: string)
      modifies this`nextSequence
      ensures nextSequence == old(nextSequence) + 1 && id == Id(prefix, nextSequence)
    {
      nextSequence := nextSequence + 1;
      id := Id(prefix, nextSequence);
    }

    // ---------- registry ----------

    method RegisterInstance(c: RegisterCommand) returns (r: Result<LeaseReceipt, DiscoveryError>)
      requires Valid()
      modifies this
      ensures Valid()
      ensures State() == Register(old(State()), c).store && r == Register(old(State()), c).outcome
    {
      if !c.key.Valid() || !c.profile.Valid() {
        return Err(InvalidArgument);
      }
      if c.ttlSeconds == 0 {
        return Err(InvalidArgument);
      }
      if c.expectedRevision.Some? {
        if c.key in instances {
          if instances[c.key].revision != c.expectedRevision.value {
            return Err(Conflict);
          }
        }
      }
      var wasUpdate, leaseId, newRevision := TakeNumbersFor(c);
      var expiresAt := U64_MAX;
      if !c.persistent {
        var expiry := LeaseExpiry(c.now, c.ttlSeconds);
        if expiry.Err? {
          return Err(expiry.error);
        }
        expiresAt := expiry.value;
      }
      var instance := Instance(c.key, c.profile, c.status, leaseId, expiresAt, newRevision, HealthState(0, 0, 0));
      Place(instance, if wasUpdate then InstanceUpdated else InstanceRegistered);
      return Ok(LeaseReceipt(leaseId, c.key, newRevision, expiresAt));
    }

    /** The live lease or the next id, and the next revision. */
    method TakeNumbersFor(c: RegisterCommand) returns (wasUpdate: bool, leaseId: string, newRevision: nat)
      modifies this`nextSequence, this`revision
      ensures State() == TakeNumbers(old(State()), c)
      ensures wasUpdate == Holds(old(State()), c.key, c.now) && leaseId == LeaseFor(old(State()), c) && newRevision == revision
    {
      wasUpdate := c.key in instances && instances[c.key].expiresAt > c.now;
      if wasUpdate {
        leaseId := instances[c.key].leaseId;
      } else {
        leaseId := NextId("lease");
      }
      newRevision := NextRevision();
    }

    /** Puts the instance in, points its lease at it and logs the event. */
    method Place(instance: Instance, kind: EventKind)
      modifies this`leaseIndex, this`instances, this`events
      ensures leaseIndex ==
                DropSupersededLease(old(State()), instance.key, instance.leaseId)[instance.leaseId := instance.key]
      ensures instances == old(instances)[instance.key := instance]
      ensures events == old(events) + [InstanceEvent(instance.key, kind, instance.revision)]
    {
      if instance.key in instances {
        if instances[instance.key].leaseId != instance.leaseId {
          leaseIndex := leaseIndex - {instances[instance.key].leaseId};
        }
      }
      leaseIndex := leaseIndex[instance.leaseId := instance.key];
      instances := instances[instance.key := instance];
      events := events + [InstanceEvent(instance.key, kind, instance.revision)];
    }

    method BatchRegisterInstances(commands: seq<RegisterCommand>) returns (r: BatchReceipt)
      requires Valid()
      modifies this
      ensures Valid()
      ensures RegisterAll(old(State()), commands) == (State(), r)
    {
      r := BatchReceipt([], []);
      for i := 0 to |commands|
        invariant Valid()
        invariant RegisterAll(old(State()), commands[..i]) == (State(), r)
      {
        r := RegisterNext(old(State()), commands, i, r);
      }
      assert commands[..|commands|] == commands;
    }

    method RegisterNext(ghost start: Store, commands: seq<RegisterCommand>, i: nat, done: BatchReceipt) returns (r: BatchReceipt)
      requires Valid() && i < |commands| && RegisterAll(start, commands[..i]) == (State(), done)
      modifies this
      ensures Valid()
      ensures RegisterAll(start, commands[..i + 1]) == (State(), r)
    {
      BatchStep(start, commands, i, State(), done);
      var answer := RegisterInstance(commands[i]);
      match answer {
        case Ok(receipt) => r := done.(results := done.results + [receipt]);
        case Err(e) => r := done.(errors := done.errors + [(i, e)]);
      }
    }

    method RenewLease(c: RenewCommand) returns (r: Result<LeaseReceipt, DiscoveryError>)
      requires Valid()
      modifies this
      ensures Valid()
      ensures State() == Renew(old(State()), c).store && r == Renew(old(State()), c).outcome
    {
      if Blank(c.leaseId) {
        return Err(InvalidArgument);
      }
      if c.ttlSeconds == 0 {
        return Err(InvalidArgument);
      }
      if c.leaseId !in leaseIndex {
        return Err(NotFound);
      }
      var key := leaseIndex[c.leaseId];
      var expiry := LeaseExpiry(c.now, c.ttlSeconds);
      if expiry.Err? {
        return Err(expiry.error);
      }
      if key !in instances {
        return Err(NotFound);
      }
      if instances[key].expiresAt <= c.now {
        leaseIndex := leaseIndex - {c.leaseId};
        return Err(NotFound);
      }
      var newRevision := NextRevision();
      var instance := instances[key].(expiresAt := expiry.value, revision := newRevision);
      instances := instances[key := instance];
      events := events + [InstanceEvent(instance.key, InstanceRenewed, newRevision)];
      return Ok(LeaseReceipt(c.leaseId, instance.key, newRevision, expiry.value));
    }

    method ReportInstanceStatus(c: StatusCommand) returns (r: Result<StatusReceipt, DiscoveryError>)
      requires Valid()
      modifies this
      ensures Valid()
      ensures State() == ReportStatus(old(State()), c).store && r == ReportStatus(old(State()), c).outcome
    {
      if !c.key.Valid() {
        return Err(InvalidArgument);
      }
      if c.key !in instances {
        return Err(NotFound);
      }
      var current := instances[c.key];
      if current.expiresAt <= c.now {
        return Err(NotFound);
      }
      if c.expectedRevision.Some? {
        if current.revision != c.expectedRevision.value {
          return Err(Conflict);
        }
      }
      var newRevision := NextRevision();
      var instance := current.(status := c.status, revision := newRevision);
      instances := instances[c.key := instance];
      events := events + [InstanceEvent(instance.key, InstanceStatusReported, newRevision)];
      return Ok(StatusReceipt(newRevision, instance.status));
    }

    /** The steps deregistration and expiry share. */
    method TakeOut(key: InstanceKey) returns (r: DeregisterReceipt)
      requires Valid() && key in instances
      modifies this
      ensures Valid()
      ensures State() == Remove(old(State()), key)
      ensures r == DeregisterReceipt(old(instances)[key].key, revision, true)
    {
      var instance := instances[key];
      instances := instances - {key};
      leaseIndex := leaseIndex - {instance.leaseId};
      var newRevision := NextRevision();
      events := events + [InstanceEvent(instance.key, InstanceDeregistered, newRevision)];
      return DeregisterReceipt(instance.key, newRevision, true);
    }

    method DeregisterInstance(key: InstanceKey, now: U64) returns (r: Result<DeregisterReceipt, DiscoveryError>)
      requires Valid()
      modifies this
      ensures Valid()
      ensures State() == Deregister(old(State()), key, now).store && r == Deregister(old(State()), key, now).outcome
    {
      if !key.Valid() {
        return Err(InvalidArgument);
      }
      if key !in instances || instances[key].expiresAt <= now {
        return Ok(DeregisterReceipt(key, 0, false));
      }
      var receipt := TakeOut(key);
      return Ok(receipt);
    }

    method BatchDeregisterInstances(ns: string, env: string, service: string, ids: seq<string>, now: U64)
      returns (r: Result<seq<DeregisterReceipt>, DiscoveryError>)
      requires Valid()
      modifies this
      ensures Valid()
      ensures State() == DeregisterAll(old(State()), ns, env, service, ids, now).store
      ensures r == DeregisterAll(old(State()), ns, env, service, ids, now).outcome
    {
      var receipts := [];
      for i := 0 to |ids|
        invariant Valid()
        invariant DeregisterAll(old(State()), ns, env, service, ids[..i], now) == Step(State(), Ok(receipts))
      {
        assert ids[..i + 1][..i] == ids[..i];
        var answer := DeregisterInstance(InstanceKey(ns, env, service, ids[i]), now);
        if answer.Err? {
          ErrorStopsBatch(old(State()), ns, env, service, ids, now, i + 1);
          return Err(answer.error);
        }
        receipts := receipts + [answer.value];
      }
      assert ids[..|ids|] == ids;
      return Ok(receipts);
    }

    method ExpireInstances(now: U64, maxInstances: nat) returns (r: Result<seq<DeregisterReceipt>, DiscoveryError>)
      requires Valid()
      modifies this
      ensures Valid()
      ensures State() == Expire(old(State()), now, maxInstances).store
      ensures r == Expire(old(State()), now, maxInstances).outcome
    {
      if maxInstances == 0 {
        return Err(InvalidArgument);
      }
      var keys := CollectExpired(now);
      Expiry.KeysSortUniquely(ExpiredKeys(State(), now), keys);
      keys := SortBy(KeyLe, keys);
      keys := if |keys| > maxInstances then keys[..maxInstances] else keys;
      var expired := TakeOutAll(keys);
      return Ok(expired);
    }

    method TakeOutAll(keys: seq<InstanceKey>) returns (receipts: seq<DeregisterReceipt>)
      requires Valid()
      modifies this
      ensures Valid()
      ensures RemoveAll(old(State()), keys) == (State(), receipts)
    {
      receipts := [];
      for i := 0 to |keys|
        invariant Valid()
        invariant RemoveAll(old(State()), keys[..i]) == (State(), receipts)
      {
        assert keys[..i + 1][..i] == keys[..i];
        if keys[i] in instances {
          var receipt := TakeOut(keys[i]);
          receipts := receipts + [receipt];
        }
      }
      assert keys[..|keys|] == keys;
    }

    /** The expired keys, in whatever order the map yields them. */
    method CollectExpired(now: U64) returns (keys: seq<InstanceKey>)
      ensures Enumerates(keys, ExpiredKeys(State(), now))
    {
      keys := [];
      var todo := instances.Keys;
      ghost var found := {};
      while todo != {}
        invariant todo <= instances.Keys && found == set k | k in ExpiredKeys(State(), now) && k !in todo
        invariant Enumerates(keys, found)
        decreases |todo|
      {
        var key :| key in todo;
        todo := todo - {key};
        if instances[key].expiresAt <= now {
          keys := keys + [key];
          found := found + {key};
        }
      }
      assert found == ExpiredKeys(State(), now);
    }

    method RetrieveInstance(key: InstanceKey, now: U64) returns (r: Result<Option<Instance>, DiscoveryError>)
      ensures r == Retrieve(State(), key, now)
    {
      if !key.Valid() {
        return Err(InvalidArgument);
      }
      if key in instances && instances[key].expiresAt > now {
        return Ok(Some(instances[key]));
      }
      return Ok(None);
    }

    method DiscoverInstances(q: DiscoverQuery, now: U64, hash: (nat, nat) -> nat)
      returns (r: Result<DiscoverResult, DiscoveryError>)
      requires Valid()
      ensures r.Err? <==> !q.Valid()
      ensures r.Err? ==> r.error == InvalidArgument
      ensures r.Ok? ==> r.value.revision == revision
      ensures r.Ok? ==> exists found :: Enumerates(found, Candidates(State(), q, now)) && r.value.page == Finalize(hash, found, q)
      ensures r.Ok? && !q.Order().WeightedRandom? ==>
                r.value.page == Paginate(SortedWanted(State(), q, now), q.pageSize, q.pageToken, IdOf)
      ensures r.Ok? && q.Order().WeightedRandom? ==> FairPage(State(), q, now, r.value.page)
    {
      if !q.Valid() {
        return Err(InvalidArgument);
      }
      var found := CollectCandidates(q, now);
      var page := FinalizeDiscoverInstances(hash, found, q);
      if !q.Order().WeightedRandom? {
        FinalizeIgnoresMapOrder(State(), q, now, hash, found);
      } else {
        WeightedPageIsFair(State(), q, now, hash, found);
      }
      return Ok(DiscoverResult(revision, page));
    }

    /** The candidate instances, in whatever order the map yields them. */
    method CollectCandidates(q: DiscoverQuery, now: U64) returns (found: seq<Instance>)
      requires Valid()
      ensures Enumerates(found, Candidates(State(), q, now))
    {
      found := [];
      var todo := instances.Keys;
      while todo != {}
        invariant todo <= instances.Keys
        invariant Enumerates(found, CandidatesIn(instances - todo, q, now))
        decreases |todo|
      {
        var key :| key in todo;
        CandidatesGrow(instances, q, now, todo, key);
        todo := todo - {key};
        if Candidate(q, instances[key], now) {
          found := found + [instances[key]];
        }
      }
      assert instances - {} == instances;
    }

    method ListServices(q: ListQuery, now: U64) returns (r: Result<ListResult, DiscoveryError>)
      requires Valid()
      ensures r == List(State(), q, now)
    {
      if !q.Valid() {
        return Err(InvalidArgument);
      }
      var services := CountServices(q, now);
      var values := CollectSummaries(services);
      SummariesSortUniquely(services, values);
      var sorted := SortBy(ServiceLe, values);
      return Ok(ListResult(revision, Paginate(sorted, q.pageSize, q.pageToken, NameOf)));
    }

    method CountServices(q: ListQuery, now: U64) returns (services: map<string, ServiceSummary>)
      requires Valid()
      ensures services == Summaries(Counted(instances, q, now), q)
    {
      services := map[];
      var todo := instances.Keys;
      ghost var counted: set<Instance> := {};
      while todo != {}
        invariant todo <= instances.Keys
        invariant counted == Counted(instances - todo, q, now)
        invariant services == Summaries(counted, q)
        decreases |todo|
      {
        var key :| key in todo;
        var i := instances[key];
        CountedGrows(instances, q, now, todo, key);
        todo := todo - {key};
        if i.key.namespace == q.namespace && i.key.environment == q.environment && i.expiresAt > now {
          SummariesGrow(counted, q, i);
          services := Count(services, q, i);
          counted := counted + {i};
        }
      }
      assert instances - {} == instances;
    }

    static method CollectSummaries(services: map<string, ServiceSummary>) returns (values: seq<ServiceSummary>)
      requires forall name :: name in services ==> services[name].service == name
      ensures Enumerates(values, services.Values)
    {
      values := [];
      var todo := services.Keys;
      ghost var found: set<ServiceSummary> := {};
      while todo != {}
        invariant todo <= services.Keys
        invariant found == set name | name in services && name !in todo :: services[name]
        invariant Enumerates(values, found)
        decreases |todo|
      {
        var name :| name in todo;
        todo := todo - {name};
        assert services[name] !in found;
        values := values + [services[name]];
        found := found + {services[name]};
      }
      assert found == services.Values;
    }

    method UpdateHealthCheckState(key: InstanceKey, health: HealthState) returns (r: Result<(), DiscoveryError>)
      requires Valid()
      modifies this`instances
      ensures Valid()
      ensures State() == UpdateHealth(old(State()), key, health).store && r == UpdateHealth(old(State()), key, health).outcome
    {
      if key !in instances {
        return Err(NotFound);
      }
      instances := instances[key := instances[key].(health := health)];
      return Ok(());
    }

    // ---------- configuration ----------

    method RecordIdempotency(context: Option<IdempotencyContext>, resourceId: string)
      modifies this`idempotency
      ensures idempotency == Record(old(idempotency), context, resourceId)
    {
      if context.Some? {
        var record := IdempotencyRecord(context.value.requestHash, resourceId);
        idempotency := idempotency[KeyOf(context.value) := record];
      }
    }

    method CreateConfigDraft(c: CreateDraftCommand) returns (r: Result<ConfigDraft, DiscoveryError>)
      modifies this
      ensures State() == CreateDraft(old(State()), c).store && r == CreateDraft(old(State()), c).outcome
    {
      if !ValidCreate(c) {
        return Err(InvalidArgument);
      }
      var replay := ReplayDraft(State(), c.idempotency);
      if replay.Err? {
        return Err(replay.error);
      }
      if replay.value.Some? {
        return Ok(replay.value.value);
      }
      var draftId := NextId("draft");
      var draft := ConfigDraft(draftId, c.content, c.createdBy, false);
      drafts := drafts[draftId := draft];
      RecordIdempotency(c.idempotency, draft.draftId);
      return Ok(draft);
    }

    method PublishConfig(c: PublishCommand) returns (r: Result<ConfigRelease, DiscoveryError>)
      modifies this
      ensures State() == Publish(old(State()), c).store && r == Publish(old(State()), c).outcome
    {
      if !ValidPublish(c) {
        return Err(InvalidArgument);
      }
      var replay := ReplayRelease(State(), c.idempotency);
      if replay.Err? {
        return Err(replay.error);
      }
      if replay.value.Some? {
        return Ok(replay.value.value);
      }
      if c.draftId !in drafts {
        return Err(NotFound);
      }
      var draft := drafts[c.draftId];
      if draft.published {
        return Err(AlreadyPublished);
      }
      var newRevision := NextRevision();
      var releaseId := NextId("release");
      var release := ConfigRelease(releaseId, draft.draftId, draft.content, c.publishedBy, c.now, newRevision);
      drafts := drafts[c.draftId := draft.(published := true)];
      releases := releases + [release];
      events := events + [ReleaseEvent(release, ConfigPublished)];
      RecordIdempotency(c.idempotency, release.releaseId);
      return Ok(release);
    }

    method RollbackConfig(c: RollbackCommand) returns (r: Result<ConfigRelease, DiscoveryError>)
      modifies this
      ensures State() == Rollback(old(State()), c).store && r == Rollback(old(State()), c).outcome
    {
      if !ValidRollback(c) {
        return Err(InvalidArgument);
      }
      var replay := ReplayRelease(State(), c.idempotency);
      if replay.Err? {
        return Err(replay.error);
      }
      if replay.value.Some? {
        return Ok(replay.value.value);
      }
      var source := FindRelease(releases, c.sourceReleaseId);
      if source.None? {
        return Err(NotFound);
      }
      var newRevision := NextRevision();
      var releaseId := NextId("release");
      var release := ConfigRelease(releaseId, source.value.draftId, source.value.content, c.rolledBackBy, c.now, newRevision);
      releases := releases + [release];
      events := events + [ReleaseEvent(release, ConfigRolledBack)];
      RecordIdempotency(c.idempotency, release.releaseId);
      return Ok(release);
    }

    method RetrieveEffectiveConfig(q: ConfigQuery) returns (r: Result<EffectiveConfig, DiscoveryError>)
      ensures r == Effective(q, releases)
      ensures r.Ok? ==> Answers(q, releases, r.value)
      ensures r.Ok? ==> forall key :: LooksUp(q, releases, key, r.value.values)
    {
      if !q.Valid() {
        return Err(InvalidArgument);
      }
      var values: map<string, EffectiveValue> := map[];
      var latest := 0;
      for i := 0 to |releases|
        invariant EffectiveConfig(latest, values) == Fold(q, releases[..i])
      {
        assert releases[..i + 1][..i] == releases[..i];
        var release := releases[i];
        if Applies(q, release) {
          if release.revision > latest {
            latest := release.revision;
          }
          var specificity := release.content.scope.Specificity();
          var replace := true;
          if release.content.key in values {
            var current := values[release.content.key];
            replace := specificity > current.sourceSpecificity
                       || (specificity == current.sourceSpecificity && release.revision >= current.sourceRevision);
          }
          if replace {
            var value := EffectiveValue(release.content.value, release.content.format, release.releaseId, specificity, release.revision);
            values := values[release.content.key := value];
          }
        }
      }
      assert releases[..|releases|] == releases;
      FoldAnswers(q, releases);
      forall key ensures LooksUp(q, releases, key, values) {
        AnswerIsLookup(q, releases, key);
      }
      return Ok(EffectiveConfig(latest, values));
    }

    // ---------- events ----------

    method GcWatchEvents(beforeRevision: nat, maxDeletes: nat) returns (r: Result<nat, DiscoveryError>)
      modifies this`events
      ensures r.Err? <==> maxDeletes == 0
      ensures r.Err? ==> r.error == InvalidArgument && events == old(events)
      ensures r.Ok? ==> events == Collected(old(events), beforeRevision, maxDeletes) && r.value == |old(events)| - |events|
    {
      if maxDeletes == 0 {
        return Err(InvalidArgument);
      }
      var removed, kept := 0, [];
      ghost var drop := Collectable(events, beforeRevision, maxDeletes);
      for i := 0 to |events|
        invariant removed + |kept| == i && kept == KeepRange(events, 0, i, drop)
        invariant removed == if OldCount(events, i, beforeRevision) < maxDeletes then OldCount(events, i, beforeRevision) else maxDeletes
      {
        if events[i].revision <= beforeRevision && removed < maxDeletes {
          removed := removed + 1;
        } else {
          kept := kept + [events[i]];
        }
      }
      events := kept;
      return Ok(removed);
    }

    method CompactWatchEvents(ns: string, env: string, maxPerResource: nat) returns (removed: nat)
      modifies this`events
      ensures events == Compacted(old(events), ns, env, maxPerResource)
      ensures removed == |old(events)| - |events| == |Superseded(old(events), ns, env, maxPerResource)|
    {
      var beforeCount := |events|;
      var groups := GroupIndices(events, ns, env);
      var indices := CollectExcess(events, ns, env, maxPerResource, groups);
      ghost var drop := Superseded(events, ns, env, maxPerResource);
      Compaction.SortedListingIncreases(indices, drop);
      indices := SortBy<nat>(Compaction.NatLe, indices);
      RemoveIndices(indices, drop);
      removed := beforeCount - |events|;
    }

    /** Removes events at increasing indices from the back, so that earlier indices stay good. */
    method RemoveIndices(indices: seq<nat>, ghost drop: set<nat>)
      requires Compaction.Increasing(indices) && forall i :: i in indices <==> i in drop
      requires forall i :: i in drop ==> i < |events|
      modifies this`events
      ensures events == Without(old(events), drop) && |events| == |old(events)| - |indices|
    {
      ghost var log := events;
      var j := |indices|;
      ghost var done: nat := |log|;
      assert forall i :: 0 <= i < |indices| ==> indices[i] in drop;
      while j > 0
        invariant 0 <= j <= |indices| && done <= |log|
        invariant forall i :: 0 <= i < j ==> indices[i] < done
        invariant forall i :: i in drop && i < done ==> exists m :: 0 <= m < j && indices[m] == i
        invariant events == log[..done] + KeepRange(log, done, |log|, drop)
        invariant |events| == |log| - (|indices| - j)
      {
        j := j - 1;
        var idx := indices[j];
        Compaction.RemovalStep(log, drop, idx, done);
        events := RemoveAt(events, idx);
        done := idx;
      }
      Compaction.RemovalEnds(log, drop, done);
    }

    /** The in-scope indices of each resource id, in log order. */
    static method GroupIndices(events: seq<Event>, ns: string, env: string) returns (groups: map<string, seq<nat>>)
      ensures Compaction.Groups(groups, events, |events|, ns, env)
    {
      groups := map[];
      for i := 0 to |events|
        invariant Compaction.Groups(groups, events, i, ns, env)
      {
        Compaction.GroupsStep(groups, events, i, ns, env);
        if InScope(events[i], ns, env) {
          var id := events[i].resourceId;
          groups := groups[id := (if id in groups then groups[id] else []) + [i]];
        }
      }
    }

    /** All groups' excess indices, in whatever order the map yields the groups. */
    static method CollectExcess(events: seq<Event>, ns: string, env: string, maxPerResource: nat, groups: map<string, seq<nat>>)
      returns (indices: seq<nat>)
      requires Compaction.Groups(groups, events, |events|, ns, env)
      ensures Enumerates(indices, Superseded(events, ns, env, maxPerResource))
    {
      indices := [];
      var todo := groups.Keys;
      Compaction.SupersededIsGrouped(groups, events, ns, env, maxPerResource);
      while todo != {}
        invariant todo <= groups.Keys
        invariant Enumerates(indices, Compaction.SupersededOutside(events, ns, env, maxPerResource, todo))
        decreases |todo|
      {
        var id :| id in todo;
        Compaction.ExcessOfGroup(groups, events, ns, env, maxPerResource, todo, id);
        todo := todo - {id};
        var group := groups[id];
        if |group| > maxPerResource {
          indices := indices + group[..|group| - maxPerResource];
        }
      }
      Compaction.OutsideNothingIsAll(events, ns, env, maxPerResource);
    }

    method WatchEvents(q: WatchQuery) returns (r: Result<seq<Event>, DiscoveryError>)
      ensures r == Watch(q, events)
    {
      return Watch(q, events);
    }
  }

  lemma BatchStep(s: Store, cs: seq<RegisterCommand>, i: nat, before: Store, done: BatchReceipt)
    requires i < |cs| && RegisterAll(s, cs[..i]) == (before, done)
    ensures RegisterAll(s, cs[..i + 1]) == (Register(before, cs[i]).store, Tally(done, i, Register(before, cs[i]).outcome))
  {
    assert cs[..i + 1][..i] == cs[..i];
  }

  /** A batch answers every command, once, as a receipt or as an error. */
  lemma {:induction false} BatchAnswersEveryCommand(s: Store, cs: seq<RegisterCommand>)
    ensures var done := RegisterAll(s, cs).1; |done.results| + |done.errors| == |cs|
    ensures var errors := RegisterAll(s, cs).1.errors;
            && (forall i :: 0 <= i < |errors| ==> errors[i].0 < |cs|)
            && (forall i, j :: 0 <= i < j < |errors| ==> errors[i].0 < errors[j].0)
  {
    if cs != [] {
      BatchAnswersEveryCommand(s, cs[..|cs| - 1]);
    }
  }

  /** Looking at one more key finds its instance, which was not found before, or nothing. */
  lemma CandidatesGrow(instances: map<InstanceKey, Instance>, q: DiscoverQuery, now: U64, todo: set<InstanceKey>, key: InstanceKey)
    requires key in todo && todo <= instances.Keys && forall k :: k in instances ==> instances[k].key == k
    ensures var i := instances[key];
            var before, after := CandidatesIn(instances - todo, q, now), CandidatesIn(instances - (todo - {key}), q, now);
            if Candidate(q, i, now) then after == before + {i} && multiset(after) == multiset(before) + multiset{i}
            else after == before
  {
    var rest := instances - (todo - {key});
    assert rest.Keys == (instances - todo).Keys + {key};
    assert forall k :: k in instances - todo ==> k in rest && rest[k] == (instances - todo)[k];
  }

  /** Looking at one more key counts its instance, which was not counted before, or nothing. */
  lemma CountedGrows(instances: map<InstanceKey, Instance>, q: ListQuery, now: U64, todo: set<InstanceKey>, key: InstanceKey)
    requires key in todo && todo <= instances.Keys && forall k :: k in instances ==> instances[k].key == k
    ensures var i, before, after := instances[key], Counted(instances - todo, q, now), Counted(instances - (todo - {key}), q, now);
            if i.key.namespace == q.namespace && i.key.environment == q.environment && i.LiveAt(now)
            then i !in before && after == before + {i}
            else after == before
  {
    var rest := instances - (todo - {key});
    assert rest.Keys == (instances - todo).Keys + {key};
    assert forall k :: k in instances - todo ==> k in rest && rest[k] == (instances - todo)[k];
  }

  /** Once a batch deregistration has failed it stays as it was. */
  lemma {:induction false} ErrorStopsBatch(s: Store, ns: string, env: string, svc: string, ids: seq<string>, now: U64, n: nat)
    requires n <= |ids| && DeregisterAll(s, ns, env, svc, ids[..n], now).outcome.Err?
    ensures DeregisterAll(s, ns, env, svc, ids, now) == DeregisterAll(s, ns, env, svc, ids[..n], now)
    decreases |ids|
  {
    if n < |ids| {
      var m := |ids| - 1;
      assert ids[..m][..n] == ids[..n];
      ErrorStopsBatch(s, ns, env, svc, ids[..m], now, n);
    } else {
      assert ids[..n] == ids;
    }
  }
}
