/** What each registry operation of the store does, as a function of the store's value. */
module Registry {
  import opened Base
  import opened Types
  import opened Sorting

  /** `lease_expires_at_ms`, with both checked 64-bit operations. */
  function LeaseExpiry(now: U64, ttlSeconds: U64): (r: Result<U64, DiscoveryError>)
    ensures r.Ok? <==> now + 1000 * ttlSeconds <= U64_MAX
    ensures r.Ok? ==> r.value == now + 1000 * ttlSeconds
    ensures r.Err? ==> r.error == InvalidArgument
  {
    if ttlSeconds * 1000 > U64_MAX then Err(InvalidArgument)
    else if now + ttlSeconds * 1000 > U64_MAX then Err(InvalidArgument)
    else Ok(now + ttlSeconds * 1000)
  }

  function InstanceEvent(k: InstanceKey, kind: EventKind, revision: nat): Event {
    Event(revision, k.namespace, k.environment, kind, k.instanceId, Some(k.service), None, None, None)
  }

  predicate ValidRegister(c: RegisterCommand) {
    c.key.Valid() && c.profile.Valid() && c.ttlSeconds != 0
  }

  predicate ConflictsWith(s: Store, key: InstanceKey, expected: Option<nat>) {
    expected.Some? && key in s.instances && s.instances[key].revision != expected.value
  }

  predicate Holds(s: Store, key: InstanceKey, now: U64) {
    key in s.instances && s.instances[key].LiveAt(now)
  }

  /** The lease a registration ends up with: the live one it renews, or the next id. */
  function LeaseFor(s: Store, c: RegisterCommand): string {
    if Holds(s, c.key, c.now) then s.instances[c.key].leaseId else Id("lease", s.nextSequence + 1)
  }

  /** The id and revision a registration takes, which it keeps even when the expiry overflows. */
  function TakeNumbers(s: Store, c: RegisterCommand): Store {
    s.(nextSequence := if Holds(s, c.key, c.now) then s.nextSequence else s.nextSequence + 1,
       revision := s.revision + 1)
  }

  function RegisteredInstance(s: Store, c: RegisterCommand, expiresAt: U64): Instance {
    Instance(c.key, c.profile, c.status, LeaseFor(s, c), expiresAt, s.revision + 1, HealthState(0, 0, 0))
  }

  function DropSupersededLease(s: Store, key: InstanceKey, leaseId: string): map<string, InstanceKey> {
    if key in s.instances && s.instances[key].leaseId != leaseId
    then s.leaseIndex - {s.instances[key].leaseId}
    else s.leaseIndex
  }

  function RegisterExpiry(c: RegisterCommand): Result<U64, DiscoveryError> {
    if c.persistent then Ok(U64_MAX) else LeaseExpiry(c.now, c.ttlSeconds)
  }

  function Register(s: Store, c: RegisterCommand): Step<LeaseReceipt> {
    if !ValidRegister(c) then Step(s, Err(InvalidArgument))
    else if ConflictsWith(s, c.key, c.expectedRevision) then Step(s, Err(Conflict))
    else
      match RegisterExpiry(c)
      case Err(e) => Step(TakeNumbers(s, c), Err(e))
      case Ok(expiresAt) =>
        var lease, revision := LeaseFor(s, c), s.revision + 1;
        var kind := if Holds(s, c.key, c.now) then InstanceUpdated else InstanceRegistered;
        Step(TakeNumbers(s, c).(
             leaseIndex := DropSupersededLease(s, c.key, lease)[lease := c.key],
             instances := s.instances[c.key := RegisteredInstance(s, c, expiresAt)],
             events := s.events + [InstanceEvent(c.key, kind, revision)]),
             Ok(LeaseReceipt(lease, c.key, revision, expiresAt)))
  }

  /** How a batch files the answer to its n-th command. */
  function Tally(done: BatchReceipt, n: nat, answer: Result<LeaseReceipt, DiscoveryError>): BatchReceipt {
    match answer
    case Ok(receipt) => done.(results := done.results + [receipt])
    case Err(e) => done.(errors := done.errors + [(n, e)])
  }

  /** A batch goes on past a refused command. */
  function RegisterAll(s: Store, cs: seq<RegisterCommand>): (Store, BatchReceipt) {
    if cs == [] then (s, BatchReceipt([], [])) else
      var n := |cs| - 1;
      var (s1, done) := RegisterAll(s, cs[..n]);
      var step := Register(s1, cs[n]);
      (step.store, Tally(done, n, step.outcome))
  }

  function Renew(s: Store, c: RenewCommand): Step<LeaseReceipt> {
    if Blank(c.leaseId) || c.ttlSeconds == 0 then Step(s, Err(InvalidArgument))
    else if c.leaseId !in s.leaseIndex then Step(s, Err(NotFound))
    else
      var key := s.leaseIndex[c.leaseId];
      match LeaseExpiry(c.now, c.ttlSeconds)
      case Err(e) => Step(s, Err(e))
      case Ok(expiresAt) =>
        if key !in s.instances then Step(s, Err(NotFound))
        else if !s.instances[key].LiveAt(c.now) then
          Step(s.(leaseIndex := s.leaseIndex - {c.leaseId}), Err(NotFound))
        else
          var i := s.instances[key];
          Step(s.(revision := s.revision + 1,
                  instances := s.instances[key := i.(expiresAt := expiresAt, revision := s.revision + 1)],
                  events := s.events + [InstanceEvent(i.key, InstanceRenewed, s.revision + 1)]),
               Ok(LeaseReceipt(c.leaseId, i.key, s.revision + 1, expiresAt)))
  }

  function ReportStatus(s: Store, c: StatusCommand): Step<StatusReceipt> {
    if !c.key.Valid() then Step(s, Err(InvalidArgument))
    else if !Holds(s, c.key, c.now) then Step(s, Err(NotFound))
    else if ConflictsWith(s, c.key, c.expectedRevision) then Step(s, Err(Conflict))
    else
      var i := s.instances[c.key];
      Step(s.(revision := s.revision + 1,
              instances := s.instances[c.key := i.(status := c.status, revision := s.revision + 1)],
              events := s.events + [InstanceEvent(i.key, InstanceStatusReported, s.revision + 1)]),
           Ok(StatusReceipt(s.revision + 1, c.status)))
  }

  /** The shared tail of deregistration and expiry. */
  function Remove(s: Store, key: InstanceKey): Store
    requires key in s.instances
  {
    var i := s.instances[key];
    s.(instances := s.instances - {key},
       leaseIndex := s.leaseIndex - {i.leaseId},
       revision := s.revision + 1,
       events := s.events + [InstanceEvent(i.key, InstanceDeregistered, s.revision + 1)])
  }

  function Deregister(s: Store, key: InstanceKey, now: U64): Step<DeregisterReceipt> {
    if !key.Valid() then Step(s, Err(InvalidArgument))
    else if !Holds(s, key, now) then Step(s, Ok(DeregisterReceipt(key, 0, false)))
    else Step(Remove(s, key), Ok(DeregisterReceipt(s.instances[key].key, s.revision + 1, true)))
  }

  /** Stops at the first error, keeping the removals already made. */
  function DeregisterAll(s: Store, namespace: string, environment: string, service: string,
                         ids: seq<string>, now: U64): Step<seq<DeregisterReceipt>>
  {
    if ids == [] then Step(s, Ok([])) else
      var n := |ids| - 1;
      var before := DeregisterAll(s, namespace, environment, service, ids[..n], now);
      if before.outcome.Err? then before else
        var step := Deregister(before.store, InstanceKey(namespace, environment, service, ids[n]), now);
        Step(step.store,
             match step.outcome
             case Ok(receipt) => Ok(before.outcome.value + [receipt])
             case Err(e) => Err(e))
  }

  function UpdateHealth(s: Store, key: InstanceKey, health: HealthState): Step<()> {
    if key !in s.instances then Step(s, Err(NotFound))
    else Step(s.(instances := s.instances[key := s.instances[key].(health := health)]), Ok(()))
  }

  // ---------- expiry ----------

  predicate KeyLe(a: InstanceKey, b: InstanceKey) {
    if a.namespace != b.namespace then StringLe(a.namespace, b.namespace)
    else if a.environment != b.environment then StringLe(a.environment, b.environment)
    else if a.service != b.service then StringLe(a.service, b.service)
    else StringLe(a.instanceId, b.instanceId)
  }

  function ExpiredKeys(s: Store, now: U64): set<InstanceKey> {
    set k | k in s.instances && !s.instances[k].LiveAt(now)
  }

  ghost function SortedKeys(keys: set<InstanceKey>): seq<InstanceKey> {
    SortBy(KeyLe, Listing(keys))
  }

  function Take<T>(s: seq<T>, n: nat): seq<T> {
    if |s| <= n then s else s[..n]
  }

  ghost function Victims(s: Store, now: U64, maxInstances: nat): seq<InstanceKey> {
    Take(SortedKeys(ExpiredKeys(s, now)), maxInstances)
  }

  /** Removes the keys in order; a key that is already gone is skipped. */
  function RemoveAll(s: Store, keys: seq<InstanceKey>): (Store, seq<DeregisterReceipt>) {
    if keys == [] then (s, []) else
      var n := |keys| - 1;
      var (s1, receipts) := RemoveAll(s, keys[..n]);
      if keys[n] !in s1.instances then (s1, receipts)
      else (Remove(s1, keys[n]),
            receipts + [DeregisterReceipt(s1.instances[keys[n]].key, s1.revision + 1, true)])
  }

  ghost function Expire(s: Store, now: U64, maxInstances: nat): Step<seq<DeregisterReceipt>> {
    if maxInstances == 0 then Step(s, Err(InvalidArgument)) else
      var (s', receipts) := RemoveAll(s, Victims(s, now, maxInstances));
      Step(s', Ok(receipts))
  }

  // ---------- reads ----------

  function Retrieve(s: Store, key: InstanceKey, now: U64): Result<Option<Instance>, DiscoveryError> {
    if !key.Valid() then Err(InvalidArgument)
    else if Holds(s, key, now) then Ok(Some(s.instances[key]))
    else Ok(None)
  }
}
