/** The records of the discovery contract and the state of the in-memory store. */
module Types {
  import opened Base

  datatype DiscoveryError =
    | Unauthenticated | InvalidConfig | InvalidArgument | NotFound | AlreadyPublished
    | PermissionDenied | PolicyViolation | Conflict | Unavailable | ResourceExhausted

  // ---------- registry ----------

  datatype InstanceKey = InstanceKey(namespace: string, environment: string, service: string, instanceId: string)
  {
    /** `validate_non_empty` on the four identity fields. */
    predicate Valid() {
      !Blank(namespace) && !Blank(environment) && !Blank(service) && !Blank(instanceId)
    }
  }

  datatype InstanceStatus = Serving | Degraded | NotServing
  {
    predicate IsDiscoverable() {
      Serving? || Degraded?
    }
  }

  datatype HealthState = HealthState(consecutiveSuccesses: nat, consecutiveFailures: nat, lastCheck: nat)

  /** The descriptive fields a registration carries through unchanged. */
  datatype Profile = Profile(
    endpoint: string, protocol: string, version: string, region: string, zone: string,
    weight: nat, priority: nat, metadata: map<string, string>)
  {
    predicate Valid() {
      !Blank(endpoint) && !Blank(protocol) && !Blank(version) && !Blank(region) && !Blank(zone)
    }
  }

  datatype Instance = Instance(
    key: InstanceKey, profile: Profile, status: InstanceStatus,
    leaseId: string, expiresAt: U64, revision: nat, health: HealthState)
  {
    predicate LiveAt(now: U64) {
      expiresAt > now
    }
  }

  datatype RegisterCommand = RegisterCommand(
    key: InstanceKey, profile: Profile, status: InstanceStatus, ttlSeconds: U64, now: U64,
    expectedRevision: Option<nat>, persistent: bool)

  datatype RenewCommand = RenewCommand(leaseId: string, ttlSeconds: U64, now: U64)

  datatype StatusCommand = StatusCommand(
    key: InstanceKey, status: InstanceStatus, now: U64, expectedRevision: Option<nat>)

  datatype LeaseReceipt = LeaseReceipt(leaseId: string, key: InstanceKey, revision: nat, expiresAt: U64)

  datatype StatusReceipt = StatusReceipt(revision: nat, status: InstanceStatus)

  datatype DeregisterReceipt = DeregisterReceipt(key: InstanceKey, revision: nat, deregistered: bool)

  datatype BatchReceipt = BatchReceipt(results: seq<LeaseReceipt>, errors: seq<(nat, DiscoveryError)>)

  // ---------- configuration ----------

  datatype ConfigFormat = Text | Json | Toml

  datatype ConfigScope = Namespace | Application(application: string) | Service(application: string, service: string)
  {
    function Specificity(): nat {
      match this
      case Namespace => 0
      case Application(_) => 1
      case Service(_, _) => 2
    }

    predicate AppliesTo(app: string, svc: string) {
      match this
      case Namespace => true
      case Application(a) => a == app
      case Service(a, s) => a == app && s == svc
    }

    predicate Valid() {
      match this
      case Namespace => true
      case Application(a) => !Blank(a)
      case Service(a, s) => !Blank(a) && !Blank(s)
    }

    /** `config_application_from_scope`. */
    function OwningApplication(): Option<string> {
      if Namespace? then None else Some(application)
    }

    function OwningService(): Option<string> {
      if Service? then Some(service) else None
    }
  }

  /** What a draft says, and every release made from it repeats. */
  datatype ConfigContent = ConfigContent(
    namespace: string, environment: string, group: string, key: string,
    format: ConfigFormat, value: string, scope: ConfigScope, contentHash: string)

  datatype ConfigDraft = ConfigDraft(draftId: string, content: ConfigContent, createdBy: string, published: bool)

  datatype ConfigRelease = ConfigRelease(
    releaseId: string, draftId: string, content: ConfigContent, publishedBy: string, publishedAt: U64, revision: nat)

  datatype IdempotencyContext = IdempotencyContext(operationId: string, key: string, requestHash: string)
  {
    predicate Valid() {
      !Blank(operationId) && !Blank(key) && !Blank(requestHash)
    }
  }

  datatype IdempotencyKey = IdempotencyKey(operationId: string, key: string)

  datatype IdempotencyRecord = IdempotencyRecord(requestHash: string, resourceId: string)

  /** `content.contentHash` is the SHA-256 of `content.value`, computed by a foreign library. */
  datatype CreateDraftCommand = CreateDraftCommand(
    content: ConfigContent, createdBy: string, idempotency: Option<IdempotencyContext>)

  datatype PublishCommand = PublishCommand(
    draftId: string, publishedBy: string, now: U64, idempotency: Option<IdempotencyContext>)

  datatype RollbackCommand = RollbackCommand(
    sourceReleaseId: string, rolledBackBy: string, now: U64, idempotency: Option<IdempotencyContext>)

  // ---------- events ----------

  datatype EventKind =
    | InstanceRegistered | InstanceUpdated | InstanceStatusReported | InstanceRenewed | InstanceDeregistered
    | ConfigPublished | ConfigRolledBack
  {
    predicate IsConfig() {
      ConfigPublished? || ConfigRolledBack?
    }
  }

  datatype Event = Event(
    revision: nat, namespace: string, environment: string, kind: EventKind, resourceId: string,
    service: Option<string>, group: Option<string>, configKey: Option<string>, application: Option<string>)

  datatype WatchQuery = WatchQuery(
    namespace: string, environment: string, fromRevision: nat,
    service: Option<string>, group: Option<string>, application: Option<string>, maxEvents: nat)

  // ---------- the store ----------

  datatype Store = Store(
    revision: nat, nextSequence: nat,
    instances: map<InstanceKey, Instance>, leaseIndex: map<string, InstanceKey>,
    drafts: map<string, ConfigDraft>, releases: seq<ConfigRelease>,
    events: seq<Event>, idempotency: map<IdempotencyKey, IdempotencyRecord>)

  const EmptyStore := Store(0, 0, map[], map[], map[], [], [], map[])

  /** The store after a call and what the call answered. */
  datatype Step<+T> = Step(store: Store, outcome: Result<T, DiscoveryError>)
}
