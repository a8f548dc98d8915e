/** Concrete runs for the places where the code falls short of what one might expect: each shows that the condition of
    the general result is met by a run the store really makes. */
module Witnesses {
  import opened Base
  import opened Types
  import opened Registry
  import opened Configs
  import opened ConfigRuns
  import opened EffectiveConfigs
  import opened EventLog
  import opened Runs
  import opened Leases
  import opened Expiry
  import opened CacheKeys
  import opened WatchStreams
  import opened StreamGuarantees
  import opened CallEffects
  import opened Acknowledgements

  /** Instance "x" of a service, registered at time 0 for one second. */
  function Sample(service: string): RegisterCommand {
    RegisterCommand(InstanceKey("n", "e", service, "x"), Profile("u", "p", "v", "r", "z", 1, 0, map[]), Serving,
                    1, 0, None, false)
  }

  function SampleInstance(service: string, n: nat): Instance {
    Instance(Sample(service).key, Sample(service).profile, Serving, Id("lease", n), 1000, n, HealthState(0, 0, 0))
  }

  function SampleEvent(service: string, n: nat): Event {
    InstanceEvent(Sample(service).key, InstanceRegistered, n)
  }

  lemma NotBlank(s: string)
    requires s != "" && !IsWhitespace(s[0])
    ensures !Blank(s)
  {
  }

  lemma SampleIsValid(service: string)
    requires service != "" && !IsWhitespace(service[0])
    ensures ValidRegister(Sample(service))
  {
    NotBlank("n");
    NotBlank("e");
    NotBlank("x");
    NotBlank("u");
    NotBlank("p");
    NotBlank("v");
    NotBlank("r");
    NotBlank("z");
  }

  /** The store after one registration. */
  function FirstStore(): Store {
    EmptyStore.(revision := 1, nextSequence := 1,
                instances := map[Sample("a").key := SampleInstance("a", 1)],
                leaseIndex := map[Id("lease", 1) := Sample("a").key],
                events := [SampleEvent("a", 1)])
  }

  lemma FirstRegistration()
    ensures Next(Genesis, DoRegister(Sample("a"))) == World(FirstStore(), [SampleEvent("a", 1)], [])
  {
    SampleIsValid("a");
    var s := Register(EmptyStore, Sample("a")).store;
    assert s == FirstStore();
    assert s.events[0..] == s.events;
  }

  // ---------- a renewal with a late reading ----------

  lemma LateRenewal()
    ensures var renew := RenewCommand(Id("lease", 1), 1, 1000);
            && Renew(FirstStore(), renew).store == FirstStore().(leaseIndex := map[])
            && Hides(FirstStore(), DoRenew(renew), 0)
  {
    NotBlank(Id("lease", 1));
    assert FirstStore().leaseIndex - {Id("lease", 1)} == map[];
  }

  /** Register for one second, renew at its end: at time 0 the instance is live, its lease is gone, and a renewal
      fails. */
  lemma BackwardClockHidesLiveLease()
    ensures var ops := [DoRegister(Sample("a")), DoRenew(RenewCommand(Id("lease", 1), 1, 1000))];
            var s := Exec(ops).store;
            && Hides(Exec(ops[..1]).store, ops[1], 0)
            && Holds(s, Sample("a").key, 0) && !Reachable(s, 0)
            && Renew(s, RenewCommand(Id("lease", 1), 1, 0)).outcome == Err(NotFound)
  {
    var ops := [DoRegister(Sample("a")), DoRenew(RenewCommand(Id("lease", 1), 1, 1000))];
    assert ops[..1] == [ops[0]] && [ops[0]][..0] == [];
    assert Exec(ops[..1]).store == FirstStore() by { FirstRegistration(); }
    LateRenewal();
    assert Exec(ops).store == FirstStore().(leaseIndex := map[]) by { ExecStep(ops, 1); assert ops[..2] == ops; }
    NotBlank(Id("lease", 1));
    assert FirstStore().instances[Sample("a").key].leaseId !in Exec(ops).store.leaseIndex;
  }

  // ---------- calls that can tell a scan has run ----------

  lemma ScanEmptiesFirstStore()
    ensures Expire(FirstStore(), 1000, 1).store.instances == map[]
    ensures Expire(FirstStore(), 1000, 1).store.leaseIndex == map[]
  {
    var s, key := FirstStore(), Sample("a").key;
    assert ExpiredKeys(s, 1000) == {key};
    VictimsAreTheFirst(s, 1000, 1);
    ScanEffect(s, 1000, 1);
    var gone := Elements(Victims(s, 1000, 1));
    assert gone == {key} by {
      assert |gone| == 1;
      var k :| k in gone;
    }
    assert key in Victims(s, 1000, 1);
    assert Id("lease", 1) in LeasesOf(s, Victims(s, 1000, 1));
  }

  /** After one registration has expired, a renewal asking for more time than 64 bits hold, and a registration
      expecting another revision, answer differently once a scan has run. */
  lemma ScanIsTold()
    ensures var s := Exec([DoRegister(Sample("a"))]).store;
            var s' := Expire(s, 1000, 1).store;
            var renew := RenewCommand(Id("lease", 1), U64_MAX, 1000);
            var again := Sample("a").(now := 1000, expectedRevision := Some(7));
            && RenewalTells(s, s', renew)
            && Renew(s, renew).outcome == Err(InvalidArgument) && Renew(s', renew).outcome == Err(NotFound)
            && RegistrationTells(s, s', again)
            && Register(s, again).outcome == Err(Conflict) && Register(s', again).outcome.Ok?
  {
    FirstRegistration();
    assert [DoRegister(Sample("a"))][..0] == [];
    assert Exec([DoRegister(Sample("a"))]).store == FirstStore();
    ScanEmptiesFirstStore();
    SampleIsValid("a");
    NotBlank(Id("lease", 1));
  }

  // ---------- a watcher behind a compaction ----------

  function SampleWatch(): WatchQuery {
    WatchQuery("n", "e", 0, Some("a"), None, None, 10)
  }

  function SecondStore(): Store {
    FirstStore().(revision := 2, nextSequence := 2,
                  instances := FirstStore().instances[Sample("b").key := SampleInstance("b", 2)],
                  leaseIndex := FirstStore().leaseIndex[Id("lease", 2) := Sample("b").key],
                  events := [SampleEvent("a", 1), SampleEvent("b", 2)])
  }

  lemma SecondRegistration()
    ensures Next(World(FirstStore(), [SampleEvent("a", 1)], []), DoRegister(Sample("b")))
            == World(SecondStore(), [SampleEvent("a", 1), SampleEvent("b", 2)], [])
  {
    SampleIsValid("b");
    var s := Register(FirstStore(), Sample("b")).store;
    assert Sample("a").key != Sample("b").key;
    assert s == SecondStore();
    assert s.events[1..] == [SampleEvent("b", 2)];
  }

  function BothEvents(): seq<Event> {
    [SampleEvent("a", 1), SampleEvent("b", 2)]
  }

  lemma CompactionTakesTheFirst()
    ensures Next(World(SecondStore(), BothEvents(), []), DoCompact("n", "e", 1))
            == World(SecondStore().(events := [SampleEvent("b", 2)]), BothEvents(), [])
  {
    var log := SecondStore().events;
    assert LaterSame(log, 0, "n", "e") == {1} && LaterSame(log, 1, "n", "e") == {};
    assert Superseded(log, "n", "e", 1) == {0};
    assert KeepRange(log, 0, 1, {0}) == [];
  }

  lemma WatchFindsNothing()
    ensures Watch(SampleWatch(), [SampleEvent("b", 2)]) == Ok([])
    ensures Matching(SampleWatch(), [SampleEvent("b", 2)]) == []
  {
    NotBlank("n");
    NotBlank("e");
    NotBlank("a");
    assert !Matches(SampleWatch(), SampleEvent("b", 2));
  }

  function CompactedMoves(): seq<Move> {
    [Mutate(DoRegister(Sample("a"))), Mutate(DoRegister(Sample("b"))), Mutate(DoCompact("n", "e", 1)), Poll]
  }

  lemma MutateRun(kind: WatchKind, q: WatchQuery, moves: seq<Move>, i: nat)
    requires i < |moves| && moves[i].Mutate?
    ensures var sys := Run(kind, q, moves[..i]);
            Run(kind, q, moves[..i + 1]) == sys.(world := Next(sys.world, moves[i].op))
  {
    assert moves[..i + 1][..i] == moves[..i];
  }

  function AfterMutations(w: World, q: WatchQuery): System {
    System(w, map[], Begin(ServiceWatch, q))
  }

  lemma FirstMove(q: WatchQuery)
    ensures Run(ServiceWatch, q, CompactedMoves()[..1]) == AfterMutations(World(FirstStore(), [SampleEvent("a", 1)], []), q)
  {
    assert CompactedMoves()[..0] == [];
    MutateRun(ServiceWatch, q, CompactedMoves(), 0);
    FirstRegistration();
  }

  lemma SecondMove(q: WatchQuery)
    ensures Run(ServiceWatch, q, CompactedMoves()[..2]) == AfterMutations(World(SecondStore(), BothEvents(), []), q)
  {
    FirstMove(q);
    MutateRun(ServiceWatch, q, CompactedMoves(), 1);
    SecondRegistration();
  }

  lemma CompactedRun(q: WatchQuery)
    ensures Run(ServiceWatch, q, CompactedMoves()[..3]) ==
            AfterMutations(World(SecondStore().(events := [SampleEvent("b", 2)]), BothEvents(), []), q)
  {
    SecondMove(q);
    MutateRun(ServiceWatch, q, CompactedMoves(), 2);
    CompactionTakesTheFirst();
  }

  /** A poll that finds nothing, by a stream that has nothing, leaves it caught up with nothing. */
  lemma EmptyPoll(sys: System)
    requires sys.stream == Begin(sys.stream.kind, sys.stream.query)
    requires Watch(sys.stream.query, sys.world.store.events) == Ok([]) && Matching(sys.stream.query, sys.world.store.events) == []
    ensures var end := After(sys, Poll);
            end.world == sys.world && end.stream == sys.stream && end.stream.open && CaughtUp(end) && end.stream.sent == []
  {
    assert At(sys.stream.query, sys.stream.cursor) == sys.stream.query;
  }

  lemma SampleWatchIsValid()
    ensures ValidWatch(SampleWatch()) && WholeService(SampleWatch())
  {
    NotBlank("n");
    NotBlank("e");
    NotBlank("a");
  }

  /** Instance "x" of service "a", then instance "x" of service "b", then a compaction that keeps one event per id: a
      watcher of "a" that polls only now is open and caught up, has delivered nothing, and does not know of the
      instance the registry holds. */
  lemma CompactionCrossesServices()
    ensures var sys := Run(ServiceWatch, SampleWatch(), CompactedMoves());
            && ValidWatch(SampleWatch()) && WholeService(SampleWatch())
            && sys.stream.open && CaughtUp(sys)
            && Replica(EventsOf(sys.stream.sent)) == {} && Watched(SampleWatch(), "x") in sys.world.store.instances
  {
    var q, moves := SampleWatch(), CompactedMoves();
    SampleWatchIsValid();
    CompactedRun(q);
    WatchFindsNothing();
    assert moves[..|moves| - 1] == moves[..3];
    EmptyPoll(Run(ServiceWatch, q, moves[..3]));
    assert Watched(q, "x") == Sample("a").key;
  }

  // ---------- a namespace-wide release ----------

  /** A draft for the whole namespace. */
  function SampleCreate(context: Option<IdempotencyContext>): CreateDraftCommand {
    CreateDraftCommand(ConfigContent("n", "e", "g", "k", Text, "v", Namespace, "h"), "u", context)
  }

  function SamplePublish(context: Option<IdempotencyContext>): PublishCommand {
    PublishCommand(Id("draft", 1), "u", 0, context)
  }

  function SampleContext(): IdempotencyContext {
    IdempotencyContext("o", "i", "h")
  }

  lemma SampleCommandsAreValid(context: Option<IdempotencyContext>)
    requires context.None? || context == Some(SampleContext())
    ensures ValidCreate(SampleCreate(context)) && ValidPublish(SamplePublish(context))
  {
    NotBlank("n");
    NotBlank("e");
    NotBlank("g");
    NotBlank("k");
    NotBlank("u");
    NotBlank("o");
    NotBlank("i");
    NotBlank("h");
    NotBlank(Id("draft", 1));
  }

  function DraftedStore(context: Option<IdempotencyContext>): Store {
    EmptyStore.(nextSequence := 1,
                drafts := map[Id("draft", 1) := ConfigDraft(Id("draft", 1), SampleCreate(None).content, "u", false)],
                idempotency := Record(map[], context, Id("draft", 1)))
  }

  lemma FirstDraft(context: Option<IdempotencyContext>)
    requires context.None? || context == Some(SampleContext())
    ensures CreateDraft(EmptyStore, SampleCreate(context)).store == DraftedStore(context)
    ensures Next(Genesis, DoCreate(SampleCreate(context))) == World(DraftedStore(context), [], [])
  {
    SampleCommandsAreValid(context);
  }

  function SampleRelease(): ConfigRelease {
    ConfigRelease(Id("release", 2), Id("draft", 1), SampleCreate(None).content, "u", 0, 1)
  }

  function PublishedStore(): Store {
    DraftedStore(None).(revision := 1, nextSequence := 2, releases := [SampleRelease()],
                        drafts := map[Id("draft", 1) := ConfigDraft(Id("draft", 1), SampleCreate(None).content, "u", true)],
                        events := [ReleaseEvent(SampleRelease(), ConfigPublished)])
  }

  lemma FirstRelease()
    ensures Publish(DraftedStore(None), SamplePublish(None)).store == PublishedStore()
    ensures var w := Next(World(DraftedStore(None), [], []), DoPublish(SamplePublish(None)));
            w.store == PublishedStore()
  {
    SampleCommandsAreValid(None);
    var s := Publish(DraftedStore(None), SamplePublish(None)).store;
    assert s.drafts == PublishedStore().drafts;
    assert s.releases == [SampleRelease()];
    assert s.events == PublishedStore().events;
  }

  function SampleReader(): ConfigQuery {
    ConfigQuery("n", "e", "a", "s", "g")
  }

  function ReaderWatch(): WatchQuery {
    ConfigWatchQuery(SampleReader(), 0, 10)
  }

  lemma ReaderIsValid()
    ensures ValidWatch(ReaderWatch()) && ValidQuery(ReaderWatch())
  {
    NotBlank("n");
    NotBlank("e");
    NotBlank("a");
    NotBlank("s");
    NotBlank("g");
  }

  function ReleaseMoves(): seq<Move> {
    [Mutate(DoCreate(SampleCreate(None))), Mutate(DoPublish(SamplePublish(None))), Poll]
  }

  lemma ReleasedRun(q: WatchQuery)
    ensures var sys := Run(ConfigWatch, q, ReleaseMoves()[..2]);
            sys.world.store == PublishedStore() && sys.stream == Begin(ConfigWatch, q)
  {
    var moves := ReleaseMoves();
    assert moves[..0] == [];
    MutateRun(ConfigWatch, q, moves, 0);
    FirstDraft(None);
    MutateRun(ConfigWatch, q, moves, 1);
    FirstRelease();
  }

  lemma ReaderFindsNothing()
    ensures Watch(ReaderWatch(), PublishedStore().events) == Ok([]) && Matching(ReaderWatch(), PublishedStore().events) == []
  {
    ReaderIsValid();
    assert !Matches(ReaderWatch(), ReleaseEvent(SampleRelease(), ConfigPublished));
  }

  lemma ReaderSeesRelease()
    ensures Fold(SampleReader(), []).values == map[]
    ensures Fold(SampleReader(), PublishedStore().releases).values == map["k" := ValueOf(SampleRelease())]
  {
    assert Applies(SampleReader(), SampleRelease());
    assert [SampleRelease()][..0] == [];
  }

  /** Create and publish a namespace-wide draft: what the reader sees has changed, and the reader's watch, open and
      caught up, has delivered nothing. */
  lemma NamespaceReleaseIsUntold()
    ensures var sys := Run(ConfigWatch, ReaderWatch(), ReleaseMoves());
            && ValidWatch(ReaderWatch()) && sys.stream.open && CaughtUp(sys) && sys.stream.sent == []
            && Fold(SampleReader(), sys.world.store.releases).values != Fold(SampleReader(), []).values
  {
    var q, moves := ReaderWatch(), ReleaseMoves();
    ReaderIsValid();
    ReleasedRun(q);
    ReaderFindsNothing();
    assert moves[..|moves| - 1] == moves[..2];
    EmptyPoll(Run(ConfigWatch, q, moves[..2]));
    ReaderSeesRelease();
  }

  // ---------- one context for two kinds of request ----------

  /** Create a draft and publish it under the same context: the publish finds the creation's record and no release. */
  lemma SharedOperationIdLosesTarget()
    ensures var ops := [DoCreate(SampleCreate(Some(SampleContext()))), DoPublish(SamplePublish(Some(SampleContext())))];
            && Creates(Exec(ops[..0]).store, ops[0]) && !SameFamily(ops[0], ops[1])
            && Answer(Exec(ops[..1]).store, ops[1]) == Err(InvalidConfig)
  {
    var context := Some(SampleContext());
    var ops := [DoCreate(SampleCreate(context)), DoPublish(SamplePublish(context))];
    FirstDraft(context);
    SampleCommandsAreValid(context);
    assert ops[..0] == [];
    ExecStep(ops, 0);
    assert DraftedStore(context).drafts.Keys == {Id("draft", 1)};
  }

  // ---------- a batch that stops halfway ----------

  /** Deregister the registered instance and one without an id in one batch: the batch is refused, and the instance is
      gone all the same. */
  lemma RefusedBatchRemoves()
    ensures var s := Exec([DoRegister(Sample("a"))]).store;
            var op := DoDeregisterAll("n", "e", "a", ["x", ""], 0);
            && Untold(s, op) && ReplyOf(s, op) == Removed(Err(InvalidArgument))
            && Sample("a").key in s.instances && Sample("a").key !in Apply(s, op).instances
  {
    var ids := ["x", ""];
    assert [DoRegister(Sample("a"))][..0] == [];
    assert Exec([DoRegister(Sample("a"))]).store == FirstStore() by { FirstRegistration(); }
    SampleIsValid("a");
    assert ids[..1] == ["x"] && AllNamed("n", "e", "a", ids[..1]) && !NamedInFull(InstanceKey("n", "e", "a", ids[1]));
    assert TakesLive(FirstStore(), "n", "e", "a", ids, 0, 0);
    assert TakesLive(FirstStore(), "n", "e", "a", ids[..1], 0, 0);
    HalfwayMeansLiveBefore(FirstStore(), "n", "e", "a", ids, 0, 1);
    FailedBatchStore(FirstStore(), "n", "e", "a", ids, 0, 1);
    BatchTakesLive(FirstStore(), "n", "e", "a", ids[..1], 0, 0);
  }
}
