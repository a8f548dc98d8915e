/** Watch streams: a cursor replaying the durable log while the store, retention, compaction and cached reads move. */
module WatchStreams {
  import opened Base
  import opened Types
  import opened EventLog
  import opened Runs
  import opened CacheKeys

  // ---------- one stream ----------

  datatype WatchKind = ServiceWatch | ConfigWatch

  /** `event_matches_service_watch` and `event_matches_config_watch`. */
  predicate Relevant(kind: WatchKind, q: WatchQuery, e: Event) {
    && Matches(q, e)
    && (match kind
        case ServiceWatch => (q.service.Some? ==> e.service == q.service) && !e.kind.IsConfig()
        case ConfigWatch => e.kind.IsConfig())
  }

  /** What the client receives. */
  datatype Item = Delivered(event: Event) | Heartbeat(cursor: nat)
  {
    function Revision(): nat {
      match this
      case Delivered(e) => e.revision
      case Heartbeat(r) => r
    }
  }

  datatype Stream = Stream(kind: WatchKind, query: WatchQuery, cursor: nat, sent: seq<Item>, pending: seq<Event>, open: bool)

  function Begin(kind: WatchKind, q: WatchQuery): Stream {
    Stream(kind, q, q.fromRevision, [], [], true)
  }

  /** `watch_query_after`. */
  function At(q: WatchQuery, revision: nat): WatchQuery {
    q.(fromRevision := revision)
  }

  /** One round of a drain: the cursor moves over every event; a failed send ends the stream. */
  function Accept(st: Stream, e: Event, sendOk: bool): Stream {
    if e.revision <= st.cursor then st
    else if !Relevant(st.kind, st.query, e) then st.(cursor := e.revision)
    else if sendOk then st.(cursor := e.revision, sent := st.sent + [Delivered(e)])
    else st.(cursor := e.revision, open := false)
  }

  /** The stream after the next fetched event has been handled, with the send's outcome. */
  function Handle(st: Stream, ok: bool): Stream
    requires st.pending != []
  {
    Accept(st, st.pending[0], ok).(pending := st.pending[1..])
  }

  /** A whole batch, until it is used up or a send fails. */
  function Drain(st: Stream, batch: seq<Event>, sendOk: Event -> bool): Stream
    decreases |batch|
  {
    if batch == [] || !st.open then st else Drain(Accept(st, batch[0], sendOk(batch[0])), batch[1..], sendOk)
  }

  class WatchStream {
    const kind: WatchKind
    const query: WatchQuery
    var cursorRevision: nat
    var sent: seq<Item>
    var open: bool

    ghost function Value(): Stream
      reads this
    {
      Stream(kind, query, cursorRevision, sent, [], open)
    }

    constructor (kind: WatchKind, query: WatchQuery)
      ensures Value() == Begin(kind, query)
    {
      this.kind, this.query := kind, query;
      cursorRevision, sent, open := query.fromRevision, [], true;
    }

    /** `drain_persisted_service_events` and `drain_persisted_config_events`, given the fetched batch; the answer
        says that the stream ended. */
    method DrainPersistedEvents(events: seq<Event>, sendOk: Event -> bool) returns (ended: bool)
      requires open
      modifies this
      ensures Value() == Drain(old(Value()), events, sendOk)
      ensures ended <==> !open
    {
      ghost var start := Value();
      var i := 0;
      while i < |events|
        invariant 0 <= i <= |events| && open
        invariant Drain(start, events, sendOk) == Drain(Value(), events[i..], sendOk)
      {
        var event := events[i];
        assert events[i..][1..] == events[i + 1..];
        i := i + 1;
        if event.revision <= cursorRevision {
          continue;
        }
        cursorRevision := event.revision;
        if !Relevant(kind, query, event) {
          continue;
        }
        if sendOk(event) {
          sent := sent + [Delivered(event)];
        } else {
          open := false;
          return true;
        }
      }
      return false;
    }

    method SendHeartbeat(sendOk: bool) returns (ended: bool)
      requires open
      modifies this
      ensures Value() == Beat(old(Value()), sendOk) && (ended <==> !open)
    {
      if sendOk {
        sent := sent + [Heartbeat(cursorRevision)];
        return false;
      }
      open := false;
      return true;
    }
  }

  function Beat(st: Stream, sendOk: bool): Stream {
    if sendOk then st.(sent := st.sent + [Heartbeat(st.cursor)]) else st.(open := false)
  }

  // ---------- the system ----------

  /** The store's world, the cache of watch answers, and one stream; other readers only touch the cache. */
  datatype System = System(world: World, cache: map<string, seq<Event>>, stream: Stream)

  datatype Move =
    | Mutate(op: Op)              // any store operation, retention and compaction included
    | OtherRead(query: WatchQuery) // another reader's fresh answer enters the cache
    | Poll                        // the stream fetches from the store
    | PollCached                  // storage is down and the answer cached for the same query is served
    | PollFails                   // storage is down and nothing may be served: the stream ends
    | DeliverNext(sendOk: bool)   // the stream handles the next fetched event
    | SendBeat(sendOk: bool)

  function Remember(cache: map<string, seq<Event>>, q: WatchQuery, events: seq<Event>): map<string, seq<Event>> {
    match Watch(q, events)
    case Ok(batch) => cache[WatchKey(q) := batch]
    case Err(_) => cache
  }

  ghost function After(sys: System, move: Move): System {
    var st, w := sys.stream, sys.world;
    var q := At(st.query, st.cursor);
    match move
    case Mutate(op) => sys.(world := Next(w, op))
    case OtherRead(other) => if ValidWatch(other) then sys.(cache := Remember(sys.cache, other, w.store.events)) else sys
    case Poll =>
      if !st.open || st.pending != [] then sys
      else
        (match Watch(q, w.store.events)
         case Ok(batch) => sys.(cache := Remember(sys.cache, q, w.store.events), stream := st.(pending := batch))
         case Err(_) => sys.(stream := st.(open := false)))
    case PollCached =>
      if !st.open || st.pending != [] || WatchKey(q) !in sys.cache then sys
      else sys.(stream := st.(pending := sys.cache[WatchKey(q)]))
    case PollFails => sys.(stream := st.(open := false))
    case DeliverNext(ok) =>
      if !st.open || st.pending == [] then sys
      else sys.(stream := Handle(st, ok))
    case SendBeat(ok) => if !st.open then sys else sys.(stream := Beat(st, ok))
  }

  ghost function Run(kind: WatchKind, q: WatchQuery, moves: seq<Move>): System {
    if moves == [] then System(Genesis, map[], Begin(kind, q))
    else After(Run(kind, q, moves[..|moves| - 1]), moves[|moves| - 1])
  }

  // ---------- batches ----------

  /** A batch answers a query: matching events of the history in order, with every still-logged match up to its end. */
  ghost predicate Batch(q: WatchQuery, batch: seq<Event>, w: World) {
    && Ascending(batch)
    && (forall e :: e in batch ==> Matches(q, e) && e in w.history)
    && (forall e :: e in w.store.events && Matches(q, e) && batch != [] && e.revision <= batch[|batch| - 1].revision ==>
          e in batch)
  }

  /** The history grew at its end and the log holds nothing that is neither old nor new. */
  ghost predicate LogMoves(w: World, w': World) {
    && w.history <= w'.history && Ascending(w'.history)
    && (forall e :: e in w'.store.events ==> e in w.store.events || e in w'.history[|w.history|..])
  }

  lemma GrowthMovesLog(w: World, w': World)
    requires w.store.events <= w'.store.events && Ascending(w'.history)
    requires w'.history == w.history + w'.store.events[|w.store.events|..]
    ensures LogMoves(w, w')
  {
    var fresh' := w'.store.events[|w.store.events|..];
    assert w'.store.events == w.store.events + fresh' && w'.history[|w.history|..] == fresh';
  }

  lemma StepMovesLog(w: World, op: Op)
    requires RegistryInv(w.store, w.history)
    ensures LogMoves(w, Next(w, op)) && RegistryInv(Next(w, op).store, Next(w, op).history)
  {
    StepKeepsRegistryInv(w, op);
    if op.Trims() {
      TrimKeepsInv(w.store, w.history, op);
    } else {
      GrowthMovesLog(w, Next(w, op));
    }
  }

  lemma NewEventsAreLater(w: World, w': World, older: Event, e: Event)
    requires LogMoves(w, w') && older in w.history && e in w'.history[|w.history|..]
    ensures older.revision < e.revision
  {
    var i :| 0 <= i < |w.history| && w.history[i] == older;
    var j :| 0 <= j < |w'.history[|w.history|..]| && w'.history[|w.history|..][j] == e;
    assert w'.history[i] == older && w'.history[|w.history| + j] == e;
  }

  lemma BatchStays(q: WatchQuery, batch: seq<Event>, w: World, w': World)
    requires Batch(q, batch, w) && LogMoves(w, w')
    ensures Batch(q, batch, w')
  {
    forall e | e in w'.store.events && Matches(q, e) && batch != [] && e.revision <= batch[|batch| - 1].revision
      ensures e in batch
    {
      if e !in w.store.events {
        NewEventsAreLater(w, w', batch[|batch| - 1], e);
      }
    }
  }

  lemma FreshAnswerIsBatch(q: WatchQuery, w: World)
    requires RegistryInv(w.store, w.history) && Watch(q, w.store.events).Ok?
    ensures Batch(q, Watch(q, w.store.events).value, w)
  {
    var all, batch := Matching(q, w.store.events), Watch(q, w.store.events).value;
    MatchingIsExact(q, w.store.events);
    assert forall i :: 0 <= i < |batch| ==> batch[i] == all[i];
    forall e | e in w.store.events && Matches(q, e) && batch != [] && e.revision <= batch[|batch| - 1].revision
      ensures e in batch
    {
      var i :| 0 <= i < |all| && all[i] == e;
      assert i < |batch|;
      assert batch[i] == e;
    }
  }

  ghost predicate CacheOk(cache: map<string, seq<Event>>, w: World) {
    forall q :: ValidWatch(q) && WatchKey(q) in cache ==> Batch(q, cache[WatchKey(q)], w)
  }

  lemma RememberKeepsCache(cache: map<string, seq<Event>>, q: WatchQuery, w: World)
    requires CacheOk(cache, w) && ValidWatch(q) && RegistryInv(w.store, w.history)
    ensures CacheOk(Remember(cache, q, w.store.events), w)
  {
    if Watch(q, w.store.events).Ok? {
      FreshAnswerIsBatch(q, w);
      var cache' := Remember(cache, q, w.store.events);
      forall o | ValidWatch(o) && WatchKey(o) in cache'
        ensures Batch(o, cache'[WatchKey(o)], w)
      {
        if WatchKey(o) == WatchKey(q) {
          WatchKeyIsInjective(o, q);
        }
      }
    }
  }

  // ---------- the stream's invariant ----------

  /** Delivered revisions strictly increase past everything sent before; heartbeats never go back. */
  ghost predicate Ordered(sent: seq<Item>) {
    forall i, j :: 0 <= i < j < |sent| ==>
      if sent[j].Delivered? then sent[i].Revision() < sent[j].Revision() else sent[i].Revision() <= sent[j].Revision()
  }

  ghost predicate Grounded(st: Stream, w: World) {
    && (forall i :: 0 <= i < |st.sent| ==> st.query.fromRevision <= st.sent[i].Revision() <= st.cursor)
    && (forall e :: Delivered(e) in st.sent ==> Relevant(st.kind, st.query, e) && e in w.history)
    && (st.cursor == st.query.fromRevision || exists e :: e in w.history && e.revision == st.cursor)
    && st.query.fromRevision <= st.cursor
  }

  /** Up to where the stream vouches for: its cursor, or what it last sent once it has ended. */
  function Bound(st: Stream): nat {
    if st.open then st.cursor
    else if st.sent == [] then st.query.fromRevision else st.sent[|st.sent| - 1].Revision()
  }

  ghost predicate Covers(st: Stream, log: seq<Event>, bound: nat) {
    forall e :: e in log && Relevant(st.kind, st.query, e) && e.revision <= bound ==> Delivered(e) in st.sent
  }

  ghost predicate StreamOk(st: Stream, w: World) {
    && Ordered(st.sent) && Grounded(st, w) && Covers(st, w.store.events, Bound(st))
    && (st.open ==> Batch(At(st.query, st.cursor), st.pending, w))
  }

  ghost predicate SystemInv(sys: System) {
    && RegistryInv(sys.world.store, sys.world.history)
    && ValidWatch(sys.stream.query)
    && CacheOk(sys.cache, sys.world)
    && StreamOk(sys.stream, sys.world)
  }

  lemma StreamStays(st: Stream, w: World, w': World)
    requires StreamOk(st, w) && LogMoves(w, w')
    ensures StreamOk(st, w')
  {
    if st.open {
      BatchStays(At(st.query, st.cursor), st.pending, w, w');
    }
    forall e | e in w'.store.events && Relevant(st.kind, st.query, e) && e.revision <= Bound(st)
      ensures Delivered(e) in st.sent
    {
      if e !in w.store.events {
        var older :| older in w.history && older.revision == st.cursor;
        NewEventsAreLater(w, w', older, e);
      }
    }
  }

  lemma MutateKeepsInv(sys: System, op: Op)
    requires SystemInv(sys)
    ensures SystemInv(After(sys, Mutate(op)))
  {
    var w' := Next(sys.world, op);
    StepMovesLog(sys.world, op);
    StreamStays(sys.stream, sys.world, w');
    forall q | ValidWatch(q) && WatchKey(q) in sys.cache
      ensures Batch(q, sys.cache[WatchKey(q)], w')
    {
      BatchStays(q, sys.cache[WatchKey(q)], sys.world, w');
    }
  }

  lemma EndKeepsStream(st: Stream, w: World)
    requires StreamOk(st, w)
    ensures StreamOk(st.(open := false), w)
  {
  }

  lemma BeatKeepsStream(st: Stream, w: World, ok: bool)
    requires StreamOk(st, w) && st.open
    ensures StreamOk(Beat(st, ok), w)
  {
    if ok {
      var sent := Beat(st, ok).sent;
      assert forall e :: Delivered(e) in sent <==> Delivered(e) in st.sent;
    } else {
      EndKeepsStream(st, w);
    }
  }

  /** What follows the head of an ascending batch is newer than it. */
  lemma RestIsNewer(batch: seq<Event>, e: Event)
    requires Ascending(batch) && batch != []
    ensures e in batch[1..] <==> e in batch && e.revision > batch[0].revision
    ensures Ascending(batch[1..])
  {
    if e in batch[1..] {
      var i :| 0 <= i < |batch| - 1 && batch[1..][i] == e;
      assert batch[i + 1] == e;
    }
    if e in batch && e.revision > batch[0].revision {
      var i :| 0 <= i < |batch| && batch[i] == e;
      assert batch[1..][i - 1] == e;
    }
  }

  /** The rest of a batch answers the query moved past its head. */
  lemma RestIsBatch(q: WatchQuery, cursor: nat, batch: seq<Event>, w: World)
    requires Batch(At(q, cursor), batch, w) && batch != []
    ensures Batch(At(q, batch[0].revision), batch[1..], w)
  {
    var head, rest := batch[0], batch[1..];
    assert Matches(At(q, cursor), head);
    RestIsNewer(batch, head);
    forall e | e in rest ensures Matches(At(q, head.revision), e) && e in w.history {
      RestIsNewer(batch, e);
      assert Matches(At(q, cursor), e);
    }
    forall e | e in w.store.events && Matches(At(q, head.revision), e) && rest != [] && e.revision <= rest[|rest| - 1].revision
      ensures e in rest
    {
      assert Matches(At(q, cursor), e) && rest[|rest| - 1] == batch[|batch| - 1];
      RestIsNewer(batch, e);
    }
  }

  /** Nothing relevant is logged between the cursor and the head of the batch. */
  lemma HeadIsNext(st: Stream, w: World, e: Event)
    requires StreamOk(st, w) && st.open && st.pending != []
    requires e in w.store.events && Relevant(st.kind, st.query, e) && e.revision <= st.pending[0].revision
    ensures e == st.pending[0] || Delivered(e) in st.sent
  {
    if e.revision > st.cursor {
      assert Matches(At(st.query, st.cursor), e);
      assert e in st.pending;
      var i :| 0 <= i < |st.pending| && st.pending[i] == e;
    }
  }

  lemma HandleGrounds(st: Stream, w: World, ok: bool)
    requires StreamOk(st, w) && st.open && st.pending != []
    ensures Ordered(Handle(st, ok).sent) && Grounded(Handle(st, ok), w)
  {
    var head := st.pending[0];
    assert Matches(At(st.query, st.cursor), head) && head in w.history;
  }

  lemma HandleCovers(st: Stream, w: World, ok: bool)
    requires StreamOk(st, w) && st.open && st.pending != []
    ensures Covers(Handle(st, ok), w.store.events, Bound(Handle(st, ok)))
  {
    var head, st' := st.pending[0], Handle(st, ok);
    assert Matches(At(st.query, st.cursor), head);
    assert st.sent <= st'.sent;
    assert st'.open && Relevant(st.kind, st.query, head) ==> st'.sent[|st.sent|] == Delivered(head);
    forall e | e in w.store.events && Relevant(st.kind, st.query, e) && e.revision <= Bound(st')
      ensures Delivered(e) in st'.sent
    {
      if st'.open {
        HeadIsNext(st, w, e);
      } else {
        assert Bound(st') <= st.cursor;
      }
    }
  }

  lemma HandleKeepsStream(st: Stream, w: World, ok: bool)
    requires StreamOk(st, w) && st.open && st.pending != []
    ensures StreamOk(Handle(st, ok), w)
  {
    HandleGrounds(st, w, ok);
    HandleCovers(st, w, ok);
    RestIsBatch(st.query, st.cursor, st.pending, w);
    assert Matches(At(st.query, st.cursor), st.pending[0]);
  }

  lemma FetchKeepsStream(st: Stream, w: World, batch: seq<Event>)
    requires StreamOk(st, w) && st.open && Batch(At(st.query, st.cursor), batch, w)
    ensures StreamOk(st.(pending := batch), w)
  {
  }

  lemma PollKeepsInv(sys: System)
    requires SystemInv(sys) && sys.stream.open && sys.stream.pending == []
    ensures SystemInv(After(sys, Poll))
  {
    var st, w := sys.stream, sys.world;
    var q := At(st.query, st.cursor);
    if Watch(q, w.store.events).Ok? {
      RememberKeepsCache(sys.cache, q, w);
      FreshAnswerIsBatch(q, w);
      FetchKeepsStream(st, w, Watch(q, w.store.events).value);
    } else {
      EndKeepsStream(st, w);
    }
  }

  lemma ReadKeepsInv(sys: System, q: WatchQuery)
    requires SystemInv(sys)
    ensures SystemInv(After(sys, OtherRead(q)))
  {
    if ValidWatch(q) {
      RememberKeepsCache(sys.cache, q, sys.world);
    }
  }

  lemma CachedPollKeepsInv(sys: System)
    requires SystemInv(sys)
    ensures SystemInv(After(sys, PollCached))
  {
    var st := sys.stream;
    var q := At(st.query, st.cursor);
    if st.open && st.pending == [] && WatchKey(q) in sys.cache {
      FetchKeepsStream(st, sys.world, sys.cache[WatchKey(q)]);
    }
  }

  lemma SendKeepsInv(sys: System, move: Move)
    requires SystemInv(sys) && (move.PollFails? || move.DeliverNext? || move.SendBeat?)
    ensures SystemInv(After(sys, move))
  {
    var st, w := sys.stream, sys.world;
    match move
    case PollFails => EndKeepsStream(st, w);
    case DeliverNext(ok) => if st.open && st.pending != [] { HandleKeepsStream(st, w, ok); }
    case SendBeat(ok) => if st.open { BeatKeepsStream(st, w, ok); }
  }

  lemma MoveKeepsInv(sys: System, move: Move)
    requires SystemInv(sys)
    ensures SystemInv(After(sys, move))
  {
    match move
    case Mutate(op) => MutateKeepsInv(sys, op);
    case OtherRead(q) => ReadKeepsInv(sys, q);
    case Poll => if sys.stream.open && sys.stream.pending == [] { PollKeepsInv(sys); }
    case PollCached => CachedPollKeepsInv(sys);
    case _ => SendKeepsInv(sys, move);
  }

  lemma {:induction false} EveryRunKeepsSystemInv(kind: WatchKind, q: WatchQuery, moves: seq<Move>)
    requires ValidWatch(q)
    ensures SystemInv(Run(kind, q, moves))
  {
    if moves != [] {
      EveryRunKeepsSystemInv(kind, q, moves[..|moves| - 1]);
      MoveKeepsInv(Run(kind, q, moves[..|moves| - 1]), moves[|moves| - 1]);
    }
  }

  // ---------- nothing lost, nothing repeated ----------

  lemma MoveKeepsQuery(sys: System, move: Move)
    ensures After(sys, move).stream.kind == sys.stream.kind && After(sys, move).stream.query == sys.stream.query
  {
    match move
    case Mutate(_) =>
    case _ =>
  }

  lemma {:induction false} StreamKeepsItsQuery(kind: WatchKind, q: WatchQuery, moves: seq<Move>)
    ensures Run(kind, q, moves).stream.kind == kind && Run(kind, q, moves).stream.query == q
  {
    if moves != [] {
      StreamKeepsItsQuery(kind, q, moves[..|moves| - 1]);
      MoveKeepsQuery(Run(kind, q, moves[..|moves| - 1]), moves[|moves| - 1]);
    }
  }

  /** The items up to any one of them are exactly the relevant logged events up to its revision. */
  lemma ItemsCoverPrefix(st: Stream, w: World, p: nat, e: Event)
    requires StreamOk(st, w) && p < |st.sent| && e in w.store.events && Relevant(st.kind, st.query, e)
    ensures Delivered(e) in st.sent[..p + 1] <==> e.revision <= st.sent[p].Revision()
  {
    var r := st.sent[p].Revision();
    assert forall i :: 0 <= i <= p ==> st.sent[i].Revision() <= r;
    if e.revision <= r {
      assert r <= Bound(st);
      assert Delivered(e) in st.sent;
      var i :| 0 <= i < |st.sent| && st.sent[i] == Delivered(e);
      assert i <= p;
      assert st.sent[..p + 1][i] == Delivered(e);
    }
  }

  /** In every interleaving, a client that reconnects at the revision of any item it received, event or heartbeat,
      misses and repeats nothing still logged: a relevant logged event is among the items up to that one exactly when
      the new stream would not deliver it. */
  lemma ReconnectLosesNothing(kind: WatchKind, q: WatchQuery, moves: seq<Move>, p: nat, e: Event)
    requires ValidWatch(q) && p < |Run(kind, q, moves).stream.sent|
    requires e in Run(kind, q, moves).world.store.events && Relevant(kind, q, e)
    ensures var sent := Run(kind, q, moves).stream.sent;
            Delivered(e) in sent[..p + 1] <==> !Relevant(kind, At(q, sent[p].Revision()), e)
  {
    EveryRunKeepsSystemInv(kind, q, moves);
    StreamKeepsItsQuery(kind, q, moves);
    ItemsCoverPrefix(Run(kind, q, moves).stream, Run(kind, q, moves).world, p, e);
  }

  /** Delivered revisions strictly increase and stay above the starting revision. */
  lemma DeliveriesIncrease(kind: WatchKind, q: WatchQuery, moves: seq<Move>, i: nat, j: nat)
    requires ValidWatch(q) && i < j < |Run(kind, q, moves).stream.sent|
    requires Run(kind, q, moves).stream.sent[i].Delivered? && Run(kind, q, moves).stream.sent[j].Delivered?
    ensures var sent := Run(kind, q, moves).stream.sent;
            q.fromRevision < sent[i].event.revision < sent[j].event.revision
  {
    EveryRunKeepsSystemInv(kind, q, moves);
    StreamKeepsItsQuery(kind, q, moves);
    var sent := Run(kind, q, moves).stream.sent;
    assert Delivered(sent[i].event) in sent;
  }

  /** In every interleaving, what a client is sent was logged, is newer than where it started, is of the watched kind and
      passes every filter; an event without a service passes the service filter of a configuration watch only. */
  lemma DeliveriesMatchTheWatch(kind: WatchKind, q: WatchQuery, moves: seq<Move>, e: Event)
    requires ValidWatch(q) && Delivered(e) in Run(kind, q, moves).stream.sent
    ensures e in Run(kind, q, moves).world.history && e.revision > q.fromRevision
    ensures e.namespace == q.namespace && e.environment == q.environment
    ensures e.kind in {ConfigPublished, ConfigRolledBack} <==> kind.ConfigWatch?
    ensures q.service.Some? ==> e.service == q.service || (kind.ConfigWatch? && e.service.None?)
    ensures (q.group.Some? ==> e.group == q.group) && (q.application.Some? ==> e.application == q.application)
  {
    EveryRunKeepsSystemInv(kind, q, moves);
    StreamKeepsItsQuery(kind, q, moves);
  }

  /** Whatever batch a stream is given, ordered or not, with repeats or events long passed, draining it delivers only
      events past the cursor it had, each newer than the one before. */
  lemma {:induction false} DrainNeverRepeats(st: Stream, batch: seq<Event>, sendOk: Event -> bool)
    ensures var end := Drain(st, batch, sendOk);
            && st.sent <= end.sent && st.cursor <= end.cursor
            && (forall i :: |st.sent| <= i < |end.sent| ==>
                  end.sent[i].Delivered? && st.cursor < end.sent[i].Revision() <= end.cursor)
            && (forall i, j :: |st.sent| <= i < j < |end.sent| ==> end.sent[i].Revision() < end.sent[j].Revision())
    decreases |batch|
  {
    if batch != [] && st.open {
      DrainNeverRepeats(Accept(st, batch[0], sendOk(batch[0])), batch[1..], sendOk);
    }
  }
}
