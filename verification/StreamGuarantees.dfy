/** What a watch stream guarantees once it has caught up: it drains in finitely many polls, and what it delivered
    rebuilds the registry. */
module StreamGuarantees {
  import opened Base
  import opened Types
  import opened EventLog
  import opened Runs
  import opened Configs
  import ConfigRuns
  import opened CacheKeys
  import opened EffectiveConfigs
  import opened Pagination
  import opened WatchStreams
  import opened CompactedLogs

  lemma {:induction false} AscendingIsUnique(a: seq<Event>, b: seq<Event>)
    requires Ascending(a) && Ascending(b) && forall e :: e in a <==> e in b
    ensures a == b
  {
    assert a != [] ==> a[0] in b;
    assert b != [] ==> b[0] in a;
    if a != [] {
      var x, p, q := a[0], a[1..], b[1..];
      assert a == [x] + p;
      assert b == [b[0]] + q;
      assert x == b[0];
      assert forall i :: 0 <= i < |p| ==> p[i] == a[i + 1] && p[i].revision > x.revision;
      assert forall i :: 0 <= i < |q| ==> q[i] == b[i + 1] && q[i].revision > x.revision;
      forall e ensures e in p <==> e in q {
        assert e in p <==> e in a && e != x;
        assert e in q <==> e in b && e != x;
      }
      AscendingIsUnique(p, q);
    }
  }

  // ---------- progress ----------

  /** The store-level matches the stream has yet to pass. */
  function Backlog(st: Stream, log: seq<Event>): seq<Event> {
    Matching(At(st.query, st.cursor), log)
  }

  /** Every send is accepted. */
  predicate Sent(e: Event) {
    true
  }

  /** One poll answered by the store, with every send accepted. */
  function PollAndDrain(st: Stream, log: seq<Event>): Stream
    requires ValidQuery(st.query)
  {
    Drain(st, Watch(At(st.query, st.cursor), log).value, Sent)
  }

  lemma {:induction false} DrainReachesEnd(st: Stream, batch: seq<Event>, sendOk: Event -> bool)
    requires st.open && Ascending(batch) && (batch != [] ==> st.cursor < batch[0].revision)
    requires forall e :: e in batch ==> sendOk(e)
    ensures var end := Drain(st, batch, sendOk);
            && end.open && end.query == st.query && end.kind == st.kind && end.pending == st.pending
            && end.cursor == if batch == [] then st.cursor else batch[|batch| - 1].revision
    decreases |batch|
  {
    if batch != [] {
      DrainReachesEnd(Accept(st, batch[0], sendOk(batch[0])), batch[1..], sendOk);
    }
  }

  /** In an ascending list the elements past position `k - 1` are those with a greater revision. */
  lemma SuffixByRevision(all: seq<Event>, k: nat, e: Event)
    requires Ascending(all) && 0 < k <= |all|
    ensures e in all[k..] <==> e in all && e.revision > all[k - 1].revision
  {
    if e in all[k..] {
      var i :| 0 <= i < |all| - k && all[k..][i] == e;
      assert all[k + i] == e;
    }
    if e in all && e.revision > all[k - 1].revision {
      var i :| 0 <= i < |all| && all[i] == e;
      assert i >= k && all[k..][i - k] == e;
    }
  }

  lemma BacklogPastCursor(q: WatchQuery, log: seq<Event>, cursor: nat, k: nat)
    requires Ascending(log) && 0 < k <= |Matching(At(q, cursor), log)|
    ensures var all := Matching(At(q, cursor), log);
            Matching(At(q, all[k - 1].revision), log) == all[k..]
  {
    var all := Matching(At(q, cursor), log);
    var bound := all[k - 1].revision;
    MatchingIsExact(At(q, cursor), log);
    assert bound > cursor by { assert all[k - 1] in all; }
    var later := Matching(At(q, bound), log);
    assert Ascending(later) && forall e :: e in later <==> e in log && Matches(At(q, bound), e) by {
      MatchingIsExact(At(q, bound), log);
    }
    forall e ensures e in all[k..] <==> e in later {
      SuffixByRevision(all, k, e);
    }
    AscendingIsUnique(all[k..], later);
  }

  /** A poll that fetches something leaves the cursor at the last event fetched. */
  lemma PollMovesCursor(st: Stream, log: seq<Event>)
    requires st.open && ValidQuery(st.query) && Ascending(log)
    ensures var batch, end := Watch(At(st.query, st.cursor), log).value, PollAndDrain(st, log);
            && end.open && end.query == st.query
            && end.cursor == if batch == [] then st.cursor else batch[|batch| - 1].revision
  {
    var q := At(st.query, st.cursor);
    var batch := Watch(q, log).value;
    MatchingIsExact(q, log);
    assert batch != [] ==> batch[0] in Matching(q, log);
    DrainReachesEnd(st, batch, Sent);
  }

  /** With no new events a poll takes the batch size, or all there is, off the front of the backlog. */
  lemma PollShrinksBacklog(st: Stream, log: seq<Event>)
    requires st.open && ValidQuery(st.query) && Ascending(log)
    ensures var all := Backlog(st, log);
            var taken := if |all| <= st.query.maxEvents then |all| else st.query.maxEvents;
            && PollAndDrain(st, log).open && PollAndDrain(st, log).query == st.query
            && Backlog(PollAndDrain(st, log), log) == all[taken..]
  {
    var all := Backlog(st, log);
    var taken := if |all| <= st.query.maxEvents then |all| else st.query.maxEvents;
    PollMovesCursor(st, log);
    if taken == 0 {
      assert all[0..] == all;
    } else {
      assert PollAndDrain(st, log).cursor == all[taken - 1].revision;
      BacklogPastCursor(st.query, log, st.cursor, taken);
    }
  }

  function Polls(st: Stream, log: seq<Event>, n: nat): (end: Stream)
    requires ValidQuery(st.query) && st.open && Ascending(log)
    ensures end.query == st.query && end.open
  {
    if n == 0 then st else
      var before := Polls(st, log, n - 1);
      PollShrinksBacklog(before, log);
      PollAndDrain(before, log)
  }

  /** So enough polls empty it, and the count after each is exact. */
  lemma {:induction false} PollsEmptyBacklog(st: Stream, log: seq<Event>, n: nat)
    requires ValidQuery(st.query) && st.open && Ascending(log)
    ensures var all, passed := |Backlog(st, log)|, Span(n, st.query.maxEvents);
            |Backlog(Polls(st, log, n), log)| == if all <= passed then 0 else all - passed
  {
    if n > 0 {
      PollsEmptyBacklog(st, log, n - 1);
      PollShrinksBacklog(Polls(st, log, n - 1), log);
    }
  }

  /** Handling the fetched events one interleaved step at a time is the drain loop. */
  function HandleAll(st: Stream, sendOk: Event -> bool): Stream
    decreases |st.pending|
  {
    if !st.open || st.pending == [] then st else HandleAll(Handle(st, sendOk(st.pending[0])), sendOk)
  }

  lemma {:induction false} HandlingIsDraining(st: Stream, sendOk: Event -> bool)
    ensures HandleAll(st, sendOk).(pending := []) == Drain(st.(pending := []), st.pending, sendOk)
    decreases |st.pending|
  {
    if st.open && st.pending != [] {
      HandlingIsDraining(Handle(st, sendOk(st.pending[0])), sendOk);
    }
  }

  predicate CaughtUp(sys: System) {
    sys.stream.pending == [] && Backlog(sys.stream, sys.world.store.events) == []
  }

  /** The stream only polls the store and delivers, and every send is accepted. */
  predicate Progress(moves: seq<Move>) {
    forall i :: 0 <= i < |moves| ==> moves[i].Poll? || moves[i] == DeliverNext(true)
  }

  ghost function Chain<S, M>(step: (S, M) -> S, s: S, moves: seq<M>): S {
    if moves == [] then s else step(Chain(step, s, moves[..|moves| - 1]), moves[|moves| - 1])
  }

  lemma {:induction false} ChainTwice<S, M>(step: (S, M) -> S, s: S, a: seq<M>, b: seq<M>)
    ensures Chain(step, s, a + b) == Chain(step, Chain(step, s, a), b)
  {
    if b == [] {
      assert a + b == a;
    } else {
      var n := |b| - 1;
      ChainTwice(step, s, a, b[..n]);
      assert (a + b)[..|a + b| - 1] == a + b[..n];
    }
  }

  lemma ChainFirst<S, M>(step: (S, M) -> S, s: S, move: M, rest: seq<M>)
    ensures Chain(step, s, [move] + rest) == Chain(step, step(s, move), rest)
  {
    ChainTwice(step, s, [move], rest);
    assert [move][..0] == [];
  }

  /** The system after more moves. */
  ghost function Continue(sys: System, moves: seq<Move>): System {
    Chain(After, sys, moves)
  }

  lemma {:induction false} RunIsChain(kind: WatchKind, q: WatchQuery, moves: seq<Move>)
    ensures Run(kind, q, moves) == Continue(Run(kind, q, []), moves)
  {
    if moves != [] {
      RunIsChain(kind, q, moves[..|moves| - 1]);
    }
  }

  lemma RunContinues(kind: WatchKind, q: WatchQuery, moves: seq<Move>, more: seq<Move>)
    ensures Run(kind, q, moves + more) == Continue(Run(kind, q, moves), more)
  {
    RunIsChain(kind, q, moves);
    RunIsChain(kind, q, moves + more);
    ChainTwice(After, Run(kind, q, []), moves, more);
  }

  lemma {:induction false} HandlingEnds(st: Stream)
    requires st.open
    ensures HandleAll(st, Sent).open && HandleAll(st, Sent).pending == [] && HandleAll(st, Sent).query == st.query
    decreases |st.pending|
  {
    if st.pending != [] {
      HandlingEnds(Handle(st, Sent(st.pending[0])));
    }
  }

  function Deliveries(n: nat): seq<Move> {
    if n == 0 then [] else [DeliverNext(true)] + Deliveries(n - 1)
  }

  lemma {:induction false} DeliveriesProgress(n: nat)
    ensures Progress(Deliveries(n))
  {
    if n > 0 {
      DeliveriesProgress(n - 1);
    }
  }

  lemma DeliverMove(sys: System)
    requires sys.stream.open && sys.stream.pending != []
    ensures After(sys, DeliverNext(true)) == sys.(stream := Handle(sys.stream, true))
  {
  }

  lemma {:induction false} DeliverPending(sys: System)
    requires sys.stream.open
    ensures Continue(sys, Deliveries(|sys.stream.pending|)) == sys.(stream := HandleAll(sys.stream, Sent))
    decreases |sys.stream.pending|
  {
    if sys.stream.pending != [] {
      DeliverMove(sys);
      assert Sent(sys.stream.pending[0]);
      DeliverPending(sys.(stream := Handle(sys.stream, true)));
      ChainFirst(After, sys, DeliverNext(true), Deliveries(|sys.stream.pending| - 1));
    }
  }

  lemma PollMove(sys: System)
    requires sys.stream.open && sys.stream.pending == [] && ValidQuery(sys.stream.query)
    ensures var batch := Watch(At(sys.stream.query, sys.stream.cursor), sys.world.store.events).value;
            After(sys, Poll).world == sys.world && After(sys, Poll).stream == sys.stream.(pending := batch)
  {
  }

  /** One poll and the deliveries it leads to. */
  function Round(sys: System): seq<Move>
    requires ValidQuery(sys.stream.query)
  {
    [Poll] + Deliveries(|Watch(At(sys.stream.query, sys.stream.cursor), sys.world.store.events).value|)
  }

  lemma RoundDrains(sys: System)
    requires sys.stream.open && sys.stream.pending == [] && ValidQuery(sys.stream.query)
    ensures var end := Continue(sys, Round(sys));
            && end.world == sys.world && end.stream == PollAndDrain(sys.stream, sys.world.store.events)
            && end.stream.pending == []
    ensures Progress(Round(sys))
  {
    var fetched := After(sys, Poll);
    PollMove(sys);
    DeliverPending(fetched);
    HandlingEnds(fetched.stream);
    HandlingIsDraining(fetched.stream, Sent);
    assert fetched.stream.(pending := []) == sys.stream;
    ChainFirst(After, sys, Poll, Deliveries(|fetched.stream.pending|));
    DeliveriesProgress(|fetched.stream.pending|);
  }

  lemma CatchUpFromIdle(sys: System) returns (more: seq<Move>)
    requires sys.stream.open && sys.stream.pending == [] && ValidQuery(sys.stream.query)
    requires Ascending(sys.world.store.events)
    ensures Progress(more)
    ensures var end := Continue(sys, more); end.world == sys.world && end.stream.open && CaughtUp(end)
    decreases |Backlog(sys.stream, sys.world.store.events)|
  {
    if CaughtUp(sys) {
      more := [];
    } else {
      RoundDrains(sys);
      PollShrinksBacklog(sys.stream, sys.world.store.events);
      var rest := CatchUpFromIdle(Continue(sys, Round(sys)));
      ChainTwice(After, sys, Round(sys), rest);
      more := Round(sys) + rest;
    }
  }

  /** From every run whose stream is open, finitely many polls and deliveries, with no help from the store, reach an
      open stream that has caught up with the same world. */
  lemma EveryOpenStreamCanCatchUp(kind: WatchKind, q: WatchQuery, moves: seq<Move>) returns (more: seq<Move>)
    requires ValidWatch(q) && q.maxEvents > 0 && Run(kind, q, moves).stream.open
    ensures Progress(more)
    ensures var sys, end := Run(kind, q, moves), Run(kind, q, moves + more);
            end.world == sys.world && end.stream.open && CaughtUp(end)
  {
    var sys := Run(kind, q, moves);
    var first := Deliveries(|sys.stream.pending|);
    DeliverPending(sys);
    DeliveriesProgress(|sys.stream.pending|);
    HandlingEnds(sys.stream);
    assert sys.stream.query == q by { StreamKeepsItsQuery(kind, q, moves); }
    assert Ascending(sys.world.store.events) by { EveryRunKeepsSystemInv(kind, q, moves); }
    var rest := CatchUpFromIdle(Continue(sys, first));
    more := first + rest;
    ChainTwice(After, sys, first, rest);
    RunContinues(kind, q, moves, more);
  }

  // ---------- completeness over the whole history ----------

  /** A move that trims the log does so behind the stream: below its cursor, outside its scope, or when it has
      caught up. */
  predicate Careful(sys: System, move: Move) {
    move.Mutate? && move.op.Trims() ==>
      || CaughtUp(sys)
      || (move.op.DoCollect? && move.op.beforeRevision <= sys.stream.cursor)
      || (move.op.DoCompact? && (move.op.namespace != sys.stream.query.namespace
                                 || move.op.environment != sys.stream.query.environment))
  }

  ghost predicate CarefulRun(kind: WatchKind, q: WatchQuery, moves: seq<Move>) {
    forall i :: 0 <= i < |moves| ==> Careful(Run(kind, q, moves[..i]), moves[i])
  }

  /** `run_event_gc`: collect up to the current revision less the retention count. */
  function EventGc(revision: nat, retention: nat, batchSize: nat): Op {
    DoCollect(if revision >= retention then revision - retention else 0, batchSize)
  }

  /** A stream that has caught up, or trails the store by no more than the retention count, is never overtaken by it. */
  lemma RetentionIsCareful(sys: System, retention: nat, batchSize: nat)
    requires CaughtUp(sys) || sys.world.store.revision <= sys.stream.cursor + retention
    ensures Careful(sys, Mutate(EventGc(sys.world.store.revision, retention, batchSize)))
  {
  }

  /** What one retention pass keeps, exactly: the events of the last `retention` revisions, and those it had no room to
      delete. */
  lemma RetentionKeepsExactly(s: Store, h: seq<Event>, retention: nat, batchSize: nat, i: nat)
    requires LogOk(s, h) && i < |s.events|
    ensures s.events[i] in Apply(s, EventGc(s.revision, retention, batchSize)).events <==>
            s.events[i].revision + retention > s.revision || i >= batchSize
  {
    assert s.events[i].revision > 0;
    var op := EventGc(s.revision, retention, batchSize);
    CollectionKeepsExactly(s.events, op.beforeRevision, batchSize, i);
  }

  /** Every relevant event of the history is still logged or has been delivered. */
  ghost predicate NothingMissed(sys: System) {
    forall e :: e in sys.world.history && Relevant(sys.stream.kind, sys.stream.query, e) ==>
      e in sys.world.store.events || Delivered(e) in sys.stream.sent
  }

  lemma PassedIsDelivered(sys: System, e: Event)
    requires SystemInv(sys) && sys.stream.open
    requires e in sys.world.store.events && Relevant(sys.stream.kind, sys.stream.query, e)
    requires e.revision <= sys.stream.cursor || CaughtUp(sys)
    ensures Delivered(e) in sys.stream.sent
  {
    if e.revision > sys.stream.cursor {
      MatchingIsExact(At(sys.stream.query, sys.stream.cursor), sys.world.store.events);
      assert Matches(At(sys.stream.query, sys.stream.cursor), e);
    }
  }

  lemma CollectedIsOld(events: seq<Event>, bound: nat, max: nat, e: Event)
    requires Ascending(events) && e in events && e !in Collected(events, bound, max)
    ensures e.revision <= bound
  {
    WithoutIsExact(events, Collectable(events, bound, max));
    var i :| 0 <= i < |events| && events[i] == e;
    assert i in Collectable(events, bound, max);
  }

  lemma CompactedIsInScope(events: seq<Event>, ns: string, env: string, max: nat, e: Event)
    requires Ascending(events) && e in events && e !in Compacted(events, ns, env, max)
    ensures InScope(e, ns, env)
  {
    WithoutIsExact(events, Superseded(events, ns, env, max));
    var i :| 0 <= i < |events| && events[i] == e;
    assert i in Superseded(events, ns, env, max);
  }

  lemma TrimMissesNothing(sys: System, op: Op)
    requires SystemInv(sys) && sys.stream.open && NothingMissed(sys) && op.Trims() && Careful(sys, Mutate(op))
    ensures NothingMissed(After(sys, Mutate(op)))
  {
    var s, st := sys.world.store, sys.stream;
    forall e | e in s.events && Relevant(st.kind, st.query, e) && e !in Apply(s, op).events
      ensures Delivered(e) in st.sent
    {
      if op.DoCollect? {
        CollectedIsOld(s.events, op.beforeRevision, op.maxDeletes, e);
      } else {
        CompactedIsInScope(s.events, op.namespace, op.environment, op.maxPerResource, e);
      }
      PassedIsDelivered(sys, e);
    }
  }

  /** Every other operation adds the same events to the log and the history. */
  lemma GrowthExtends(w: World, op: Op)
    requires RegistryInv(w.store, w.history) && !op.Trims()
    ensures var w', n := Next(w, op), |w.store.events|;
            && n <= |w'.store.events|
            && w'.store.events == w.store.events + w'.store.events[n..]
            && w'.history == w.history + w'.store.events[n..]
  {
    StepKeepsRegistryInv(w, op);
  }

  lemma GrowthMissesNothing(sys: System, op: Op)
    requires SystemInv(sys) && NothingMissed(sys) && !op.Trims()
    ensures NothingMissed(After(sys, Mutate(op)))
  {
    GrowthExtends(sys.world, op);
  }

  lemma StreamMoveMissesNothing(sys: System, move: Move)
    requires NothingMissed(sys) && !move.Mutate?
    ensures NothingMissed(After(sys, move))
  {
    assert After(sys, move).world == sys.world;
    assert sys.stream.sent <= After(sys, move).stream.sent;
  }

  lemma OpenedBefore(sys: System, move: Move)
    requires After(sys, move).stream.open
    ensures sys.stream.open
  {
    match move
    case Mutate(_) =>
    case _ =>
  }

  lemma {:induction false} CarefulRunsMissNothing(kind: WatchKind, q: WatchQuery, moves: seq<Move>)
    requires ValidWatch(q) && CarefulRun(kind, q, moves) && Run(kind, q, moves).stream.open
    ensures NothingMissed(Run(kind, q, moves))
  {
    if moves != [] {
      var n := |moves| - 1;
      var sys, move := Run(kind, q, moves[..n]), moves[n];
      OpenedBefore(sys, move);
      forall i | 0 <= i < n ensures Careful(Run(kind, q, moves[..n][..i]), moves[..n][i]) {
        assert moves[..n][..i] == moves[..i];
        assert Careful(Run(kind, q, moves[..i]), moves[i]);
      }
      CarefulRunsMissNothing(kind, q, moves[..n]);
      EveryRunKeepsSystemInv(kind, q, moves[..n]);
      assert Careful(Run(kind, q, moves[..n]), moves[n]);
      if !move.Mutate? {
        StreamMoveMissesNothing(sys, move);
      } else if move.op.Trims() {
        TrimMissesNothing(sys, move.op);
      } else {
        GrowthMissesNothing(sys, move.op);
      }
    }
  }

  ghost function EventsOf(sent: seq<Item>): seq<Event> {
    if sent == [] then [] else
      var n := |sent| - 1;
      EventsOf(sent[..n]) + if sent[n].Delivered? then [sent[n].event] else []
  }

  ghost function RelevantOf(kind: WatchKind, q: WatchQuery, h: seq<Event>): seq<Event> {
    if h == [] then [] else
      var n := |h| - 1;
      RelevantOf(kind, q, h[..n]) + if Relevant(kind, q, h[n]) then [h[n]] else []
  }

  lemma {:induction false} EventsOfIsExact(sent: seq<Item>)
    requires Ordered(sent)
    ensures forall e :: e in EventsOf(sent) <==> Delivered(e) in sent
    ensures Ascending(EventsOf(sent))
  {
    if sent != [] {
      var n := |sent| - 1;
      EventsOfIsExact(sent[..n]);
      assert sent == sent[..n] + [sent[n]];
      forall i | 0 <= i < |EventsOf(sent[..n])| && sent[n].Delivered?
        ensures EventsOf(sent[..n])[i].revision < sent[n].event.revision
      {
        assert Delivered(EventsOf(sent[..n])[i]) in sent[..n];
      }
    }
  }

  lemma {:induction false} RelevantOfIsExact(kind: WatchKind, q: WatchQuery, h: seq<Event>)
    requires Ascending(h)
    ensures forall e :: e in RelevantOf(kind, q, h) <==> e in h && Relevant(kind, q, e)
    ensures Ascending(RelevantOf(kind, q, h))
  {
    if h != [] {
      var n := |h| - 1;
      RelevantOfIsExact(kind, q, h[..n]);
      assert h == h[..n] + [h[n]];
      forall i | 0 <= i < |RelevantOf(kind, q, h[..n])|
        ensures RelevantOf(kind, q, h[..n])[i].revision < h[n].revision
      {
        assert RelevantOf(kind, q, h[..n])[i] in h[..n];
      }
    }
  }

  /** An open stream that has caught up, in a run that only trims behind it, has delivered exactly the relevant
      events of the whole history, in order, including those the log no longer holds. */
  lemma CaughtUpStreamDeliveredAll(kind: WatchKind, q: WatchQuery, moves: seq<Move>)
    requires ValidWatch(q) && CarefulRun(kind, q, moves)
    requires Run(kind, q, moves).stream.open && CaughtUp(Run(kind, q, moves))
    ensures EventsOf(Run(kind, q, moves).stream.sent) == RelevantOf(kind, q, Run(kind, q, moves).world.history)
  {
    var sys := Run(kind, q, moves);
    EveryRunKeepsSystemInv(kind, q, moves);
    StreamKeepsItsQuery(kind, q, moves);
    CarefulRunsMissNothing(kind, q, moves);
    EventsOfIsExact(sys.stream.sent);
    RelevantOfIsExact(kind, q, sys.world.history);
    forall e | e in sys.world.history && Relevant(kind, q, e)
      ensures Delivered(e) in sys.stream.sent
    {
      if e in sys.world.store.events {
        PassedIsDelivered(sys, e);
      }
    }
    AscendingIsUnique(EventsOf(sys.stream.sent), RelevantOf(kind, q, sys.world.history));
  }

  // ---------- a service watcher rebuilds the registry ----------

  /** What a client holds after applying the events: every id last seen registered. */
  function Replica(events: seq<Event>): set<string> {
    if events == [] then {} else
      var n := |events| - 1;
      if events[n].kind.InstanceDeregistered? then Replica(events[..n]) - {events[n].resourceId}
      else Replica(events[..n]) + {events[n].resourceId}
  }

  /** A service watch from the beginning. */
  predicate WholeService(q: WatchQuery) {
    q.service.Some? && q.group.None? && q.application.None? && q.fromRevision == 0
  }

  function Watched(q: WatchQuery, id: string): InstanceKey
    requires q.service.Some?
  {
    InstanceKey(q.namespace, q.environment, q.service.value, id)
  }

  lemma ReplicaStep(events: seq<Event>, e: Event, id: string)
    ensures id in Replica(events + [e]) <==>
            if e.resourceId == id then !e.kind.InstanceDeregistered? else id in Replica(events)
  {
    assert (events + [e])[..|events|] == events;
  }

  lemma PresentStep(h: seq<Event>, e: Event, key: InstanceKey)
    ensures Present(h + [e], key) <==> if Concerns(e, key) then !e.kind.InstanceDeregistered? else Present(h, key)
  {
    assert (h + [e])[..|h|] == h;
  }

  lemma RelevantStep(kind: WatchKind, q: WatchQuery, h: seq<Event>, e: Event)
    ensures RelevantOf(kind, q, h + [e]) == if Relevant(kind, q, e) then RelevantOf(kind, q, h) + [e] else RelevantOf(kind, q, h)
  {
    assert (h + [e])[..|h|] == h;
  }

  lemma {:induction false} ReplicaFollowsHistory(q: WatchQuery, h: seq<Event>, id: string)
    requires WholeService(q) && forall e :: e in h ==> e.revision > 0
    ensures id in Replica(RelevantOf(ServiceWatch, q, h)) <==>
            Present(h, Watched(q, id))
  {
    if h != [] {
      var n := |h| - 1;
      var before, e := h[..n], h[n];
      var key := Watched(q, id);
      assert h == before + [e] && e in h;
      ReplicaFollowsHistory(q, before, id);
      assert Concerns(e, key) <==> Relevant(ServiceWatch, q, e) && e.resourceId == id;
      RelevantStep(ServiceWatch, q, before, e);
      ReplicaStep(RelevantOf(ServiceWatch, q, before), e, id);
      PresentStep(before, e, key);
    }
  }

  // ---------- the mirror ----------

  /** The move does not drop what is last known of the id's instance before the stream has passed it. */
  ghost predicate KeepsLatestOf(sys: System, op: Op, id: string)
    requires sys.stream.query.service.Some?
  {
    var last := Latest(sys.world.store.events, Watched(sys.stream.query, id));
    last.Some? && last.value.revision > sys.stream.cursor ==> last.value in Apply(sys.world.store, op).events
  }

  ghost predicate KeepsLatest(sys: System, move: Move)
    requires sys.stream.query.service.Some?
  {
    move.Mutate? && move.op.Trims() ==> forall id :: KeepsLatestOf(sys, move.op, id)
  }

  /** For compaction, exactly: no shadowed key that the stream has yet to pass. */
  lemma CompactionKeepsLatestIff(sys: System, ns: string, env: string, max: nat, id: string)
    requires Ascending(sys.world.store.events) && sys.stream.query.service.Some?
    ensures var log, key := sys.world.store.events, Watched(sys.stream.query, id);
            KeepsLatestOf(sys, DoCompact(ns, env, max), id) <==>
            !(Shadowed(log, key, ns, env, max) && Latest(log, key).Some? && Latest(log, key).value.revision > sys.stream.cursor)
  {
    var log, key := sys.world.store.events, Watched(sys.stream.query, id);
    if Latest(log, key).Some? {
      LatestSurvivesIff(log, key, ns, env, max);
    }
  }

  /** For retention, exactly: the last event is passed, newer than the bound, or behind as many events as are taken. */
  lemma CollectionKeepsLatestIff(sys: System, bound: nat, max: nat, id: string, i: nat)
    requires Ascending(sys.world.store.events) && sys.stream.query.service.Some? && i < |sys.world.store.events|
    requires Latest(sys.world.store.events, Watched(sys.stream.query, id)) == Some(sys.world.store.events[i])
    ensures var last := sys.world.store.events[i];
            KeepsLatestOf(sys, DoCollect(bound, max), id) <==>
            last.revision <= sys.stream.cursor || last.revision > bound || i >= max
  {
    CollectionKeepsExactly(sys.world.store.events, bound, max, i);
  }

  ghost predicate LatestKeptFor(sys: System, id: string)
    requires sys.stream.query.service.Some?
  {
    var last := Latest(sys.world.history, Watched(sys.stream.query, id));
    last.Some? ==> last.value in sys.world.store.events || Delivered(last.value) in sys.stream.sent
  }

  lemma WatchedIsRelevant(q: WatchQuery, id: string, e: Event)
    requires WholeService(q) && Concerns(e, Watched(q, id)) && e.revision > 0
    ensures Relevant(ServiceWatch, q, e)
  {
  }

  lemma TrimKeepsLatest(sys: System, op: Op, id: string)
    requires SystemInv(sys) && sys.stream.open && sys.stream.kind.ServiceWatch? && WholeService(sys.stream.query)
    requires op.Trims() && KeepsLatestOf(sys, op, id) && LatestKeptFor(sys, id)
    ensures LatestKeptFor(After(sys, Mutate(op)), id)
  {
    var w, key := sys.world, Watched(sys.stream.query, id);
    var last := Latest(w.history, key);
    if last.Some? && Delivered(last.value) !in sys.stream.sent {
      LatestIsGreatest(w.history, key);
      LatestInPart(w.store.events, w.history, key);
      WatchedIsRelevant(sys.stream.query, id, last.value);
      assert last.value.revision > sys.stream.cursor;
    }
  }

  lemma AppendingKeepsLatest(sys: System, sys': System, more: seq<Event>, id: string)
    requires sys.stream.query.service.Some? && sys'.stream == sys.stream && LatestKeptFor(sys, id)
    requires sys'.world.history == sys.world.history + more
    requires sys'.world.store.events == sys.world.store.events + more
    ensures LatestKeptFor(sys', id)
  {
    LatestOfExtension(sys.world.history, more, Watched(sys.stream.query, id));
  }

  lemma GrowthKeepsLatest(sys: System, op: Op, id: string)
    requires SystemInv(sys) && sys.stream.query.service.Some? && !op.Trims() && LatestKeptFor(sys, id)
    ensures LatestKeptFor(After(sys, Mutate(op)), id)
  {
    var sys' := After(sys, Mutate(op));
    assert sys'.world == Next(sys.world, op) && sys'.stream == sys.stream;
    GrowthExtends(sys.world, op);
    AppendingKeepsLatest(sys, sys', sys'.world.store.events[|sys.world.store.events|..], id);
  }

  lemma MoveKeepsLatest(sys: System, move: Move, id: string)
    requires SystemInv(sys) && sys.stream.open && sys.stream.kind.ServiceWatch? && WholeService(sys.stream.query)
    requires KeepsLatest(sys, move) && LatestKeptFor(sys, id)
    ensures After(sys, move).stream.query == sys.stream.query && LatestKeptFor(After(sys, move), id)
  {
    if !move.Mutate? {
      StreamMoveLeavesWorld(sys, move);
      assert sys.stream.sent <= After(sys, move).stream.sent;
    } else if move.op.Trims() {
      assert KeepsLatestOf(sys, move.op, id);
      TrimKeepsLatest(sys, move.op, id);
    } else {
      GrowthKeepsLatest(sys, move.op, id);
    }
  }

  lemma {:induction false} RunsKeepLatest(q: WatchQuery, moves: seq<Move>, id: string)
    requires ValidWatch(q) && WholeService(q) && LatestKeptRun(q, moves) && Run(ServiceWatch, q, moves).stream.open
    ensures Run(ServiceWatch, q, moves).stream.query == q && LatestKeptFor(Run(ServiceWatch, q, moves), id)
  {
    if moves != [] {
      var n := |moves| - 1;
      var sys := Run(ServiceWatch, q, moves[..n]);
      OpenedBefore(sys, moves[n]);
      LatestKeptPrefix(q, moves, n);
      RunsKeepLatest(q, moves[..n], id);
      EveryRunKeepsSystemInv(ServiceWatch, q, moves[..n]);
      StreamKeepsItsQuery(ServiceWatch, q, moves[..n]);
      MoveKeepsLatest(sys, moves[n], id);
    }
  }

  /** No move drops the last event about a watched instance before the stream has passed it; older events may go. */
  ghost predicate LatestKeptRun(q: WatchQuery, moves: seq<Move>) {
    forall i :: 0 <= i < |moves| ==>
      var sys := Run(ServiceWatch, q, moves[..i]);
      sys.stream.query.service.Some? && KeepsLatest(sys, moves[i])
  }

  lemma LatestKeptPrefix(q: WatchQuery, moves: seq<Move>, n: nat)
    requires LatestKeptRun(q, moves) && n <= |moves|
    ensures LatestKeptRun(q, moves[..n])
  {
    forall i | 0 <= i < n
      ensures var sys := Run(ServiceWatch, q, moves[..n][..i]);
              sys.stream.query.service.Some? && KeepsLatest(sys, moves[..n][i])
    {
      assert moves[..n][..i] == moves[..i];
    }
  }

  /** Folding any delivered part of the history that holds the last event about an instance tells whether it is
      registered. */
  lemma PartialReplicaIsRight(q: WatchQuery, sent: seq<Event>, h: seq<Event>, id: string)
    requires WholeService(q) && Ascending(sent) && Ascending(h)
    requires forall e :: e in sent ==> e in h && e.revision > 0 && Relevant(ServiceWatch, q, e)
    requires Latest(h, Watched(q, id)).Some? ==> Latest(h, Watched(q, id)).value in sent
    ensures id in Replica(sent) <==> Present(h, Watched(q, id))
  {
    assert RelevantOf(ServiceWatch, q, sent) == sent by {
      RelevantOfIsExact(ServiceWatch, q, sent);
      AscendingIsUnique(RelevantOf(ServiceWatch, q, sent), sent);
    }
    ReplicaFollowsHistory(q, sent, id);
    LatestInPart(sent, h, Watched(q, id));
  }

  /** Folding what a caught-up service watcher delivered gives exactly the ids the registry holds for the service, even
      if retention and compaction took older events from under it. */
  lemma ServiceWatcherMirrorsRegistry(q: WatchQuery, moves: seq<Move>, id: string)
    requires ValidWatch(q) && WholeService(q) && LatestKeptRun(q, moves)
    requires Run(ServiceWatch, q, moves).stream.open && CaughtUp(Run(ServiceWatch, q, moves))
    ensures var sys := Run(ServiceWatch, q, moves);
            id in Replica(EventsOf(sys.stream.sent)) <==> Watched(q, id) in sys.world.store.instances
  {
    var sys, key := Run(ServiceWatch, q, moves), Watched(q, id);
    EveryRunKeepsSystemInv(ServiceWatch, q, moves);
    StreamKeepsItsQuery(ServiceWatch, q, moves);
    RunsKeepLatest(q, moves, id);
    EventsOfIsExact(sys.stream.sent);
    var last := Latest(sys.world.history, key);
    if last.Some? {
      LatestIsGreatest(sys.world.history, key);
      WatchedIsRelevant(q, id, last.value);
      if last.value in sys.world.store.events {
        PassedIsDelivered(sys, last.value);
      }
    }
    PartialReplicaIsRight(q, EventsOf(sys.stream.sent), sys.world.history, id);
  }

  /** An event the stream has yet to fetch survives a careful trim. */
  lemma CarefulKeepsUnpassed(sys: System, op: Op, e: Event)
    requires Ascending(sys.world.store.events) && op.Trims() && Careful(sys, Mutate(op))
    requires e in Backlog(sys.stream, sys.world.store.events)
    ensures e in Apply(sys.world.store, op).events
  {
    var log := sys.world.store.events;
    MatchingIsExact(At(sys.stream.query, sys.stream.cursor), log);
    if op.DoCollect? && e !in Collected(log, op.beforeRevision, op.maxDeletes) {
      CollectedIsOld(log, op.beforeRevision, op.maxDeletes, e);
    } else if op.DoCompact? && e !in Compacted(log, op.namespace, op.environment, op.maxPerResource) {
      CompactedIsInScope(log, op.namespace, op.environment, op.maxPerResource, e);
    }
  }

  lemma UnpassedLatestIsBacklog(st: Stream, log: seq<Event>, id: string)
    requires WholeService(st.query) && Ascending(log)
    requires Latest(log, Watched(st.query, id)).Some?
    requires Latest(log, Watched(st.query, id)).value.revision > st.cursor
    ensures Latest(log, Watched(st.query, id)).value in Backlog(st, log)
  {
    LatestIsGreatest(log, Watched(st.query, id));
    MatchingIsExact(At(st.query, st.cursor), log);
  }

  /** Trimming behind the stream, outside its scope or when it has caught up is one way to keep the last events. */
  lemma CarefulKeepsLatest(sys: System, move: Move, id: string)
    requires Ascending(sys.world.store.events) && WholeService(sys.stream.query)
    requires move.Mutate? && move.op.Trims() && Careful(sys, move)
    ensures KeepsLatestOf(sys, move.op, id)
  {
    var last := Latest(sys.world.store.events, Watched(sys.stream.query, id));
    if last.Some? && last.value.revision > sys.stream.cursor {
      UnpassedLatestIsBacklog(sys.stream, sys.world.store.events, id);
      CarefulKeepsUnpassed(sys, move.op, last.value);
    }
  }

  lemma CarefulRunsKeepLatest(q: WatchQuery, moves: seq<Move>)
    requires ValidWatch(q) && WholeService(q) && CarefulRun(ServiceWatch, q, moves)
    ensures LatestKeptRun(q, moves)
  {
    forall i | 0 <= i < |moves|
      ensures var sys := Run(ServiceWatch, q, moves[..i]);
              sys.stream.query.service.Some? && KeepsLatest(sys, moves[i])
    {
      var sys := Run(ServiceWatch, q, moves[..i]);
      EveryRunKeepsSystemInv(ServiceWatch, q, moves[..i]);
      StreamKeepsItsQuery(ServiceWatch, q, moves[..i]);
      if moves[i].Mutate? && moves[i].op.Trims() {
        forall id ensures KeepsLatestOf(sys, moves[i].op, id) {
          CarefulKeepsLatest(sys, moves[i], id);
        }
      }
    }
  }

  /** The log is trimmed only by the retention pass, and never while the stream has events to come and trails by more
      than it retains. The cursor of a quiet service stays behind without anything to come. */
  ghost predicate RetainedRun(kind: WatchKind, q: WatchQuery, moves: seq<Move>, retention: nat) {
    forall i :: 0 <= i < |moves| && moves[i].Mutate? && moves[i].op.Trims() ==>
      var sys := Run(kind, q, moves[..i]);
      && moves[i].op.DoCollect?
      && moves[i].op == EventGc(sys.world.store.revision, retention, moves[i].op.maxDeletes)
      && (CaughtUp(sys) || sys.world.store.revision <= sys.stream.cursor + retention)
  }

  /** A service watcher that starts at revision 0 and, whenever the retention pass runs, has caught up or trails the
      store by no more than the retention count holds, once drained, exactly the registry's instances of its service. */
  lemma RetentionKeepsWatcherWhole(q: WatchQuery, moves: seq<Move>, retention: nat, id: string)
    requires ValidWatch(q) && WholeService(q) && RetainedRun(ServiceWatch, q, moves, retention)
    requires Run(ServiceWatch, q, moves).stream.open && CaughtUp(Run(ServiceWatch, q, moves))
    ensures var sys := Run(ServiceWatch, q, moves);
            id in Replica(EventsOf(sys.stream.sent)) <==>
            Watched(q, id) in sys.world.store.instances
  {
    forall i | 0 <= i < |moves| ensures Careful(Run(ServiceWatch, q, moves[..i]), moves[i]) {
      if moves[i].Mutate? && moves[i].op.Trims() {
        RetentionIsCareful(Run(ServiceWatch, q, moves[..i]), retention, moves[i].op.maxDeletes);
      }
    }
    CarefulRunsKeepLatest(q, moves);
    ServiceWatcherMirrorsRegistry(q, moves, id);
  }

  // ---------- a configuration watcher hears of releases ----------

  /** The watch a configuration reader opens. */
  function ConfigWatchQuery(q: ConfigQuery, fromRevision: nat, maxEvents: nat): WatchQuery {
    WatchQuery(q.namespace, q.environment, fromRevision, Some(q.service), Some(q.group), Some(q.application), maxEvents)
  }

  /** The watch is told of a release exactly when it applies to the reader and is not namespace-wide: a
      namespace-wide release changes what the reader sees without an event. */
  lemma ConfigWatchHears(q: ConfigQuery, fromRevision: nat, maxEvents: nat, r: ConfigRelease, kind: EventKind)
    requires kind.IsConfig()
    ensures Relevant(ConfigWatch, ConfigWatchQuery(q, fromRevision, maxEvents), ReleaseEvent(r, kind)) <==>
            Applies(q, r) && !r.content.scope.Namespace? && r.revision > fromRevision
  {
  }

  ghost predicate Announced(s: Store, h: seq<Event>) {
    forall i :: 0 <= i < |s.releases| ==>
      ReleaseEvent(s.releases[i], ConfigPublished) in h || ReleaseEvent(s.releases[i], ConfigRolledBack) in h
  }

  /** One step either adds no release or adds one together with its event. */
  ghost predicate AnnouncesStep(s: Store, s': Store) {
    || s'.releases == s.releases
    || exists r, kind :: && s'.releases == s.releases + [r] && s'.events == s.events + [ReleaseEvent(r, kind)]
                         && kind in {ConfigPublished, ConfigRolledBack}
  }

  lemma ConfigOpAnnounces(s: Store, op: Op)
    requires ConfigRuns.ConfigOp(op)
    ensures AnnouncesStep(s, Apply(s, op))
  {
    var s' := Apply(s, op);
    if s'.releases != s.releases {
      var r := s'.releases[|s.releases|];
      var kind := if op.DoPublish? then ConfigPublished else ConfigRolledBack;
      assert s'.releases == s.releases + [r] && s'.events == s.events + [ReleaseEvent(r, kind)];
    }
  }

  lemma AnnouncedStays(s: Store, h: seq<Event>, s': Store, h': seq<Event>)
    requires Announced(s, h) && s'.releases == s.releases && h <= h'
    ensures Announced(s', h')
  {
  }

  lemma AnnouncedGrows(s: Store, h: seq<Event>, s': Store, r: ConfigRelease, kind: EventKind)
    requires Announced(s, h) && s'.releases == s.releases + [r] && kind in {ConfigPublished, ConfigRolledBack}
    ensures Announced(s', h + [ReleaseEvent(r, kind)])
  {
  }

  lemma StepAnnounces(w: World, op: Op)
    requires RegistryInv(w.store, w.history) && Announced(w.store, w.history)
    ensures Announced(Next(w, op).store, Next(w, op).history)
  {
    var s, w' := w.store, Next(w, op);
    assert w.history <= w'.history by { StepMovesLog(w, op); }
    if !ConfigRuns.ConfigOp(op) {
      ConfigRuns.OtherOpsLeaveConfig(s, op);
      AnnouncedStays(s, w.history, w'.store, w'.history);
    } else if w'.store.releases == s.releases {
      AnnouncedStays(s, w.history, w'.store, w'.history);
    } else {
      ConfigOpAnnounces(s, op);
      var r, kind :| && w'.store.releases == s.releases + [r] && w'.store.events == s.events + [ReleaseEvent(r, kind)]
                     && kind in {ConfigPublished, ConfigRolledBack};
      GrowthExtends(w, op);
      assert w'.store.events[|s.events|..] == [ReleaseEvent(r, kind)];
      AnnouncedGrows(s, w.history, w'.store, r, kind);
    }
  }

  lemma {:induction false} RunsAnnounceReleases(kind: WatchKind, q: WatchQuery, moves: seq<Move>)
    requires ValidWatch(q)
    ensures Announced(Run(kind, q, moves).world.store, Run(kind, q, moves).world.history)
  {
    if moves != [] {
      var n := |moves| - 1;
      RunsAnnounceReleases(kind, q, moves[..n]);
      EveryRunKeepsSystemInv(kind, q, moves[..n]);
      if moves[n].Mutate? {
        StepAnnounces(Run(kind, q, moves[..n]).world, moves[n].op);
      } else {
        StreamMoveLeavesWorld(Run(kind, q, moves[..n]), moves[n]);
      }
    }
  }

  lemma StreamMoveLeavesWorld(sys: System, move: Move)
    requires !move.Mutate?
    ensures After(sys, move).world == sys.world
  {
  }

  /** The client was sent an event with the release's id and revision, its group and its key. */
  ghost predicate Told(sent: seq<Item>, r: ConfigRelease) {
    exists e: Event :: Delivered(e) in sent && Tells(e, r)
  }

  predicate Tells(e: Event, r: ConfigRelease) {
    && e.kind.IsConfig() && e.resourceId == r.releaseId && e.revision == r.revision
    && e.group == Some(r.content.group) && e.configKey == Some(r.content.key)
  }

  lemma SameRevisionSameEvent(h: seq<Event>, a: Event, b: Event)
    requires Ascending(h) && a in h && b in h && a.revision == b.revision
    ensures a == b
  {
  }

  /** Over every careful run, a caught-up configuration watcher has been told of a stored release if and only if the
      release applies to its reader and is not namespace-wide. */
  lemma ConfigWatcherHearsEveryRelease(q: ConfigQuery, maxEvents: nat, moves: seq<Move>, r: ConfigRelease)
    requires var wq := ConfigWatchQuery(q, 0, maxEvents);
             && ValidWatch(wq) && CarefulRun(ConfigWatch, wq, moves)
             && Run(ConfigWatch, wq, moves).stream.open && CaughtUp(Run(ConfigWatch, wq, moves))
             && r in Run(ConfigWatch, wq, moves).world.store.releases
    ensures Told(Run(ConfigWatch, ConfigWatchQuery(q, 0, maxEvents), moves).stream.sent, r) <==>
            Applies(q, r) && !r.content.scope.Namespace?
  {
    var wq := ConfigWatchQuery(q, 0, maxEvents);
    var sys := Run(ConfigWatch, wq, moves);
    var h, sent := sys.world.history, sys.stream.sent;
    assert RegistryInv(sys.world.store, h) by { EveryRunKeepsSystemInv(ConfigWatch, wq, moves); }
    DeliveredIffRelevant(ConfigWatch, wq, moves);
    var kind := ReleaseKind(h, r);
    assert ReleaseEvent(r, kind) in h by { RunsAnnounceReleases(ConfigWatch, wq, moves); }
    ConfigWatchHears(q, 0, maxEvents, r, kind);
    ToldIffRelevant(ConfigWatch, wq, h, sent, r, kind);
  }

  function ReleaseKind(h: seq<Event>, r: ConfigRelease): EventKind {
    if ReleaseEvent(r, ConfigPublished) in h then ConfigPublished else ConfigRolledBack
  }

  lemma DeliveredIffRelevant(kind: WatchKind, q: WatchQuery, moves: seq<Move>)
    requires ValidWatch(q) && CarefulRun(kind, q, moves)
    requires Run(kind, q, moves).stream.open && CaughtUp(Run(kind, q, moves))
    ensures var sys := Run(kind, q, moves);
            forall e :: Delivered(e) in sys.stream.sent <==> e in sys.world.history && Relevant(kind, q, e)
  {
    var sys := Run(kind, q, moves);
    CaughtUpStreamDeliveredAll(kind, q, moves);
    EveryRunKeepsSystemInv(kind, q, moves);
    EventsOfIsExact(sys.stream.sent);
    RelevantOfIsExact(kind, q, sys.world.history);
  }

  lemma ToldIffRelevant(watch: WatchKind, q: WatchQuery, h: seq<Event>, sent: seq<Item>, r: ConfigRelease, kind: EventKind)
    requires Ascending(h) && ReleaseEvent(r, kind) in h && kind.IsConfig()
    requires forall e :: Delivered(e) in sent <==> e in h && Relevant(watch, q, e)
    ensures Told(sent, r) <==> Relevant(watch, q, ReleaseEvent(r, kind))
  {
    var own := ReleaseEvent(r, kind);
    if Told(sent, r) {
      var e: Event :| Delivered(e) in sent && Tells(e, r);
      SameRevisionSameEvent(h, e, own);
    }
    if Relevant(watch, q, own) {
      assert Delivered(own) in sent && Tells(own, r);
    }
  }

  /** In every run, the release a publish or rollback adds changes what a reader sees without an event for the reader's
      watch if and only if it applies to the reader, is namespace-wide and no more specific release hides it. */
  lemma UntoldChangeIff(ops: seq<Op>, op: Op, q: ConfigQuery, maxEvents: nat)
    requires op.DoPublish? || op.DoRollback?
    requires |Apply(Exec(ops).store, op).releases| > |Exec(ops).store.releases|
    ensures var s, s' := Exec(ops).store, Apply(Exec(ops).store, op);
            var r := s'.releases[|s.releases|];
            var kind := if op.DoPublish? then ConfigPublished else ConfigRolledBack;
            && s'.releases == s.releases + [r] && s'.events == s.events + [ReleaseEvent(r, kind)]
            && (&& Fold(q, s'.releases).values != Fold(q, s.releases).values
                && !Relevant(ConfigWatch, ConfigWatchQuery(q, s.revision, maxEvents), ReleaseEvent(r, kind))
                <==> Applies(q, r) && r.content.scope.Namespace? && !Outranked(q, s.releases, r))
  {
    var s, s' := Exec(ops).store, Apply(Exec(ops).store, op);
    AddedRelease(s, op);
    var r := s'.releases[|s.releases|];
    AddedReleaseChangesIff(ops, op, q);
    ConfigWatchHears(q, s.revision, maxEvents, r, if op.DoPublish? then ConfigPublished else ConfigRolledBack);
  }

  lemma AddedRelease(s: Store, op: Op)
    requires op.DoPublish? || op.DoRollback?
    requires |Apply(s, op).releases| > |s.releases|
    ensures var s' := Apply(s, op);
            var r := s'.releases[|s.releases|];
            && s'.releases == s.releases + [r] && r.revision == s.revision + 1
            && s'.events == s.events + [ReleaseEvent(r, if op.DoPublish? then ConfigPublished else ConfigRolledBack)]
  {
  }
}
