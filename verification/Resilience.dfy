/** The gate every command passes and the record every result leaves: rate limit, read-only mode and breaker together. */
module Resilience {
  import opened Base
  import opened Types
  import CB = CircuitBreakers
  import RL = RateLimiters
  import opened StaleReads

  datatype OperationType = Read | Write

  datatype DegradationState = Normal | ReadOnly
  {
    predicate Allows(operation: OperationType) {
      Normal? || operation.Read?
    }
  }

  datatype Config = Config(breaker: CB.Config, rateLimited: bool, readOnlyOnStorageFailure: bool, staleReadMaxAgeMs: nat)

  datatype Runtime = Runtime(breaker: CB.Breaker, bucket: RL.Bucket, degradation: DegradationState)

  function NewRuntime(burstCapacity: nat, requestsPerSecond: nat, now: nat): Runtime {
    Runtime(CB.Fresh,
            RL.Bucket(burstCapacity, requestsPerSecond as real, burstCapacity as real, Seconds(now)),
            Normal)
  }

  function Seconds(ms: nat): real {
    ms as real / 1000.0
  }

  predicate RateRefused(c: Config, r: Runtime, now: nat) {
    c.rateLimited && !RL.Grants(r.bucket, Seconds(now))
  }

  /** Reads skip the breaker in read-only mode. */
  predicate BreakerAsked(r: Runtime, operation: OperationType) {
    operation.Write? || r.degradation.Normal?
  }

  predicate Passes(c: Config, r: Runtime, operation: OperationType, now: nat) {
    && !RateRefused(c, r, now)
    && r.degradation.Allows(operation)
    && (BreakerAsked(r, operation) ==> CB.Admits(c.breaker, r.breaker, now))
  }

  /** The token is taken first, so a command refused later has still paid for it. */
  function Gated(c: Config, r: Runtime, operation: OperationType, now: nat): Runtime {
    var paid := if c.rateLimited then r.(bucket := RL.Acquire(r.bucket, Seconds(now))) else r;
    if RateRefused(c, r, now) || !r.degradation.Allows(operation) || !BreakerAsked(r, operation) then paid
    else paid.(breaker := CB.Allow(c.breaker, r.breaker, now))
  }

  /** A result neither successful nor a storage failure leaves no trace. */
  function Recorded<T>(c: Config, r: Runtime, result: Result<T, DiscoveryError>, now: nat): Runtime {
    if result.Ok? then r.(breaker := CB.Succeed(c.breaker, r.breaker), degradation := Normal)
    else if result.error.Unavailable? then
      r.(breaker := CB.Fail(c.breaker, r.breaker, now),
         degradation := if c.readOnlyOnStorageFailure then ReadOnly else r.degradation)
    else r
  }

  predicate ServesStale(c: Config, r: Runtime) {
    r.degradation.ReadOnly? && c.readOnlyOnStorageFailure
  }

  class RuntimeResilience {
    const config: Config
    const circuitBreaker: CB.CircuitBreaker
    const rateLimiter: RL.TokenBucketRateLimiter
    var degradation: DegradationState

    ghost predicate Valid()
      reads this, circuitBreaker, rateLimiter
    {
      circuitBreaker.config == config.breaker
    }

    ghost function Value(): Runtime
      reads this, circuitBreaker, rateLimiter
    {
      Runtime(circuitBreaker.Value(), rateLimiter.Value(), degradation)
    }

    constructor (config: Config, burstCapacity: nat, requestsPerSecond: nat, now: nat)
      ensures Valid() && fresh(circuitBreaker) && fresh(rateLimiter) && this.config == config
      ensures Value() == NewRuntime(burstCapacity, requestsPerSecond, now)
    {
      this.config := config;
      var breaker := new CB.CircuitBreaker(config.breaker);
      var limiter := new RL.TokenBucketRateLimiter(burstCapacity, requestsPerSecond as real, Seconds(now));
      circuitBreaker, rateLimiter, degradation := breaker, limiter, Normal;
    }

    method Gate(operation: OperationType, now: nat) returns (r: Result<(), DiscoveryError>)
      requires Valid()
      modifies circuitBreaker, rateLimiter
      ensures Valid()
      ensures Value() == Gated(config, old(Value()), operation, now)
      ensures r == if Passes(config, old(Value()), operation, now) then Ok(()) else Err(Unavailable)
    {
      if config.rateLimited {
        var granted := rateLimiter.TryAcquire(Seconds(now));
        if !granted {
          return Err(Unavailable);
        }
      }
      if !degradation.Allows(operation) {
        return Err(Unavailable);
      }
      if operation.Write? || degradation.Normal? {
        var allowed := circuitBreaker.AllowRequest(now);
        if !allowed {
          return Err(Unavailable);
        }
      }
      return Ok(());
    }

    method RecordResult<T>(result: Result<T, DiscoveryError>, now: nat)
      requires Valid()
      modifies this, circuitBreaker
      ensures Valid() && Value() == Recorded(config, old(Value()), result, now)
    {
      match result {
        case Ok(_) =>
          circuitBreaker.RecordSuccess();
          if degradation.ReadOnly? {
            degradation := Normal;
          }
        case Err(error) =>
          if error.Unavailable? {
            circuitBreaker.RecordFailure(now);
            if config.readOnlyOnStorageFailure {
              degradation := ReadOnly;
            }
          }
      }
    }
  }

  // ---------- dispatch ----------

  /** A command: when it reaches the gate, when storage is done with it, and what storage answers if asked. The key is
      the cache key of a read. */
  datatype Command<+T> = Command(operation: OperationType, key: string, now: nat, done: nat, result: Result<T, DiscoveryError>)

  /** The runtime with its read caches; a key starts with its kind of read, so one map stands for all of them. */
  datatype Server<+T> = Server(runtime: Runtime, entries: map<string, Entry<T>>)

  /** What a read that passed the gate answers: the storage's result, or a cached one in its place. */
  function ReadAnswer<T>(c: Config, r: Runtime, entries: map<string, Entry<T>>, key: string, now: nat,
                         result: Result<T, DiscoveryError>): Result<T, DiscoveryError>
  {
    Resolved(entries, key, c.staleReadMaxAgeMs, ServesStale(c, r), now, result)
  }

  predicate Accepted<T>(c: Config, s: Server<T>, cmd: Command<T>) {
    Passes(c, s.runtime, cmd.operation, cmd.now)
  }

  /** What the caller gets: the gate's refusal, or what storage and cache answer. */
  function Reply<T>(c: Config, s: Server<T>, cmd: Command<T>): Result<T, DiscoveryError> {
    if !Accepted(c, s, cmd) then Err(Unavailable)
    else if cmd.operation.Write? then cmd.result
    else ReadAnswer(c, s.runtime, s.entries, cmd.key, cmd.done, cmd.result)
  }

  /** A refused command is recorded nowhere; for the others the reply is recorded, not the storage's own result. */
  function Dispatch<T>(c: Config, s: Server<T>, cmd: Command<T>): Server<T> {
    var gated := Gated(c, s.runtime, cmd.operation, cmd.now);
    if !Accepted(c, s, cmd) then s.(runtime := gated)
    else Server(Recorded(c, gated, Reply(c, s, cmd), cmd.done),
                if cmd.operation.Write? then s.entries else Remembered(s.entries, cmd.key, cmd.done, cmd.result))
  }

  /** One arm of `handle_command` for a read; storage's result is only looked at behind the gate. */
  method DispatchRead<T>(resilience: RuntimeResilience, cache: StaleReadCache<T>, key: string, now: nat, done: nat,
                         result: Result<T, DiscoveryError>)
    returns (answer: Result<T, DiscoveryError>)
    requires resilience.Valid()
    modifies resilience, resilience.circuitBreaker, resilience.rateLimiter, cache
    ensures resilience.Valid()
    ensures var before := Server(old(resilience.Value()), old(cache.entries));
            var cmd := Command(Read, key, now, done, result);
            && answer == Reply(resilience.config, before, cmd)
            && Server(resilience.Value(), cache.entries) == Dispatch(resilience.config, before, cmd)
  {
    var gate := resilience.Gate(Read, now);
    if gate.Err? {
      return Err(gate.error);
    }
    var stale := resilience.degradation.ReadOnly? && resilience.config.readOnlyOnStorageFailure;
    answer := cache.Resolve(key, resilience.config.staleReadMaxAgeMs, stale, done, result);
    resilience.RecordResult(answer, done);
  }

  predicate HasRecent<T>(c: Config, entries: map<string, Entry<T>>, key: string, now: nat) {
    key in entries && Elapsed(entries[key].cachedAt, now) <= c.staleReadMaxAgeMs
  }

  /** Read-only mode does not last until storage recovers: a command ends it exactly when it is a read that passes the
      gate and storage answered it, or storage is down and the cache holds a recent enough answer. */
  lemma ReadOnlyEndsIff<T>(c: Config, s: Server<T>, cmd: Command<T>)
    requires s.runtime.degradation.ReadOnly? && c.readOnlyOnStorageFailure
    ensures Dispatch(c, s, cmd).runtime.degradation.Normal? <==>
            && cmd.operation.Read? && Accepted(c, s, cmd)
            && (cmd.result.Ok? || (cmd.result == Err(Unavailable) && HasRecent(c, s.entries, cmd.key, cmd.done)))
  {
  }

  // ---------- runs of commands ----------

  function Serve<T>(c: Config, s: Server<T>, cmds: seq<Command<T>>): Server<T> {
    if cmds == [] then s else
      var n := |cmds| - 1;
      Dispatch(c, Serve(c, s, cmds[..n]), cmds[n])
  }

  /** What the i-th command of a run was told. */
  function ReplyTo<T>(c: Config, s: Server<T>, cmds: seq<Command<T>>, i: nat): Result<T, DiscoveryError>
    requires i < |cmds|
  {
    Reply(c, Serve(c, s, cmds[..i]), cmds[i])
  }

  predicate AcceptedAt<T>(c: Config, s: Server<T>, cmds: seq<Command<T>>, i: nat)
    requires i < |cmds|
  {
    Accepted(c, Serve(c, s, cmds[..i]), cmds[i])
  }

  lemma ServeStep<T>(c: Config, s: Server<T>, cmds: seq<Command<T>>, i: nat)
    requires i < |cmds|
    ensures Serve(c, s, cmds[..i + 1]) == Dispatch(c, Serve(c, s, cmds[..i]), cmds[i])
  {
    assert cmds[..i + 1][..i] == cmds[..i];
  }

  /** Says something about storage: a success or a storage failure. */
  predicate Conclusive<T>(r: Result<T, DiscoveryError>) {
    r.Ok? || r.error.Unavailable?
  }

  /** Of the first `n` commands, the last that passed the gate with a conclusive reply. */
  ghost predicate LastTelling<T>(c: Config, s: Server<T>, cmds: seq<Command<T>>, n: nat, i: nat)
    requires n <= |cmds|
  {
    && i < n && AcceptedAt(c, s, cmds, i) && Conclusive(ReplyTo(c, s, cmds, i))
    && forall k :: i < k < n && AcceptedAt(c, s, cmds, k) ==> !Conclusive(ReplyTo(c, s, cmds, k))
  }

  /** At any point of any run the mode is read-only exactly when the last accepted command with a conclusive reply was
      told of a storage failure; replies from the cache count as successes, refusals count for nothing. */
  lemma {:induction false} ModeFollowsLastReply<T>(c: Config, s: Server<T>, cmds: seq<Command<T>>, n: nat)
    requires n <= |cmds| && s.runtime.degradation.Normal? && c.readOnlyOnStorageFailure
    ensures Serve(c, s, cmds[..n]).runtime.degradation.ReadOnly? <==>
            exists i :: LastTelling(c, s, cmds, n, i) && ReplyTo(c, s, cmds, i).Err?
  {
    if n > 0 {
      var m := n - 1;
      ModeFollowsLastReply(c, s, cmds, m);
      ServeStep(c, s, cmds, m);
      if AcceptedAt(c, s, cmds, m) && Conclusive(ReplyTo(c, s, cmds, m)) {
        assert LastTelling(c, s, cmds, n, m);
      } else {
        forall i ensures LastTelling(c, s, cmds, n, i) <==> LastTelling(c, s, cmds, m, i) {}
      }
    }
  }

  /** With the setting off no run ever enters read-only mode, and no read is ever answered from the cache. */
  lemma {:induction false} NeverReadOnlyWhenOff<T>(c: Config, s: Server<T>, cmds: seq<Command<T>>)
    requires s.runtime.degradation.Normal? && !c.readOnlyOnStorageFailure
    ensures Serve(c, s, cmds).runtime.degradation.Normal?
    ensures forall i :: 0 <= i < |cmds| && ReplyTo(c, s, cmds, i).Ok? ==> ReplyTo(c, s, cmds, i) == cmds[i].result
  {
    if cmds != [] {
      var n := |cmds| - 1;
      NeverReadOnlyWhenOff(c, s, cmds[..n]);
      forall i | 0 <= i < n && ReplyTo(c, s, cmds, i).Ok? ensures ReplyTo(c, s, cmds, i) == cmds[i].result {
        assert cmds[..n][..i] == cmds[..i];
        assert ReplyTo(c, s, cmds[..n], i) == ReplyTo(c, s, cmds, i);
      }
    }
  }

  // ---------- what a stale answer costs ----------

  /** The breaker opened at `t` and nothing in the mode lets reads around it. */
  predicate ShutSince<T>(c: Config, s: Server<T>, t: nat) {
    && c.breaker.enabled && s.runtime.degradation.Normal?
    && s.runtime.breaker.state.Open? && s.runtime.breaker.lastFailure == Some(t)
  }

  /** Then every command before the recovery timeout is refused, whatever the caches hold, and nothing but rate-limit
      tokens changes. */
  lemma {:induction false} ShutRefusesAll<T>(c: Config, s: Server<T>, cmds: seq<Command<T>>, t: nat)
    requires ShutSince(c, s, t) && forall k :: 0 <= k < |cmds| ==> cmds[k].now < t + c.breaker.recoveryTimeoutMs
    ensures var end := Serve(c, s, cmds);
            && ShutSince(c, end, t) && end.runtime.breaker == s.runtime.breaker && end.entries == s.entries
    ensures forall k :: 0 <= k < |cmds| ==> !AcceptedAt(c, s, cmds, k) && ReplyTo(c, s, cmds, k) == Err(Unavailable)
  {
    if cmds != [] {
      var n := |cmds| - 1;
      ShutRefusesAll(c, s, cmds[..n], t);
      forall k | 0 <= k < n
        ensures !AcceptedAt(c, s, cmds, k) && ReplyTo(c, s, cmds, k) == Err(Unavailable)
      {
        assert cmds[..n][..k] == cmds[..k];
        assert !AcceptedAt(c, s, cmds[..n], k);
      }
    }
  }

  /** The i-th command was answered from the cache. */
  predicate StaleAt<T>(c: Config, s: Server<T>, cmds: seq<Command<T>>, i: nat)
    requires i < |cmds|
  {
    cmds[i].result.Err? && ReplyTo(c, s, cmds, i).Ok?
  }

  lemma StaleAnswerShuts<T>(c: Config, s: Server<T>, cmd: Command<T>, t: nat)
    requires c.breaker.enabled && s.runtime.breaker.state.Open? && s.runtime.breaker.lastFailure == Some(t)
    requires cmd.now < t + c.breaker.recoveryTimeoutMs && cmd.result.Err? && Reply(c, s, cmd).Ok?
    ensures ShutSince(c, Dispatch(c, s, cmd), t)
  {
  }

  lemma {:induction false} ServeSplits<T>(c: Config, s: Server<T>, cmds: seq<Command<T>>, i: nat, j: nat)
    requires i <= j <= |cmds|
    ensures Serve(c, s, cmds[..j]) == Serve(c, Serve(c, s, cmds[..i]), cmds[i..j])
  {
    if i < j {
      ServeSplits(c, s, cmds, i, j - 1);
      ServeStep(c, s, cmds, j - 1);
      assert cmds[i..j][..j - 1 - i] == cmds[i..j - 1];
    }
  }

  /** So an opening of the breaker serves at most one stale answer: once one has been given, every command up to the
      recovery timeout is refused, reads with a recent cached answer included. */
  lemma OneStaleAnswerPerOpening<T>(c: Config, s: Server<T>, cmds: seq<Command<T>>, i: nat, j: nat, t: nat)
    requires i < j < |cmds| && c.breaker.enabled && StaleAt(c, s, cmds, i)
    requires var b := Serve(c, s, cmds[..i]).runtime.breaker; b.state.Open? && b.lastFailure == Some(t)
    requires forall k :: i <= k <= j ==> cmds[k].now < t + c.breaker.recoveryTimeoutMs
    ensures !AcceptedAt(c, s, cmds, j) && ReplyTo(c, s, cmds, j) == Err(Unavailable)
  {
    var after, more := Serve(c, s, cmds[..i + 1]), cmds[i + 1..j + 1];
    ServeStep(c, s, cmds, i);
    StaleAnswerShuts(c, Serve(c, s, cmds[..i]), cmds[i], t);
    ShutRefusesAll(c, after, more, t);
    ServeSplits(c, s, cmds, i + 1, j);
    assert more[..j - i - 1] == cmds[i + 1..j];
    assert !AcceptedAt(c, after, more, j - i - 1);
  }

  /** And below the threshold it hides the outage from the breaker: while one recently cached read is repeated and
      storage stays down, every other read fails, the ones between are answered from the cache and take the failure
      back, so the breaker never opens. */
  lemma {:induction false} StaleAnswersHideOutage<T>(c: Config, s: Server<T>, key: string, cmds: seq<Command<T>>)
    requires c.readOnlyOnStorageFailure && !c.rateLimited && c.breaker.failureThreshold >= 2
    requires s.runtime.degradation.Normal? && s.runtime.breaker.state.Closed? && s.runtime.breaker.failureCount == 0
    requires key in s.entries
    requires forall k :: 0 <= k < |cmds| ==>
               && cmds[k].operation.Read? && cmds[k].key == key && cmds[k].result == Err(Unavailable)
               && HasRecent(c, s.entries, key, cmds[k].done)
    ensures var end := Serve(c, s, cmds);
            && end.entries == s.entries && end.runtime.breaker.state.Closed?
            && end.runtime == (if |cmds| % 2 == 0 then s.runtime
                               else s.runtime.(breaker := CB.Fail(c.breaker, s.runtime.breaker, 0), degradation := ReadOnly))
    ensures forall k :: 0 <= k < |cmds| ==>
              ReplyTo(c, s, cmds, k) == if k % 2 == 0 then Err(Unavailable) else Ok(s.entries[key].value)
  {
    if cmds != [] {
      var n := |cmds| - 1;
      StaleAnswersHideOutage(c, s, key, cmds[..n]);
      forall k | 0 <= k < n
        ensures ReplyTo(c, s, cmds, k) == if k % 2 == 0 then Err(Unavailable) else Ok(s.entries[key].value)
      {
        assert cmds[..n][..k] == cmds[..k];
        assert ReplyTo(c, s, cmds[..n], k) == ReplyTo(c, s, cmds, k);
      }
    }
  }

  // ---------- a run that serves a stale answer ----------

  /** Storage answers one read and then goes down. */
  function OutageReads<T>(key: string, value: T): seq<Command<T>> {
    [Command(Read, key, 0, 0, Ok(value)), Command(Read, key, 0, 0, Err(Unavailable)),
     Command(Read, key, 0, 0, Err(Unavailable))]
  }

  /** A new runtime whose breaker opens at the first failure: the third read is answered from the cache, the mode is
      normal again although storage is down, writes are sent to the breaker, and it refuses everything that follows
      until the recovery timeout. */
  lemma StaleAnswerEndsReadOnly<T>(c: Config, burst: nat, rate: nat, key: string, value: T, later: seq<Command<T>>)
    requires c.readOnlyOnStorageFailure && !c.rateLimited && c.breaker.Active() && c.breaker.failureThreshold == 1
    requires forall k :: 0 <= k < |later| ==> later[k].now < c.breaker.recoveryTimeoutMs
    ensures var s, cmds := Server(NewRuntime(burst, rate, 0), map[]), OutageReads(key, value);
            var end := Serve(c, s, cmds);
            && Serve(c, s, cmds[..2]).runtime.degradation.ReadOnly?
            && ReplyTo(c, s, cmds, 2) == Ok(value) && StaleAt(c, s, cmds, 2)
            && ShutSince(c, end, 0)
            && forall k :: 0 <= k < |later| ==> ReplyTo(c, end, later, k) == Err(Unavailable)
  {
    var s, cmds := Server(NewRuntime(burst, rate, 0), map[]), OutageReads(key, value);
    assert cmds[..0] == [];
    ServeStep(c, s, cmds, 0);
    ServeStep(c, s, cmds, 1);
    ServeStep(c, s, cmds, 2);
    assert cmds[..3] == cmds;
    ShutRefusesAll(c, Serve(c, s, cmds), later, 0);
  }

  // ---------- the parts seen through whole runs ----------

  /** The calls a run of commands makes on the breaker: every command that gets that far asks it, and every reply that
      says something about storage is recorded. */
  function BreakerCalls<T>(c: Config, s: Server<T>, cmds: seq<Command<T>>): seq<CB.Call> {
    if cmds == [] then [] else
      var n := |cmds| - 1;
      BreakerCalls(c, s, cmds[..n]) + CallsOf(c, Serve(c, s, cmds[..n]), cmds[n])
  }

  /** What the gate asks of the breaker. */
  function AskedOf<T>(c: Config, s: Server<T>, cmd: Command<T>): seq<CB.Call> {
    if RateRefused(c, s.runtime, cmd.now) || !s.runtime.degradation.Allows(cmd.operation)
       || !BreakerAsked(s.runtime, cmd.operation)
    then [] else [CB.Request(cmd.now)]
  }

  /** What a reply tells the breaker. */
  function ToldBy<T>(reply: Result<T, DiscoveryError>, now: nat): seq<CB.Call> {
    if reply.Ok? then [CB.Success] else if reply.error.Unavailable? then [CB.Failure(now)] else []
  }

  function CallsOf<T>(c: Config, s: Server<T>, cmd: Command<T>): seq<CB.Call> {
    AskedOf(c, s, cmd) + if Accepted(c, s, cmd) then ToldBy(Reply(c, s, cmd), cmd.done) else []
  }

  lemma OneMoreCall(c: CB.Config, calls: seq<CB.Call>, call: CB.Call)
    ensures CB.Run(c, calls + [call]) == CB.Next(c, CB.Run(c, calls), call)
  {
    assert (calls + [call])[..|calls|] == calls;
  }

  lemma GateAsks<T>(c: Config, s: Server<T>, cmd: Command<T>, calls: seq<CB.Call>)
    requires s.runtime.breaker == CB.Run(c.breaker, calls)
    ensures Gated(c, s.runtime, cmd.operation, cmd.now).breaker == CB.Run(c.breaker, calls + AskedOf(c, s, cmd))
  {
    OneMoreCall(c.breaker, calls, CB.Request(cmd.now));
    assert calls + [] == calls;
  }

  lemma RecordTells<T>(c: Config, r: Runtime, reply: Result<T, DiscoveryError>, now: nat, calls: seq<CB.Call>)
    requires r.breaker == CB.Run(c.breaker, calls)
    ensures Recorded(c, r, reply, now).breaker == CB.Run(c.breaker, calls + ToldBy(reply, now))
  {
    OneMoreCall(c.breaker, calls, CB.Success);
    OneMoreCall(c.breaker, calls, CB.Failure(now));
    assert calls + [] == calls;
  }

  lemma CallsAreMade<T>(c: Config, s: Server<T>, cmd: Command<T>, calls: seq<CB.Call>)
    requires s.runtime.breaker == CB.Run(c.breaker, calls)
    ensures Dispatch(c, s, cmd).runtime.breaker == CB.Run(c.breaker, calls + CallsOf(c, s, cmd))
  {
    var asked := calls + AskedOf(c, s, cmd);
    GateAsks(c, s, cmd, calls);
    if Accepted(c, s, cmd) {
      RecordTells(c, Gated(c, s.runtime, cmd.operation, cmd.now), Reply(c, s, cmd), cmd.done, asked);
      assert asked + ToldBy(Reply(c, s, cmd), cmd.done) == calls + CallsOf(c, s, cmd);
    } else {
      assert asked == calls + CallsOf(c, s, cmd);
    }
  }

  /** The breaker inside a server that has served any commands is the breaker those calls make of a new one, so
      everything proved of breaker runs holds of servers. */
  lemma {:induction false} BreakerFollowsCommands<T>(c: Config, s: Server<T>, cmds: seq<Command<T>>)
    requires s.runtime.breaker == CB.Fresh
    ensures Serve(c, s, cmds).runtime.breaker == CB.Run(c.breaker, BreakerCalls(c, s, cmds))
  {
    if cmds != [] {
      var n := |cmds| - 1;
      BreakerFollowsCommands(c, s, cmds[..n]);
      CallsAreMade(c, Serve(c, s, cmds[..n]), cmds[n], BreakerCalls(c, s, cmds[..n]));
    }
  }

  /** Every command pays the rate limiter first, the refused ones too. */
  ghost function Times<T>(cmds: seq<Command<T>>): (times: seq<real>)
    ensures |times| == |cmds| && forall i :: 0 <= i < |cmds| ==> times[i] == Seconds(cmds[i].now)
  {
    seq(|cmds|, i requires 0 <= i < |cmds| => Seconds(cmds[i].now))
  }

  function AcceptedCount<T>(c: Config, s: Server<T>, cmds: seq<Command<T>>): nat {
    if cmds == [] then 0 else
      var n := |cmds| - 1;
      AcceptedCount(c, s, cmds[..n]) + if Accepted(c, Serve(c, s, cmds[..n]), cmds[n]) then 1 else 0
  }

  lemma {:induction false} BucketFollowsCommands<T>(c: Config, s: Server<T>, cmds: seq<Command<T>>)
    requires c.rateLimited
    ensures Serve(c, s, cmds).runtime.bucket == RL.Run(s.runtime.bucket, Times(cmds))
    ensures AcceptedCount(c, s, cmds) <= RL.Granted(s.runtime.bucket, Times(cmds))
  {
    if cmds != [] {
      var n := |cmds| - 1;
      BucketFollowsCommands(c, s, cmds[..n]);
      assert Times(cmds)[..n] == Times(cmds[..n]);
    }
  }

  lemma WindowPaysForAll<T>(c: Config, s: Server<T>, before: seq<Command<T>>, window: seq<Command<T>>)
    requires c.rateLimited
    ensures AcceptedCount(c, Serve(c, s, before), window) <= RL.Granted(RL.Run(s.runtime.bucket, Times(before)), Times(window))
  {
    BucketFollowsCommands(c, s, before);
    BucketFollowsCommands(c, Serve(c, s, before), window);
  }

  lemma WindowPaysWithin<T>(c: Config, s: Server<T>, before: seq<Command<T>>, window: seq<Command<T>>, limit: real)
    requires c.rateLimited && RL.Granted(RL.Run(s.runtime.bucket, Times(before)), Times(window)) as real <= limit
    ensures AcceptedCount(c, Serve(c, s, before), window) as real <= limit
  {
    WindowPaysForAll(c, s, before, window);
  }

  /** The calls of the second part come after the first and within the span, which refills so much. */
  ghost predicate Within(b: RL.Bucket, before: seq<real>, window: seq<real>, span: real, refilled: real) {
    && b.Valid() && RL.Nondecreasing(b.lastRefill, before + window) && window != []
    && window[|window| - 1] - window[0] <= span && refilled == span * b.rate
  }

  lemma GrantedWithin(b: RL.Bucket, before: seq<real>, window: seq<real>, span: real, refilled: real)
    requires Within(b, before, window, span, refilled)
    ensures RL.Granted(RL.Run(b, before), window) as real <= b.capacity as real + refilled
  {
    RL.WindowIsBounded(b, before, window, span, refilled);
  }

  /** With rate limiting on, at most capacity plus rate times span commands of any window of any run are accepted. */
  lemma AcceptedWindowIsBounded<T>(c: Config, s: Server<T>, before: seq<Command<T>>, window: seq<Command<T>>,
                                   span: real, refilled: real)
    requires c.rateLimited && Within(s.runtime.bucket, Times(before), Times(window), span, refilled)
    ensures AcceptedCount(c, Serve(c, s, before), window) as real <= s.runtime.bucket.capacity as real + refilled
  {
    var limit := s.runtime.bucket.capacity as real + refilled;
    GrantedWithin(s.runtime.bucket, Times(before), Times(window), span, refilled);
    WindowPaysWithin(c, s, before, window, limit);
  }

  /** A command without a token is refused and changes nothing but the bucket. */
  lemma NoTokenNoService<T>(c: Config, s: Server<T>, cmd: Command<T>)
    requires c.rateLimited && !RL.Grants(s.runtime.bucket, Seconds(cmd.now))
    ensures Reply(c, s, cmd) == Err(Unavailable)
    ensures Dispatch(c, s, cmd) == s.(runtime := s.runtime.(bucket := RL.Refill(s.runtime.bucket, Seconds(cmd.now))))
  {
  }

  /** With a token, read-only mode refuses every write and lets every read past the breaker; normal mode leaves it to
      the breaker. */
  lemma ModeDecides<T>(c: Config, s: Server<T>, cmd: Command<T>)
    requires c.rateLimited ==> RL.Grants(s.runtime.bucket, Seconds(cmd.now))
    ensures s.runtime.degradation.ReadOnly? ==> (Accepted(c, s, cmd) <==> cmd.operation.Read?)
    ensures s.runtime.degradation.ReadOnly? && cmd.operation.Write? ==> Dispatch(c, s, cmd).runtime.breaker == s.runtime.breaker
    ensures s.runtime.degradation.Normal? ==> (Accepted(c, s, cmd) <==> CB.Admits(c.breaker, s.runtime.breaker, cmd.now))
  {
  }
}
