/** The circuit breaker: its state machine, and what holds over every sequence of calls. */
module CircuitBreakers {
  import opened Base

  datatype CircuitState = Closed | Open | HalfOpen

  datatype Config = Config(enabled: bool, failureThreshold: nat, recoveryTimeoutMs: nat, halfOpenMaxRequests: nat)
  {
    /** Enabled with nonzero limits. */
    predicate Active() {
      enabled && failureThreshold > 0 && halfOpenMaxRequests > 0
    }
  }

  datatype Breaker = Breaker(
    state: CircuitState, failureCount: nat, successCount: nat, lastFailure: Option<nat>, halfOpenRequests: nat)

  const Fresh := Breaker(Closed, 0, 0, None, 0)

  /** Readings come from a monotonic clock, so none precedes the failure it is compared with. */
  predicate Recovered(c: Config, b: Breaker, now: nat) {
    b.lastFailure.Some? && now >= b.lastFailure.value + c.recoveryTimeoutMs
  }

  predicate Admits(c: Config, b: Breaker, now: nat) {
    !c.enabled || b.state.Closed? || (b.state.Open? && Recovered(c, b, now))
    || (b.state.HalfOpen? && b.halfOpenRequests < c.halfOpenMaxRequests)
  }

  function Allow(c: Config, b: Breaker, now: nat): Breaker {
    if !c.enabled || !Admits(c, b, now) || b.state.Closed? then b
    else if b.state.Open? then b.(state := HalfOpen, halfOpenRequests := 0)
    else b.(halfOpenRequests := b.halfOpenRequests + 1)
  }

  function Succeed(c: Config, b: Breaker): Breaker {
    if !c.enabled || b.state.Open? then b
    else if b.state.Closed? then b.(failureCount := 0)
    else if b.successCount + 1 >= c.halfOpenMaxRequests then b.(state := Closed, failureCount := 0, successCount := 0)
    else b.(successCount := b.successCount + 1)
  }

  function Fail(c: Config, b: Breaker, now: nat): Breaker {
    if !c.enabled || b.state.Open? then b
    else if b.state.Closed? then
      var counted := b.(failureCount := b.failureCount + 1);
      if counted.failureCount >= c.failureThreshold then counted.(state := Open, lastFailure := Some(now)) else counted
    else b.(state := Open, lastFailure := Some(now), successCount := 0)
  }

  class CircuitBreaker {
    const config: Config
    var state: CircuitState
    var failureCount: nat
    var successCount: nat
    var lastFailure: Option<nat>
    var halfOpenRequests: nat

    ghost function Value(): Breaker
      reads this
    {
      Breaker(state, failureCount, successCount, lastFailure, halfOpenRequests)
    }

    constructor (config: Config)
      ensures Value() == Fresh && this.config == config
    {
      this.config := config;
      state, failureCount, successCount, lastFailure, halfOpenRequests := Closed, 0, 0, None, 0;
    }

    method IsOpen(now: nat) returns (open: bool)
      ensures open <==> config.enabled && state.Open? && !Recovered(config, Value(), now)
    {
      if !config.enabled {
        return false;
      }
      match state {
        case Open =>
          if lastFailure.Some? {
            if now >= lastFailure.value + config.recoveryTimeoutMs {
              return false;
            }
          }
          return true;
        case _ =>
          return false;
      }
    }

    method AllowRequest(now: nat) returns (allowed: bool)
      modifies this
      ensures allowed == Admits(config, old(Value()), now)
      ensures Value() == Allow(config, old(Value()), now)
    {
      if !config.enabled {
        return true;
      }
      match state {
        case Closed =>
          allowed := true;
        case Open =>
          if lastFailure.Some? {
            if now >= lastFailure.value + config.recoveryTimeoutMs {
              state := HalfOpen;
              halfOpenRequests := 0;
              allowed := true;
            } else {
              allowed := false;
            }
          } else {
            allowed := false;
          }
        case HalfOpen =>
          if halfOpenRequests < config.halfOpenMaxRequests {
            halfOpenRequests := halfOpenRequests + 1;
            allowed := true;
          } else {
            allowed := false;
          }
      }
    }

    method RecordSuccess()
      modifies this
      ensures Value() == Succeed(config, old(Value()))
    {
      if !config.enabled {
        return;
      }
      match state {
        case Closed =>
          failureCount := 0;
        case HalfOpen =>
          successCount := successCount + 1;
          if successCount >= config.halfOpenMaxRequests {
            state := Closed;
            failureCount := 0;
            successCount := 0;
          }
        case Open =>
      }
    }

    method RecordFailure(now: nat)
      modifies this
      ensures Value() == Fail(config, old(Value()), now)
    {
      if !config.enabled {
        return;
      }
      match state {
        case Closed =>
          failureCount := failureCount + 1;
          if failureCount >= config.failureThreshold {
            state := Open;
            lastFailure := Some(now);
          }
        case HalfOpen =>
          state := Open;
          lastFailure := Some(now);
          successCount := 0;
        case Open =>
      }
    }

    method Reset()
      modifies this
      ensures Value() == Fresh
    {
      state, failureCount, successCount, lastFailure, halfOpenRequests := Closed, 0, 0, None, 0;
    }
  }

  // ---------- runs ----------

  datatype Call = Request(now: nat) | Success | Failure(now: nat) | Reset

  function Next(c: Config, b: Breaker, call: Call): Breaker {
    match call
    case Request(now) => Allow(c, b, now)
    case Success => Succeed(c, b)
    case Failure(now) => Fail(c, b, now)
    case Reset => Fresh
  }

  function Run(c: Config, calls: seq<Call>): Breaker {
    if calls == [] then Fresh else Next(c, Run(c, calls[..|calls| - 1]), calls[|calls| - 1])
  }

  predicate Admitted(c: Config, calls: seq<Call>, i: nat)
    requires i < |calls|
  {
    calls[i].Request? && Admits(c, Run(c, calls[..i]), calls[i].now)
  }

  /** Counters stay within their limits, so 32-bit counters never overflow; successes are only counted half-open;
      an open breaker knows when it opened. */
  ghost predicate InLimits(c: Config, b: Breaker) {
    && b.failureCount <= c.failureThreshold && (b.state.Closed? ==> b.failureCount < c.failureThreshold)
    && b.halfOpenRequests <= c.halfOpenMaxRequests
    && b.successCount < c.halfOpenMaxRequests && (!b.state.HalfOpen? ==> b.successCount == 0)
    && (b.state.Open? ==> b.lastFailure.Some?)
  }

  lemma {:induction false} EveryRunStaysInLimits(c: Config, calls: seq<Call>)
    requires c.Active()
    ensures InLimits(c, Run(c, calls))
  {
    if calls != [] {
      EveryRunStaysInLimits(c, calls[..|calls| - 1]);
    }
  }

  lemma RunStep(c: Config, calls: seq<Call>, i: nat)
    requires i < |calls|
    ensures Run(c, calls[..i + 1]) == Next(c, Run(c, calls[..i]), calls[i])
  {
    assert calls[..i + 1][..i] == calls[..i];
  }

  /** Call `i` opened the breaker. */
  ghost predicate Opens(c: Config, calls: seq<Call>, i: nat)
    requires i < |calls|
  {
    !Run(c, calls[..i]).state.Open? && Run(c, calls[..i + 1]).state.Open?
  }

  lemma {:induction false} StaysOpenUntilAdmission(c: Config, calls: seq<Call>, i: nat, j: nat)
    requires c.Active() && i < j <= |calls| && Opens(c, calls, i)
    requires forall k :: i < k < j ==> !Admitted(c, calls, k) && !calls[k].Reset?
    ensures calls[i].Failure?
    ensures Run(c, calls[..j]).state.Open? && Run(c, calls[..j]).lastFailure == Some(calls[i].now)
  {
    RunStep(c, calls, j - 1);
    if i + 1 < j {
      StaysOpenUntilAdmission(c, calls, i, j - 1);
      assert !Admitted(c, calls, j - 1);
    }
  }

  /** After the breaker opens, the first admitted request, unless it was reset, comes a full recovery timeout later. */
  lemma NoAdmissionBeforeRecovery(c: Config, calls: seq<Call>, i: nat, j: nat)
    requires c.Active() && i < j < |calls| && Opens(c, calls, i) && Admitted(c, calls, j)
    requires forall k :: i < k < j ==> !Admitted(c, calls, k) && !calls[k].Reset?
    ensures calls[i].Failure? && calls[j].now >= calls[i].now + c.recoveryTimeoutMs
  {
    StaysOpenUntilAdmission(c, calls, i, j);
  }

  // ---------- every change of state ----------

  /** Failures in a row: since the last success or reset, whatever requests came between. */
  function FailureStreak(calls: seq<Call>): nat {
    if calls == [] then 0 else
      var before, last := calls[..|calls| - 1], calls[|calls| - 1];
      match last
      case Request(_) => FailureStreak(before)
      case Failure(_) => FailureStreak(before) + 1
      case _ => 0
  }

  lemma {:induction false} ClosedCountsStreak(c: Config, calls: seq<Call>)
    requires c.Active()
    ensures Run(c, calls).state.Closed? ==> Run(c, calls).failureCount == FailureStreak(calls)
  {
    if calls != [] {
      ClosedCountsStreak(c, calls[..|calls| - 1]);
      EveryRunStaysInLimits(c, calls[..|calls| - 1]);
    }
  }

  /** Exactly which calls open the breaker: a failure while half-open, or the failure that makes as many in a row as the
      threshold while closed. */
  lemma OpensIff(c: Config, calls: seq<Call>, i: nat)
    requires c.Active() && i < |calls|
    ensures var state := Run(c, calls[..i]).state;
            Opens(c, calls, i) <==>
            && calls[i].Failure?
            && (state.HalfOpen? || (state.Closed? && FailureStreak(calls[..i]) + 1 >= c.failureThreshold))
  {
    RunStep(c, calls, i);
    ClosedCountsStreak(c, calls[..i]);
  }

  /** The request that half-opens an open breaker is the first at or after its recovery time: until it is reset, a
      request is admitted if and only if the timeout has passed since the failure that opened it. */
  lemma OpenAdmitsIff(c: Config, calls: seq<Call>, i: nat, j: nat)
    requires c.Active() && i < j < |calls| && Opens(c, calls, i) && calls[j].Request?
    requires forall k :: i < k < j ==> !Admitted(c, calls, k) && !calls[k].Reset?
    ensures calls[i].Failure?
    ensures Admitted(c, calls, j) <==> calls[j].now >= calls[i].now + c.recoveryTimeoutMs
    ensures Admitted(c, calls, j) <==> Run(c, calls[..j + 1]).state.HalfOpen?
  {
    StaysOpenUntilAdmission(c, calls, i, j);
    RunStep(c, calls, j);
  }

  /** A failed probe shuts the breaker again: without a reset, no request before the timeout since it is admitted,
      whatever else is called. */
  lemma {:induction false} FailedProbeShuts(c: Config, calls: seq<Call>, t: nat, later: seq<Call>)
    requires c.Active() && Run(c, calls).state.HalfOpen?
    requires forall k :: 0 <= k < |later| ==>
               !later[k].Reset? && (later[k].Request? ==> later[k].now < t + c.recoveryTimeoutMs)
    ensures var all := calls + [Failure(t)] + later;
            && Run(c, all).state.Open? && Run(c, all).lastFailure == Some(t)
            && forall k :: |calls| < k < |all| ==> !Admitted(c, all, k)
  {
    var start := calls + [Failure(t)];
    if later == [] {
      assert start + later == start && start[..|calls|] == calls;
    } else {
      var n := |later| - 1;
      var all, before := start + later, start + later[..n];
      FailedProbeShuts(c, calls, t, later[..n]);
      assert all[..|before|] == before;
      forall k | |calls| < k < |before| ensures !Admitted(c, all, k) {
        AdmittedInPrefix(c, all, |before|, k);
      }
    }
  }

  function SuccessCount(calls: seq<Call>, i: nat, j: nat): nat
    requires i <= j <= |calls|
  {
    if i == j then 0 else SuccessCount(calls, i, j - 1) + if calls[j - 1].Success? then 1 else 0
  }

  lemma {:induction false} HalfOpenCountsSuccesses(c: Config, calls: seq<Call>, i: nat, j: nat)
    requires c.Active() && i < j <= |calls|
    requires !Run(c, calls[..i]).state.HalfOpen?
    requires forall k :: i < k <= j ==> Run(c, calls[..k]).state.HalfOpen?
    ensures Run(c, calls[..j]).successCount == SuccessCount(calls, i, j)
  {
    RunStep(c, calls, j - 1);
    assert Run(c, calls[..j]).state.HalfOpen?;
    if i + 1 < j {
      assert Run(c, calls[..j - 1]).state.HalfOpen?;
      HalfOpenCountsSuccesses(c, calls, i, j - 1);
    } else {
      EveryRunStaysInLimits(c, calls[..i]);
      assert SuccessCount(calls, i, i) == 0;
    }
  }

  /** A period that has been half-open since call `i` is closed by call `j` if and only if that is a reset, or the
      success that makes as many in the period as the limit. */
  lemma ClosesIff(c: Config, calls: seq<Call>, i: nat, j: nat)
    requires c.Active() && i < j < |calls|
    requires !Run(c, calls[..i]).state.HalfOpen?
    requires forall k :: i < k <= j ==> Run(c, calls[..k]).state.HalfOpen?
    ensures Run(c, calls[..j + 1]).state.Closed? <==>
            calls[j].Reset? || (calls[j].Success? && SuccessCount(calls, i, j) + 1 >= c.halfOpenMaxRequests)
  {
    RunStep(c, calls, j);
    HalfOpenCountsSuccesses(c, calls, i, j);
    assert Run(c, calls[..j]).state.HalfOpen?;
  }

  /** A disabled breaker is as new after any calls and admits everything. */
  lemma {:induction false} DisabledAdmitsAll(c: Config, calls: seq<Call>, now: nat)
    requires !c.enabled
    ensures Run(c, calls) == Fresh && Admits(c, Run(c, calls), now)
  {
    if calls != [] {
      DisabledAdmitsAll(c, calls[..|calls| - 1], now);
    }
  }

  function AdmittedCount(c: Config, calls: seq<Call>, i: nat, j: nat): nat
    requires i <= j <= |calls|
  {
    if i == j then 0 else AdmittedCount(c, calls, i, j - 1) + if Admitted(c, calls, j - 1) then 1 else 0
  }

  /** While half-open since call `i`, the admitted requests are the one that half-opened it and those counted. */
  lemma {:induction false} HalfOpenCounts(c: Config, calls: seq<Call>, i: nat, j: nat)
    requires c.Active() && i < j <= |calls|
    requires !Run(c, calls[..i]).state.HalfOpen?
    requires forall k :: i < k <= j ==> Run(c, calls[..k]).state.HalfOpen?
    ensures AdmittedCount(c, calls, i, j) == Run(c, calls[..j]).halfOpenRequests + 1
  {
    RunStep(c, calls, j - 1);
    assert Run(c, calls[..j]).state.HalfOpen?;
    if i + 1 < j {
      HalfOpenCounts(c, calls, i, j - 1);
    } else {
      assert AdmittedCount(c, calls, i, i) == 0;
    }
  }

  /** A half-open period admits at most one more request than its limit. */
  lemma HalfOpenPeriodIsBounded(c: Config, calls: seq<Call>, i: nat, j: nat)
    requires c.Active() && i < j <= |calls|
    requires !Run(c, calls[..i]).state.HalfOpen?
    requires forall k :: i < k <= j ==> Run(c, calls[..k]).state.HalfOpen?
    ensures AdmittedCount(c, calls, i, j) <= c.halfOpenMaxRequests + 1
  {
    HalfOpenCounts(c, calls, i, j);
    EveryRunStaysInLimits(c, calls[..j]);
  }

  /** Each admitted request is followed at once by its result. Results may also come from elsewhere: a read served in
      read-only mode is recorded without having asked. */
  ghost predicate Sequential(c: Config, calls: seq<Call>) {
    forall i :: 0 < i < |calls| && Admitted(c, calls, i - 1) ==> calls[i].Success? || calls[i].Failure?
  }

  lemma AdmittedInPrefix(c: Config, calls: seq<Call>, n: nat, i: nat)
    requires i < n <= |calls|
    ensures Admitted(c, calls[..n], i) <==> Admitted(c, calls, i)
  {
    assert calls[..n][..i] == calls[..i];
  }

  lemma SequentialPrefix(c: Config, calls: seq<Call>, n: nat)
    requires Sequential(c, calls) && n <= |calls|
    ensures Sequential(c, calls[..n])
  {
    forall i | 0 <= i < n ensures Admitted(c, calls[..n], i) <==> Admitted(c, calls, i) {
      AdmittedInPrefix(c, calls, n, i);
    }
  }

  /** Half-open, between a result and the next request, every counted request has been paid for by a success, and so
      has the one that half-opened the breaker. */
  ghost predicate PaidUp(c: Config, calls: seq<Call>) {
    var b := Run(c, calls);
    b.state.HalfOpen? ==>
      if calls != [] && Admitted(c, calls, |calls| - 1) then b.halfOpenRequests <= b.successCount
      else b.halfOpenRequests + 1 <= b.successCount
  }

  lemma {:induction false} SequentialRunsPayUp(c: Config, calls: seq<Call>)
    requires c.Active() && Sequential(c, calls)
    ensures PaidUp(c, calls)
  {
    if calls != [] {
      var n := |calls| - 1;
      SequentialPrefix(c, calls, n);
      SequentialRunsPayUp(c, calls[..n]);
      EveryRunStaysInLimits(c, calls[..n]);
      if n > 0 {
        AdmittedInPrefix(c, calls, n, n - 1);
      }
    }
  }

  /** If every admitted request is recorded as a success or a failure before the next one, half-open never refuses. */
  lemma SequentialHalfOpenNeverRefuses(c: Config, calls: seq<Call>, now: nat)
    requires c.Active() && Sequential(c, calls) && Run(c, calls).state.HalfOpen?
    requires calls != [] ==> !Admitted(c, calls, |calls| - 1)
    ensures Admits(c, Run(c, calls), now)
  {
    SequentialRunsPayUp(c, calls);
    EveryRunStaysInLimits(c, calls);
  }

  // ---------- refusals ----------

  /** Exactly when a half-open breaker refuses: its period has admitted one request more than the limit. */
  lemma HalfOpenRefusesIff(c: Config, calls: seq<Call>, i: nat, j: nat, now: nat)
    requires c.Active() && i < j <= |calls|
    requires !Run(c, calls[..i]).state.HalfOpen?
    requires forall k :: i < k <= j ==> Run(c, calls[..k]).state.HalfOpen?
    ensures !Admits(c, Run(c, calls[..j]), now) <==> AdmittedCount(c, calls, i, j) == c.halfOpenMaxRequests + 1
  {
    HalfOpenCounts(c, calls, i, j);
    EveryRunStaysInLimits(c, calls[..j]);
    assert Run(c, calls[..j]).state.HalfOpen?;
  }

  /** How many requests admitted at or after call `i` were followed at once, before call `j`, by a success. */
  function AnsweredCount(c: Config, calls: seq<Call>, i: nat, j: nat): nat
    requires i <= j <= |calls|
  {
    if j <= i + 1 then 0
    else AnsweredCount(c, calls, i, j - 1) + if calls[j - 1].Success? && Admitted(c, calls, j - 2) then 1 else 0
  }

  lemma {:induction false} AnswersAreCounted(c: Config, calls: seq<Call>, i: nat, j: nat)
    requires c.Active() && i < j <= |calls|
    requires !Run(c, calls[..i]).state.HalfOpen?
    requires forall k :: i < k <= j ==> Run(c, calls[..k]).state.HalfOpen?
    ensures AnsweredCount(c, calls, i, j) <= Run(c, calls[..j]).successCount
  {
    RunStep(c, calls, j - 1);
    assert Run(c, calls[..j]).state.HalfOpen?;
    if i + 1 < j {
      assert Run(c, calls[..j - 1]).state.HalfOpen?;
      AnswersAreCounted(c, calls, i, j - 1);
    }
  }

  /** A refusal takes at least two admitted requests of the period without a success right behind them: one request
      whose result is never recorded, or is still due, is harmless whatever else happens. */
  lemma RefusalNeedsTwoUnanswered(c: Config, calls: seq<Call>, i: nat, j: nat, now: nat)
    requires c.Active() && i < j <= |calls|
    requires !Run(c, calls[..i]).state.HalfOpen?
    requires forall k :: i < k <= j ==> Run(c, calls[..k]).state.HalfOpen?
    requires !Admits(c, Run(c, calls[..j]), now)
    ensures AdmittedCount(c, calls, i, j) >= AnsweredCount(c, calls, i, j) + 2
  {
    HalfOpenRefusesIff(c, calls, i, j, now);
    AnswersAreCounted(c, calls, i, j);
    EveryRunStaysInLimits(c, calls[..j]);
  }

  predicate Exhausted(c: Config, b: Breaker) {
    c.enabled && b.state.HalfOpen? && b.halfOpenRequests >= c.halfOpenMaxRequests
  }

  function Successes(calls: seq<Call>): nat {
    if calls == [] then 0 else Successes(calls[..|calls| - 1]) + if calls[|calls| - 1].Success? then 1 else 0
  }

  /** A refusing half-open breaker stays so: without a failure or a reset, and until its successes reach the limit,
      nothing but the success count changes, so every request in between is refused, at any time. */
  lemma {:induction false} ExhaustedStaysExhausted(c: Config, calls: seq<Call>, more: seq<Call>)
    requires Exhausted(c, Run(c, calls))
    requires forall k :: 0 <= k < |more| ==> more[k].Request? || more[k].Success?
    requires Run(c, calls).successCount + Successes(more) < c.halfOpenMaxRequests
    ensures Run(c, calls + more) == Run(c, calls).(successCount := Run(c, calls).successCount + Successes(more))
    ensures forall k :: |calls| <= k < |calls + more| ==> !Admitted(c, calls + more, k)
  {
    if more == [] {
      assert calls + more == calls;
    } else {
      var n := |more| - 1;
      var all, before := calls + more, calls + more[..n];
      ExhaustedStaysExhausted(c, calls, more[..n]);
      assert all[..|all| - 1] == before && all[|all| - 1] == more[n];
      forall k | |calls| <= k < |before| ensures !Admitted(c, all, k) {
        AdmittedInPrefix(c, all, |before|, k);
      }
    }
  }

  /** The success that reaches the limit closes it again. */
  lemma SuccessesEndExhaustion(c: Config, calls: seq<Call>, more: seq<Call>)
    requires Exhausted(c, Run(c, calls))
    requires forall k :: 0 <= k < |more| ==> more[k].Request? || more[k].Success?
    requires Run(c, calls).successCount + Successes(more) + 1 == c.halfOpenMaxRequests
    ensures Run(c, calls + more + [Success]).state.Closed?
  {
    ExhaustedStaysExhausted(c, calls, more);
    assert (calls + more + [Success])[..|calls + more|] == calls + more;
  }

  // ---------- the way there ----------

  /** `n` requests, each followed by the failure of its call. */
  function FailedExchanges(n: nat): seq<Call> {
    if n == 0 then [] else FailedExchanges(n - 1) + [Request(0), Failure(0)]
  }

  /** `n` requests whose calls end in an error that is not recorded. */
  function UnrecordedRequests(n: nat, now: nat): seq<Call> {
    if n == 0 then [] else UnrecordedRequests(n - 1, now) + [Request(now)]
  }

  lemma {:induction false} FailuresOpen(c: Config, n: nat)
    requires c.Active() && n <= c.failureThreshold
    ensures Run(c, FailedExchanges(n)) ==
            if n < c.failureThreshold then Breaker(Closed, n, 0, None, 0) else Breaker(Open, n, 0, Some(0), 0)
  {
    if n > 0 {
      FailuresOpen(c, n - 1);
      var before := FailedExchanges(n - 1);
      var all := before + [Request(0), Failure(0)];
      assert all[..|all| - 1] == before + [Request(0)];
      assert (before + [Request(0)])[..|before|] == before;
    }
  }

  lemma {:induction false} UnrecordedUseUp(c: Config, n: nat)
    requires c.Active() && 0 < n <= c.halfOpenMaxRequests + 1
    ensures Run(c, FailedExchanges(c.failureThreshold) + UnrecordedRequests(n, c.recoveryTimeoutMs)) ==
            Breaker(HalfOpen, c.failureThreshold, 0, Some(0), n - 1)
  {
    var outage, now := FailedExchanges(c.failureThreshold), c.recoveryTimeoutMs;
    var before := outage + UnrecordedRequests(n - 1, now);
    var all := outage + UnrecordedRequests(n, now);
    assert all == before + [Request(now)] && all[..|before|] == before;
    if n == 1 {
      FailuresOpen(c, c.failureThreshold);
      assert before == outage;
    } else {
      UnrecordedUseUp(c, n - 1);
    }
  }

  /** It does happen, whatever the limits: after an outage, one admitted request more than the limit without a
      recorded result leaves a breaker that refuses every later request, however many and however late. */
  lemma UnrecordedRequestsExhaust(c: Config, later: seq<Call>)
    requires c.Active() && forall k :: 0 <= k < |later| ==> later[k].Request?
    ensures var calls := FailedExchanges(c.failureThreshold)
                         + UnrecordedRequests(c.halfOpenMaxRequests + 1, c.recoveryTimeoutMs);
            && Exhausted(c, Run(c, calls)) && Run(c, calls + later) == Run(c, calls)
            && forall k :: |calls| <= k < |calls + later| ==> !Admitted(c, calls + later, k)
  {
    UnrecordedUseUp(c, c.halfOpenMaxRequests + 1);
    RequestsAreNoSuccesses(later);
    var outage, unrecorded := FailedExchanges(c.failureThreshold), c.halfOpenMaxRequests + 1;
    ExhaustedStaysExhausted(c, outage + UnrecordedRequests(unrecorded, c.recoveryTimeoutMs), later);
  }

  lemma {:induction false} RequestsAreNoSuccesses(calls: seq<Call>)
    requires forall k :: 0 <= k < |calls| ==> calls[k].Request?
    ensures Successes(calls) == 0
  {
    if calls != [] {
      RequestsAreNoSuccesses(calls[..|calls| - 1]);
    }
  }
}
