/** The token bucket over real time, and the bound it enforces on every window. */
module RateLimiters {

  function Min(a: real, b: real): real {
    if a < b then a else b
  }

  datatype Bucket = Bucket(capacity: nat, rate: real, tokens: real, lastRefill: real)
  {
    ghost predicate Valid() {
      rate >= 0.0 && 0.0 <= tokens <= capacity as real
    }
  }

  function Gain(rate: real, since: real, now: real): real {
    (now - since) * rate
  }

  function Accrued(b: Bucket, now: real): real {
    Gain(b.rate, b.lastRefill, now)
  }

  function Refill(b: Bucket, now: real): Bucket {
    b.(tokens := Min(b.tokens + Accrued(b, now), b.capacity as real), lastRefill := now)
  }

  predicate Grants(b: Bucket, now: real) {
    Refill(b, now).tokens >= 1.0
  }

  function Acquire(b: Bucket, now: real): Bucket {
    var filled := Refill(b, now);
    if Grants(b, now) then filled.(tokens := filled.tokens - 1.0) else filled
  }

  class TokenBucketRateLimiter {
    const capacity: nat
    const refillRate: real
    var tokens: real
    var lastRefill: real

    ghost function Value(): Bucket
      reads this
    {
      Bucket(capacity, refillRate, tokens, lastRefill)
    }

    constructor (capacity: nat, refillRatePerSecond: real, now: real)
      ensures Value() == Bucket(capacity, refillRatePerSecond, capacity as real, now)
    {
      this.capacity := capacity;
      refillRate := refillRatePerSecond;
      tokens := capacity as real;
      lastRefill := now;
    }

    method TryAcquire(now: real) returns (granted: bool)
      modifies this
      ensures granted == Grants(old(Value()), now) && Value() == Acquire(old(Value()), now)
    {
      RefillTokens(now);
      if tokens >= 1.0 {
        tokens := tokens - 1.0;
        granted := true;
      } else {
        granted := false;
      }
    }

    method RefillTokens(now: real)
      modifies this
      ensures Value() == Refill(old(Value()), now)
    {
      var elapsed := now - lastRefill;
      tokens := Min(tokens + elapsed * refillRate, capacity as real);
      lastRefill := now;
    }
  }

  // ---------- runs ----------

  ghost predicate Nondecreasing(start: real, times: seq<real>) {
    && (times != [] ==> start <= times[0])
    && (forall i, j :: 0 <= i < j < |times| ==> times[i] <= times[j])
  }

  ghost function Run(b: Bucket, times: seq<real>): Bucket {
    if times == [] then b else Acquire(Run(b, times[..|times| - 1]), times[|times| - 1])
  }

  /** Acquisitions granted by a sequence of calls. */
  ghost function Granted(b: Bucket, times: seq<real>): nat {
    if times == [] then 0 else
      var n := |times| - 1;
      Granted(b, times[..n]) + if Grants(Run(b, times[..n]), times[n]) then 1 else 0
  }

  // ---------- the bucket driven by gains instead of times ----------

  /** The level after each gain has been poured in, cut at the brim, and one token taken when there is one. */
  ghost function Level(capacity: real, tokens: real, gains: seq<real>): real {
    if gains == [] then tokens else
      var n := |gains| - 1;
      var filled := Min(Level(capacity, tokens, gains[..n]) + gains[n], capacity);
      if filled >= 1.0 then filled - 1.0 else filled
  }

  ghost function Taken(capacity: real, tokens: real, gains: seq<real>): nat {
    if gains == [] then 0 else
      var n := |gains| - 1;
      Taken(capacity, tokens, gains[..n]) + if Min(Level(capacity, tokens, gains[..n]) + gains[n], capacity) >= 1.0 then 1 else 0
  }

  ghost function Sum(gains: seq<real>): real {
    if gains == [] then 0.0 else Sum(gains[..|gains| - 1]) + gains[|gains| - 1]
  }

  ghost predicate Gainful(gains: seq<real>) {
    forall i :: 0 <= i < |gains| ==> gains[i] >= 0.0
  }

  /** Every token taken was there at the start or poured in. */
  lemma {:induction false} TakenIsPaid(capacity: real, tokens: real, gains: seq<real>)
    requires 0.0 <= tokens <= capacity && Gainful(gains)
    ensures 0.0 <= Level(capacity, tokens, gains) <= capacity
    ensures Level(capacity, tokens, gains) + Taken(capacity, tokens, gains) as real <= tokens + Sum(gains)
  {
    if gains != [] {
      TakenIsPaid(capacity, tokens, gains[..|gains| - 1]);
    }
  }

  /** The first gain can at most fill the bucket, so only the later ones add to the capacity. */
  lemma {:induction false} TakenAfterFirst(capacity: real, tokens: real, gains: seq<real>)
    requires 0.0 <= tokens <= capacity && Gainful(gains) && gains != []
    ensures Level(capacity, tokens, gains) + Taken(capacity, tokens, gains) as real <= capacity + Sum(gains[1..])
  {
    var n := |gains| - 1;
    TakenIsPaid(capacity, tokens, gains[..n]);
    if n == 0 {
      assert gains[..0] == [] == gains[1..];
    } else {
      TakenAfterFirst(capacity, tokens, gains[..n]);
      assert gains[1..][..n - 1] == gains[..n][1..];
    }
  }

  // ---------- from times to gains ----------

  function LastTime(start: real, times: seq<real>): real {
    if times == [] then start else times[|times| - 1]
  }

  /** What each call pours in. */
  ghost function Gains(b: Bucket, times: seq<real>): (gains: seq<real>)
    ensures |gains| == |times|
  {
    if times == [] then [] else
      var n := |times| - 1;
      Gains(b, times[..n]) + [Accrued(Run(b, times[..n]), times[n])]
  }

  lemma AcquireFollowsGain(b: Bucket, now: real)
    ensures var filled := Min(b.tokens + Accrued(b, now), b.capacity as real);
            && (Grants(b, now) <==> filled >= 1.0)
            && Acquire(b, now) == b.(tokens := if filled >= 1.0 then filled - 1.0 else filled, lastRefill := now)
  {
  }

  /** The limiter is in the state the gain-driven bucket would be in. */
  lemma {:induction false} RunFollowsGains(b: Bucket, times: seq<real>)
    ensures Run(b, times) == b.(tokens := Level(b.capacity as real, b.tokens, Gains(b, times)),
                                lastRefill := LastTime(b.lastRefill, times))
    ensures Granted(b, times) == Taken(b.capacity as real, b.tokens, Gains(b, times))
  {
    if times != [] {
      var n := |times| - 1;
      RunFollowsGains(b, times[..n]);
      assert Gains(b, times)[..n] == Gains(b, times[..n]);
      AcquireFollowsGain(Run(b, times[..n]), times[n]);
    }
  }

  lemma AccrualIsMonotone(rate: real, a: real, b: real)
    requires rate >= 0.0 && a <= b
    ensures a * rate <= b * rate && (b - a) * rate >= 0.0
  {
  }

  /** The same gains, read off the clock alone. */
  ghost function ClockGains(rate: real, start: real, times: seq<real>): (gains: seq<real>)
    ensures |gains| == |times|
  {
    if times == [] then [] else
      var n := |times| - 1;
      ClockGains(rate, start, times[..n]) + [Gain(rate, LastTime(start, times[..n]), times[n])]
  }

  lemma LastGain(b: Bucket, times: seq<real>, now: real)
    ensures Accrued(Run(b, times), now) == Gain(b.rate, LastTime(b.lastRefill, times), now)
  {
    RunFollowsGains(b, times);
  }

  lemma {:induction false} GainsComeFromTheClock(b: Bucket, times: seq<real>)
    ensures Gains(b, times) == ClockGains(b.rate, b.lastRefill, times)
  {
    if times != [] {
      var n := |times| - 1;
      GainsComeFromTheClock(b, times[..n]);
      LastGain(b, times[..n], times[n]);
    }
  }

  lemma {:induction false} GainsAreGainful(rate: real, start: real, times: seq<real>)
    requires rate >= 0.0 && Nondecreasing(start, times)
    ensures Gainful(ClockGains(rate, start, times))
  {
    if times != [] {
      var n := |times| - 1;
      GainsAreGainful(rate, start, times[..n]);
      AccrualIsMonotone(rate, LastTime(start, times[..n]), times[n]);
    }
  }

  lemma AccrualAdds(rate: real, a: real, b: real, c: real)
    ensures (b - a) * rate + (c - b) * rate == (c - a) * rate
  {
  }

  lemma {:induction false} LaterGainsSpanTheWindow(rate: real, start: real, times: seq<real>)
    requires times != []
    ensures Sum(ClockGains(rate, start, times)[1..]) == (times[|times| - 1] - times[0]) * rate
  {
    var n := |times| - 1;
    if n > 0 {
      LaterGainsSpanTheWindow(rate, start, times[..n]);
      var gains, before := ClockGains(rate, start, times), ClockGains(rate, start, times[..n]);
      assert gains[1..] == before[1..] + [gains[n]];
      assert gains[1..][..n - 1] == before[1..];
      AccrualAdds(rate, times[0], times[n - 1], times[n]);
    } else {
      assert ClockGains(rate, start, times)[1..] == [];
    }
  }

  lemma LaterGainsFitTheSpan(rate: real, start: real, window: seq<real>, span: real)
    requires rate >= 0.0 && window != [] && window[|window| - 1] - window[0] <= span
    ensures Sum(ClockGains(rate, start, window)[1..]) <= span * rate
  {
    LaterGainsSpanTheWindow(rate, start, window);
    AccrualIsMonotone(rate, window[|window| - 1] - window[0], span);
  }

  /** In every run the tokens stay between zero and the capacity. */
  lemma EveryRunStaysValid(b: Bucket, times: seq<real>)
    requires b.Valid() && Nondecreasing(b.lastRefill, times)
    ensures Run(b, times).Valid() && Run(b, times).capacity == b.capacity && Run(b, times).rate == b.rate
    ensures Run(b, times).lastRefill == LastTime(b.lastRefill, times)
  {
    RunFollowsGains(b, times);
    GainsComeFromTheClock(b, times);
    GainsAreGainful(b.rate, b.lastRefill, times);
    TakenIsPaid(b.capacity as real, b.tokens, Gains(b, times));
  }

  lemma WindowTakesLaterGains(b: Bucket, window: seq<real>)
    requires b.Valid() && window != [] && Nondecreasing(b.lastRefill, window)
    ensures Granted(b, window) as real <= b.capacity as real + Sum(ClockGains(b.rate, b.lastRefill, window)[1..])
  {
    RunFollowsGains(b, window);
    GainsComeFromTheClock(b, window);
    GainsAreGainful(b.rate, b.lastRefill, window);
    TakenIsPaid(b.capacity as real, b.tokens, Gains(b, window));
    TakenAfterFirst(b.capacity as real, b.tokens, Gains(b, window));
  }

  lemma NondecreasingSplits(start: real, before: seq<real>, window: seq<real>)
    requires Nondecreasing(start, before + window)
    ensures Nondecreasing(start, before) && Nondecreasing(LastTime(start, before), window)
  {
    var all := before + window;
    assert forall i :: 0 <= i < |before| ==> before[i] == all[i];
    assert forall i :: 0 <= i < |window| ==> window[i] == all[|before| + i];
  }

  /** With the refill of the window bounded, so are its grants. */
  lemma WindowWithin(b: Bucket, before: seq<real>, window: seq<real>, limit: real)
    requires b.Valid() && Nondecreasing(b.lastRefill, before + window) && window != []
    requires Sum(ClockGains(b.rate, LastTime(b.lastRefill, before), window)[1..]) <= limit
    ensures Granted(Run(b, before), window) as real <= b.capacity as real + limit
  {
    NondecreasingSplits(b.lastRefill, before, window);
    EveryRunStaysValid(b, before);
    WindowTakesLaterGains(Run(b, before), window);
  }

  /** In any run, the calls of any window of length `span` are granted at most capacity + span * rate times. */
  lemma WindowIsBounded(b: Bucket, before: seq<real>, window: seq<real>, span: real, refilled: real)
    requires b.Valid() && Nondecreasing(b.lastRefill, before + window) && window != []
    requires window[|window| - 1] - window[0] <= span && refilled == span * b.rate
    ensures Granted(Run(b, before), window) as real <= b.capacity as real + refilled
  {
    LaterGainsFitTheSpan(b.rate, LastTime(b.lastRefill, before), window, span);
    WindowWithin(b, before, window, refilled);
  }

  // ---------- what is never refused ----------

  lemma GainIsNotNegative(rate: real, since: real, now: real)
    requires rate >= 0.0 && since <= now
    ensures Gain(rate, since, now) >= 0.0
  {
    AccrualIsMonotone(rate, since, now);
  }

  lemma AcquireTakesAtMostOne(b: Bucket, now: real)
    requires b.Valid() && Accrued(b, now) >= 0.0
    ensures b.tokens >= 1.0 ==> Grants(b, now)
    ensures Acquire(b, now).tokens >= b.tokens - 1.0
  {
  }

  /** A bucket with as many tokens as there are calls grants every one of them, at whatever times they come: a full
      bucket grants a burst of its whole capacity at once. */
  lemma {:induction false} StockIsGranted(b: Bucket, times: seq<real>)
    requires b.Valid() && Nondecreasing(b.lastRefill, times) && b.tokens >= |times| as real
    ensures Granted(b, times) == |times| && Run(b, times).tokens >= b.tokens - |times| as real
  {
    if times != [] {
      var n := |times| - 1;
      assert Nondecreasing(b.lastRefill, times[..n]);
      StockIsGranted(b, times[..n]);
      EveryRunStaysValid(b, times[..n]);
      assert LastTime(b.lastRefill, times[..n]) <= times[n];
      var left := Run(b, times[..n]);
      assert Accrued(left, times[n]) >= 0.0 by { GainIsNotNegative(left.rate, left.lastRefill, times[n]); }
      AcquireTakesAtMostOne(left, times[n]);
    }
  }

  /** After any run a call is refused exactly when what was left, with what the time since the last call has brought,
      makes no whole token. */
  lemma RefusedIff(b: Bucket, times: seq<real>, now: real)
    requires b.Valid() && b.capacity >= 1 && Nondecreasing(b.lastRefill, times)
    ensures !Grants(Run(b, times), now) <==> Run(b, times).tokens + Gain(b.rate, LastTime(b.lastRefill, times), now) < 1.0
  {
    assert Run(b, times).capacity == b.capacity by { EveryRunStaysValid(b, times); }
    LastGain(b, times, now);
  }

  /** So a call that comes one token's time after the last is granted. */
  lemma WaitIsGranted(b: Bucket, times: seq<real>, now: real)
    requires b.Valid() && b.capacity >= 1 && Nondecreasing(b.lastRefill, times)
    requires Gain(b.rate, LastTime(b.lastRefill, times), now) >= 1.0
    ensures Grants(Run(b, times), now)
  {
    assert Run(b, times).tokens >= 0.0 by { EveryRunStaysValid(b, times); }
    RefusedIff(b, times, now);
  }

  /** The call finds room in the bucket for all that has accrued. */
  predicate Fits(b: Bucket, now: real) {
    b.tokens + Accrued(b, now) <= b.capacity as real
  }

  lemma AcquireConserves(b: Bucket, now: real)
    requires Fits(b, now)
    ensures Acquire(b, now).tokens + (if Grants(b, now) then 1.0 else 0.0) == b.tokens + Accrued(b, now)
  {
  }

  /** While nothing overflows, tokens are conserved: what is left and what was granted is what was there and what time has
      brought. */
  lemma {:induction false} TokensAreConserved(b: Bucket, times: seq<real>)
    requires forall i :: 0 <= i < |times| ==> Fits(Run(b, times[..i]), times[i])
    ensures Run(b, times).tokens + Granted(b, times) as real == b.tokens + Sum(ClockGains(b.rate, b.lastRefill, times))
  {
    if times != [] {
      var n := |times| - 1;
      forall i | 0 <= i < n ensures Fits(Run(b, times[..n][..i]), times[..n][i]) {
        assert times[..n][..i] == times[..i];
        assert Fits(Run(b, times[..i]), times[i]);
      }
      TokensAreConserved(b, times[..n]);
      AcquireConserves(Run(b, times[..n]), times[n]);
      LastGain(b, times[..n], times[n]);
      var gains := ClockGains(b.rate, b.lastRefill, times);
      assert gains[..n] == ClockGains(b.rate, b.lastRefill, times[..n]);
    }
  }
}
