/**
 The token bucket shared by both copies of `tokenBucketOOP.js`: a capped pool of
 whole tokens that refills by whole intervals and is drawn down one token per
 request. `Date.now()` is replaced by an explicit reading `now` (milliseconds),
 one per call; readings given to one bucket never go backwards.

 The module has two layers: a value model (`BucketState`, `Refilled`, `Consume`)
 about which the properties are proved, and the class `TokenBucket`, whose
 methods update the fields in place and are proved to agree with the value model.
 */
module TokenBucket {
  import opened Wrappers

  /** A refill interval in milliseconds. */
  type PosInt = n: int | 0 < n witness 1

  function Min(a: int, b: int): (m: int)
    ensures m <= a && m <= b && (m == a || m == b)
  {
    if a <= b then a else b
  }

  /**
   The fields of a bucket at one moment. `refillInterval` is `None` when the
   constructor was given no third argument: the JavaScript field is then
   `undefined`, and every quantity computed from it is `NaN`.
   */
  datatype BucketState = BucketState(
    bucketSize: nat,
    tokens: int,
    refillRate: int,
    refillInterval: Option<PosInt>,
    lastRefillTime: int)

  /** 0 <= tokens <= bucketSize. */
  predicate Bounded(b: BucketState)
  {
    0 <= b.tokens <= b.bucketSize
  }

  /** The state the constructor builds at time `now`. */
  function NewBucket(bucketSize: nat, refillRate: int, refillInterval: Option<PosInt>, now: int): (b: BucketState)
    ensures Bounded(b) && b.tokens == bucketSize && b.lastRefillTime == now
    ensures Refilled(b, now) == b
    ensures Consume(b, now).0 <==> bucketSize >= 1
  {
    BucketState(bucketSize, bucketSize, refillRate, refillInterval, now)
  }

  /**
   `refill()`: the whole intervals since `lastRefillTime` are credited at
   `refillRate` tokens each, capped at `bucketSize`, and `lastRefillTime`
   advances by exactly those intervals. With no interval, `tokensToAdd` is NaN
   and the guard `tokensToAdd > 0` is false. Dafny's `/` by a positive divisor
   rounds down, as the JavaScript `refill` does by flooring the quotient.
   */
  function Refilled(b: BucketState, now: int): (r: BucketState)
    ensures r.bucketSize == b.bucketSize && r.refillRate == b.refillRate
    ensures r.refillInterval == b.refillInterval
  {
    match b.refillInterval
    case None => b
    case Some(interval) =>
      var intervalsPassed := (now - b.lastRefillTime) / interval;
      var tokensToAdd := intervalsPassed * b.refillRate;
      if tokensToAdd > 0 then
        b.(tokens := Min(b.bucketSize, b.tokens + tokensToAdd),
           lastRefillTime := b.lastRefillTime + intervalsPassed * interval)
      else
        b
  }

  /** `consumeToken()`: refill, then take one token if there is one. */
  function Consume(b: BucketState, now: int): (r: (bool, BucketState))
    ensures r.1.bucketSize == b.bucketSize && r.1.refillRate == b.refillRate
    ensures r.1.refillInterval == b.refillInterval
  {
    var refilled := Refilled(b, now);
    if refilled.tokens >= 1 then (true, refilled.(tokens := refilled.tokens - 1))
    else (false, refilled)
  }

  /**
   The number `refillInterval - (now - lastRefillTime)` the live copy throws as
   `timeRemaining`; `None` stands for the `NaN` an undefined interval gives.
   */
  function TimeRemaining(b: BucketState, now: int): (r: Option<int>)
    ensures r.Some? <==> b.refillInterval.Some?
    ensures r.Some? && b.lastRefillTime <= now ==> r.value <= b.refillInterval.value
  {
    match b.refillInterval
    case None => None
    case Some(interval) => Some(interval - (now - b.lastRefillTime))
  }

  // ---------------------------------------------------------------------------
  // Arithmetic helpers

  lemma MulAtLeast(k: int, d: int)
    requires k >= 1 && d > 0
    ensures k * d >= d
  {
  }

  /** The only multiple of `d` strictly between `-d` and `d` is zero. */
  lemma ZeroMultiple(k: int, d: int)
    requires d > 0 && -d < k * d < d
    ensures k == 0
  {
    if k >= 1 {
      MulAtLeast(k, d);
    } else if k <= -1 {
      MulAtLeast(-k, d);
    }
  }

  /** Euclidean division is unique. */
  lemma DivModUnique(n: int, d: int, q: int, m: int)
    requires d > 0 && n == q * d + m && 0 <= m < d
    ensures n / d == q && n % d == m
  {
    var q0, m0 := n / d, n % d;
    assert (q - q0) * d == m0 - m;
    ZeroMultiple(q - q0, d);
  }

  /** Adding whole intervals does not change the phase. */
  lemma ShiftByMultiple(n: int, k: int, d: int)
    requires d > 0
    ensures (n + k * d) % d == n % d
    ensures (n + k * d) / d == n / d + k
  {
    DivModUnique(n + k * d, d, n / d + k, n % d);
  }

  /** The remainder left after taking `n / d` whole intervals out of `n`. */
  lemma FloorBounds(n: int, d: int)
    requires d > 0
    ensures (n / d) * d <= n < (n / d) * d + d
    ensures n >= 0 ==> n / d >= 0
    ensures 0 <= n < d ==> n / d == 0
  {
    if 0 <= n < d {
      DivModUnique(n, d, 0, n);
    }
  }

  /**
   The arithmetic of two successive refills: `q1` intervals taken at the first,
   `q` more at the second, together the `q2` intervals a single refill takes.
   */
  lemma SplitIntervals(n1: int, n2: int, d: int)
    requires d > 0 && 0 <= n1 <= n2
    ensures 0 <= n1 / d <= n2 / d
    ensures (n2 - (n1 / d) * d) / d == n2 / d - n1 / d
  {
    var q1, q2 := n1 / d, n2 / d;
    FloorBounds(n1, d);
    FloorBounds(n2, d);
    assert q1 * d - q2 * d < d;
    assert (q1 - q2) * d == q1 * d - q2 * d;
    if q1 - q2 >= 1 {
      MulAtLeast(q1 - q2, d);
    }
    ShiftByMultiple(n2, -q1, d);
    assert n2 + (-q1) * d == n2 - q1 * d;
  }

  // ---------------------------------------------------------------------------
  // Properties of refill

  /**
   Refill keeps 0 <= tokens <= bucketSize, and when `lastRefillTime` was not
   ahead of `now` it only moves forward, by whole intervals, and never past `now`.
   */
  lemma RefillKeepsBounds(b: BucketState, now: int)
    requires Bounded(b) && b.lastRefillTime <= now
    ensures Bounded(Refilled(b, now))
    ensures b.lastRefillTime <= Refilled(b, now).lastRefillTime <= now
    ensures b.refillInterval.Some? ==>
      (Refilled(b, now).lastRefillTime - b.lastRefillTime) % b.refillInterval.value == 0
  {
    var r := Refilled(b, now);
    match b.refillInterval
    case None =>
    case Some(interval) =>
      var q := (now - b.lastRefillTime) / interval;
      FloorBounds(now - b.lastRefillTime, interval);
      if q * b.refillRate > 0 {
        assert r.lastRefillTime == b.lastRefillTime + q * interval;
        ShiftByMultiple(0, q, interval);
      }
  }

  /**
   With a positive rate, refill catches up completely: afterwards less than one
   interval separates `lastRefillTime` from `now`, the sub-interval remainder
   is kept (the timestamp lands on a whole number of intervals after the old
   one, never on `now` itself), and the tokens gained are the intervals
   credited times the rate, capped at `bucketSize`.
   */
  lemma RefillCatchesUp(b: BucketState, now: int)
    requires b.refillInterval.Some? && b.refillRate > 0 && b.lastRefillTime <= now
    ensures var r := Refilled(b, now); var interval := b.refillInterval.value;
      && r.lastRefillTime <= now < r.lastRefillTime + interval
      && (r.lastRefillTime - b.lastRefillTime) % interval == 0
      && (now - r.lastRefillTime) == (now - b.lastRefillTime) % interval
      && r.tokens == if r.lastRefillTime == b.lastRefillTime then b.tokens
                     else Min(b.bucketSize,
                              b.tokens + (r.lastRefillTime - b.lastRefillTime) / interval * b.refillRate)
  {
    var interval := b.refillInterval.value;
    var n := now - b.lastRefillTime;
    var q := n / interval;
    FloorBounds(n, interval);
    ShiftByMultiple(0, q, interval);
    if q == 0 {
      assert Refilled(b, now) == b;
    } else {
      MulAtLeast(q, b.refillRate);
    }
  }

  /** A positive-rate refill is impossible before a whole interval has passed. */
  lemma RefillNeedsWholeInterval(b: BucketState, now: int)
    requires b.refillInterval.Some? && b.lastRefillTime <= now < b.lastRefillTime + b.refillInterval.value
    ensures Refilled(b, now) == b
  {
    FloorBounds(now - b.lastRefillTime, b.refillInterval.value);
  }

  /** A rate that is not positive never adds tokens and never moves the timestamp. */
  lemma RefillNeedsPositiveRate(b: BucketState, now: int)
    requires b.refillRate <= 0 && b.lastRefillTime <= now
    ensures Refilled(b, now) == b
  {
    if b.refillInterval.Some? {
      var q := (now - b.lastRefillTime) / b.refillInterval.value;
      FloorBounds(now - b.lastRefillTime, b.refillInterval.value);
      assert q * b.refillRate <= 0 by {
        assert q >= 0;
      }
    }
  }

  /** An undefined interval makes refill a no-op. */
  lemma RefillWithoutInterval(b: BucketState, now: int)
    requires b.refillInterval.None?
    ensures Refilled(b, now) == b
  {
  }

  /** Refilling twice at one instant is refilling once. */
  lemma RefillIdempotent(b: BucketState, now: int)
    ensures Refilled(Refilled(b, now), now) == Refilled(b, now)
  {
    var r := Refilled(b, now);
    if r != b {
      var interval := b.refillInterval.value;
      var n := now - b.lastRefillTime;
      var q := n / interval;
      FloorBounds(n, interval);
      assert r.lastRefillTime == b.lastRefillTime + q * interval;
      assert 0 <= now - r.lastRefillTime < interval;
      RefillNeedsWholeInterval(r, now);
    }
  }

  /**
   No drift: refilling at `t1` and then at `t2` leaves exactly the state a
   single refill at `t2` would, because the remainder left at `t1` is carried
   into the second refill and the cap commutes with adding more tokens.
   */
  lemma RefillNoDrift(b: BucketState, t1: int, t2: int)
    requires b.lastRefillTime <= t1 <= t2
    ensures Refilled(Refilled(b, t1), t2) == Refilled(b, t2)
  {
    if b.refillInterval.None? {
      return;
    }
    if b.refillRate <= 0 {
      RefillNeedsPositiveRate(b, t1);
      return;
    }
    var interval := b.refillInterval.value;
    var rate := b.refillRate;
    var q1 := (t1 - b.lastRefillTime) / interval;
    var q2 := (t2 - b.lastRefillTime) / interval;
    SplitIntervals(t1 - b.lastRefillTime, t2 - b.lastRefillTime, interval);
    if q1 == 0 {
      assert Refilled(b, t1) == b;
      return;
    }
    var r1 := Refilled(b, t1);
    MulAtLeast(q1, rate);
    assert r1.lastRefillTime == b.lastRefillTime + q1 * interval;
    var q := (t2 - r1.lastRefillTime) / interval;
    assert q == q2 - q1;
    MulAtLeast(q2, rate);
    if q >= 1 {
      MulAtLeast(q, rate);
      assert q1 * rate + q * rate == q2 * rate;
      assert q1 * interval + q * interval == q2 * interval;
    }
  }

  // ---------------------------------------------------------------------------
  // Properties of consumeToken

  /**
   `consumeToken` succeeds exactly when the refilled bucket holds a token, and
   then takes exactly one; on failure nothing beyond the refill changes. The
   bounds 0 <= tokens <= bucketSize are kept.
   */
  lemma ConsumeTakesOneToken(b: BucketState, now: int)
    requires Bounded(b) && b.lastRefillTime <= now
    ensures var (ok, r) := Consume(b, now); var refilled := Refilled(b, now);
      && (ok <==> refilled.tokens >= 1)
      && r.tokens == (if ok then refilled.tokens - 1 else refilled.tokens)
      && (!ok ==> r.tokens == 0)
      && r.lastRefillTime == refilled.lastRefillTime
      && Bounded(r)
  {
    RefillKeepsBounds(b, now);
  }

  /**
   With a positive rate and an interval, the retry hint computed right after a
   `consumeToken` at the same instant lies in (0, refillInterval].
   */
  lemma TimeRemainingInRange(b: BucketState, now: int)
    requires b.refillInterval.Some? && b.refillRate > 0 && b.lastRefillTime <= now
    ensures var t := TimeRemaining(Consume(b, now).1, now);
      t.Some? && 0 < t.value <= b.refillInterval.value
  {
    RefillCatchesUp(b, now);
  }

  /** Without an interval a bucket only counts down: each call takes a token until none is left. */
  lemma ConsumeWithoutInterval(b: BucketState, now: int)
    requires b.refillInterval.None?
    ensures var (ok, r) := Consume(b, now);
      && (ok <==> b.tokens >= 1)
      && r == (if ok then b.(tokens := b.tokens - 1) else b)
  {
  }

  // ---------------------------------------------------------------------------
  // The class

  /** `class TokenBucket`: the fields that `refill` and `consumeToken` update in place. */
  class TokenBucket {
    const bucketSize: nat
    var tokens: int
    const refillRate: int
    const refillInterval: Option<PosInt>
    var lastRefillTime: int
    /** The latest clock reading this bucket has been given. */
    ghost var clock: int
    /** The construction time; `lastRefillTime` stays a whole number of intervals after it. */
    ghost const createdAt: int

    ghost predicate Valid()
      reads this
    {
      && 0 <= tokens <= bucketSize
      && createdAt <= lastRefillTime <= clock
      && (refillInterval.Some? ==> (lastRefillTime - createdAt) % refillInterval.value == 0)
    }

    function State(): BucketState
      reads this
    {
      BucketState(bucketSize, tokens, refillRate, refillInterval, lastRefillTime)
    }

    /** A new bucket is full and was last refilled at its construction time. */
    constructor (bucketSize: nat, refillRate: int, refillInterval: Option<PosInt>, now: int)
      ensures Valid() && clock == now && createdAt == now
      ensures this.tokens == bucketSize && this.lastRefillTime == now
      ensures State() == NewBucket(bucketSize, refillRate, refillInterval, now)
    {
      this.bucketSize := bucketSize;
      this.tokens := bucketSize;
      this.refillRate := refillRate;
      this.refillInterval := refillInterval;
      this.lastRefillTime := now;
      this.clock := now;
      this.createdAt := now;
    }

    method Refill(now: int)
      requires Valid() && clock <= now
      modifies this
      ensures Valid() && clock == now
      ensures State() == Refilled(old(State()), now)
    {
      RefillKeepsBounds(State(), now);
      match refillInterval {
        case None =>
          // timePassed / undefined is NaN, so nothing is added
        case Some(interval) =>
          var timePassed := now - lastRefillTime;
          var intervalsPassed := timePassed / interval;
          var tokensToAdd := intervalsPassed * refillRate;
          if tokensToAdd > 0 {
            tokens := Min(bucketSize, tokens + tokensToAdd);
            ShiftByMultiple(lastRefillTime - createdAt, intervalsPassed, interval);
            lastRefillTime := lastRefillTime + intervalsPassed * interval;
          }
      }
      clock := now;
    }

    method ConsumeToken(now: int) returns (ok: bool)
      requires Valid() && clock <= now
      modifies this
      ensures Valid() && clock == now
      ensures (ok, State()) == Consume(old(State()), now)
    {
      Refill(now);
      if tokens >= 1 {
        tokens := tokens - 1;
        ok := true;
      } else {
        ok := false;
      }
    }
  }
}
