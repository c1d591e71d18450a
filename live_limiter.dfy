/**
 `consumeIP(ip, bucketSize, refillRate, refillInterval)` of
 `rate-limiter-algos/tokenBucketOOP.js`, the copy the middleware calls. The
 interval arrives in seconds and is stored in milliseconds; a request that
 finds no token throws `{timeRemaining, message}`, modelled as `Denied`.
 */
module LiveLimiter {
  import opened Wrappers
  import opened TokenBucket
  import opened BucketStore

  /**
   One call of `consumeIP` on the value of `tokenBucketMap`: the outcome and the
   new map. The interval is only converted (and must be positive) when a bucket
   is created; an existing bucket is used as it is.
   */
  function Step(s: map<string, BucketState>, ip: string, bucketSize: nat, refillRate: int,
                refillInterval: int, now: int): (r: (Outcome, map<string, BucketState>))
    requires ip !in s ==> refillInterval > 0
    ensures r.1.Keys == s.Keys + {ip}
    ensures forall k :: k in s && k != ip ==> r.1[k] == s[k]
    ensures r.0.Denied? ==> r.0.message == TooManyRequests
  {
    var created := if ip in s then s[ip]
                   else NewBucket(bucketSize, refillRate, Some(refillInterval * 1000), now);
    var (ok, s') := ConsumeAt(s, ip, created, now);
    if ok then (Admitted, s')
    else (Denied(TimeRemaining(s'[ip], now), TooManyRequests), s')
  }

  /** The requests of `calls`, in order, all under one configuration, as the middleware makes them. */
  function Run(s: map<string, BucketState>, bucketSize: nat, refillRate: int, refillInterval: int,
               calls: seq<Call>): (r: seq<Outcome>)
    requires refillInterval > 0
    ensures |r| == |calls|
    decreases |calls|
  {
    if calls == [] then []
    else
      var (o, s') := Step(s, calls[0].ip, bucketSize, refillRate, refillInterval, calls[0].now);
      [o] + Run(s', bucketSize, refillRate, refillInterval, calls[1..])
  }

  /** The state `Run` leaves behind. */
  function After(s: map<string, BucketState>, bucketSize: nat, refillRate: int, refillInterval: int,
                 calls: seq<Call>): map<string, BucketState>
    requires refillInterval > 0
    decreases |calls|
  {
    if calls == [] then s
    else
      var (_, s') := Step(s, calls[0].ip, bucketSize, refillRate, refillInterval, calls[0].now);
      After(s', bucketSize, refillRate, refillInterval, calls[1..])
  }

  /** A key that already has a bucket ignores the parameters of later calls. */
  lemma ReuseIgnoresParameters(s: map<string, BucketState>, ip: string, now: int,
                               size1: nat, rate1: int, interval1: int,
                               size2: nat, rate2: int, interval2: int)
    requires ip in s
    ensures Step(s, ip, size1, rate1, interval1, now) == Step(s, ip, size2, rate2, interval2, now)
  {
  }

  /**
   The first request for a key creates a full bucket with the call's size and
   rate and its interval times 1000, last refilled at `now`, and takes one token
   from it; a bucket of size 0 denies at once with the whole interval to wait.
   */
  lemma FirstRequestCreates(s: map<string, BucketState>, ip: string, bucketSize: nat, refillRate: int,
                            refillInterval: int, now: int)
    requires ip !in s && refillInterval > 0
    ensures var (o, s') := Step(s, ip, bucketSize, refillRate, refillInterval, now);
      && s'[ip].bucketSize == bucketSize && s'[ip].refillRate == refillRate
      && s'[ip].refillInterval == Some(refillInterval * 1000)
      && s'[ip].lastRefillTime == now
      && (bucketSize >= 1 ==> o == Admitted && s'[ip].tokens == bucketSize - 1)
      && (bucketSize == 0 ==> o == Denied(Some(refillInterval * 1000), TooManyRequests) && s'[ip].tokens == 0)
  {
    var b := NewBucket(bucketSize, refillRate, Some(refillInterval * 1000), now);
    RefillNeedsWholeInterval(b, now);
  }

  /** Every bucket stays within 0 <= tokens <= bucketSize and is never refilled past `now`. */
  lemma StepKeepsBounds(s: map<string, BucketState>, ip: string, bucketSize: nat, refillRate: int,
                        refillInterval: int, now: int)
    requires ip !in s ==> refillInterval > 0
    requires AllBounded(s, now)
    ensures AllBounded(Step(s, ip, bucketSize, refillRate, refillInterval, now).1, now)
  {
    var created := if ip in s then s[ip]
                   else NewBucket(bucketSize, refillRate, Some(refillInterval * 1000), now);
    ConsumeAtKeepsBounds(s, ip, created, now);
  }

  /**
   A denial's `timeRemaining`, read at the same instant as the refill, lies in
   (0, refillInterval] whenever the bucket has a positive rate.
   */
  lemma DenialWaitInRange(s: map<string, BucketState>, ip: string, bucketSize: nat, refillRate: int,
                          refillInterval: int, now: int)
    requires ip !in s ==> refillInterval > 0
    requires ip in s ==> s[ip].lastRefillTime <= now && s[ip].refillInterval.Some?
    ensures var (o, s') := Step(s, ip, bucketSize, refillRate, refillInterval, now);
      o.Denied? && s'[ip].refillRate > 0 ==>
        o.timeRemaining.Some? && 0 < o.timeRemaining.value <= s'[ip].refillInterval.value
  {
    var created := if ip in s then s[ip]
                   else NewBucket(bucketSize, refillRate, Some(refillInterval * 1000), now);
    if created.refillRate > 0 {
      TimeRemainingInRange(created, now);
    }
  }

  /**
   The buckets of a live map built under one configuration: each is within its
   bounds, not refilled past `now`, and carries that configuration's rate and
   interval in milliseconds.
   */
  predicate LiveBuckets(s: map<string, BucketState>, refillRate: int, refillInterval: int, now: int)
  {
    forall k :: k in s ==>
      && Bounded(s[k]) && s[k].lastRefillTime <= now
      && s[k].refillRate == refillRate
      && s[k].refillInterval.Some? && s[k].refillInterval.value == refillInterval * 1000
  }

  /** A call under the same configuration keeps the map's buckets of that shape. */
  lemma StepKeepsLiveBuckets(s: map<string, BucketState>, ip: string, bucketSize: nat, refillRate: int,
                             refillInterval: int, now: int)
    requires refillInterval > 0 && LiveBuckets(s, refillRate, refillInterval, now)
    ensures LiveBuckets(Step(s, ip, bucketSize, refillRate, refillInterval, now).1, refillRate, refillInterval, now)
  {
    StepKeepsBounds(s, ip, bucketSize, refillRate, refillInterval, now);
  }

  /** Requests whose clock readings never go backwards. */
  predicate NonDecreasing(calls: seq<Call>)
  {
    forall i, j :: 0 <= i < j < |calls| ==> calls[i].now <= calls[j].now
  }

  /**
   From any map of live buckets whose timestamps are not after the first
   request, every denial of a run with non-decreasing times and a positive rate
   carries a wait in (0, refillInterval * 1000].
   */
  lemma {:induction false} RunWaitsInRange(s: map<string, BucketState>, bucketSize: nat, refillRate: int,
                                           refillInterval: int, calls: seq<Call>, t: int)
    requires refillInterval > 0 && refillRate > 0 && NonDecreasing(calls)
    requires LiveBuckets(s, refillRate, refillInterval, t)
    requires forall i :: 0 <= i < |calls| ==> t <= calls[i].now
    ensures var outcomes := Run(s, bucketSize, refillRate, refillInterval, calls);
      forall i :: 0 <= i < |calls| && outcomes[i].Denied? ==>
        outcomes[i].timeRemaining.Some? && 0 < outcomes[i].timeRemaining.value <= refillInterval * 1000
    decreases |calls|
  {
    if calls != [] {
      var c := calls[0];
      var (o, s') := Step(s, c.ip, bucketSize, refillRate, refillInterval, c.now);
      assert LiveBuckets(s, refillRate, refillInterval, c.now);
      StepKeepsLiveBuckets(s, c.ip, bucketSize, refillRate, refillInterval, c.now);
      DenialWaitInRange(s, c.ip, bucketSize, refillRate, refillInterval, c.now);
      var rest := calls[1..];
      assert forall i :: 0 <= i < |rest| ==> c.now <= rest[i].now by {
        forall i | 0 <= i < |rest| ensures c.now <= rest[i].now {
          assert rest[i] == calls[i + 1];
        }
      }
      assert NonDecreasing(rest) by {
        forall i, j | 0 <= i < j < |rest| ensures rest[i].now <= rest[j].now {
          assert rest[i] == calls[i + 1] && rest[j] == calls[j + 1];
        }
      }
      RunWaitsInRange(s', bucketSize, refillRate, refillInterval, rest, c.now);
      var outcomes := Run(s, bucketSize, refillRate, refillInterval, calls);
      assert outcomes == [o] + Run(s', bucketSize, refillRate, refillInterval, rest);
      forall i | 0 <= i < |calls| && outcomes[i].Denied?
        ensures outcomes[i].timeRemaining.Some? && 0 < outcomes[i].timeRemaining.value <= refillInterval * 1000
      {
        if i > 0 {
          assert outcomes[i] == Run(s', bucketSize, refillRate, refillInterval, rest)[i - 1];
        }
      }
    }
  }

  /**
   Every denial of a run from the empty map, with a positive rate and
   non-decreasing times, tells the caller to wait more than 0 and at most one
   interval.
   */
  lemma DenialsWaitAtMostOneInterval(bucketSize: nat, refillRate: int, refillInterval: int, calls: seq<Call>)
    requires refillInterval > 0 && refillRate > 0 && NonDecreasing(calls)
    ensures var outcomes := Run(map[], bucketSize, refillRate, refillInterval, calls);
      forall i :: 0 <= i < |calls| && outcomes[i].Denied? ==>
        outcomes[i].timeRemaining.Some? && 0 < outcomes[i].timeRemaining.value <= refillInterval * 1000
  {
    if calls != [] {
      RunWaitsInRange(map[], bucketSize, refillRate, refillInterval, calls, calls[0].now);
    }
  }

  // ---------------------------------------------------------------------------
  // Keys do not interfere

  /** The calls made for key `k`. */
  function CallsFor(calls: seq<Call>, k: string): (r: seq<Call>)
    ensures forall i :: 0 <= i < |r| ==> r[i].ip == k
    ensures |r| <= |calls|
  {
    if calls == [] then []
    else (if calls[0].ip == k then [calls[0]] else []) + CallsFor(calls[1..], k)
  }

  /** The outcomes of the calls made for key `k`. */
  function OutcomesFor(calls: seq<Call>, outcomes: seq<Outcome>, k: string): seq<Outcome>
    requires |outcomes| == |calls|
  {
    if calls == [] then []
    else (if calls[0].ip == k then [outcomes[0]] else []) + OutcomesFor(calls[1..], outcomes[1..], k)
  }

  /** The map with only key `k`'s bucket, if any. */
  function Only(s: map<string, BucketState>, k: string): map<string, BucketState>
  {
    if k in s then map[k := s[k]] else map[]
  }

  /** A request for `k` sees only `k`'s bucket and changes only `k`'s bucket. */
  lemma StepSeesOnlyItsKey(s: map<string, BucketState>, bucketSize: nat, refillRate: int,
                           refillInterval: int, c: Call, k: string)
    requires refillInterval > 0
    ensures var (o, s') := Step(s, c.ip, bucketSize, refillRate, refillInterval, c.now);
      if c.ip == k then Step(Only(s, k), k, bucketSize, refillRate, refillInterval, c.now) == (o, Only(s', k))
      else Only(s', k) == Only(s, k)
  {
    var (o, s') := Step(s, c.ip, bucketSize, refillRate, refillInterval, c.now);
    if c.ip == k {
      var (o', t') := Step(Only(s, k), k, bucketSize, refillRate, refillInterval, c.now);
      assert t' == Only(s', k);
    }
  }

  /**
   Distinct keys never interfere: the outcomes of key `k`'s requests are exactly
   what they would be if no other key had ever made a request.
   */
  lemma {:induction false} KeysAreIsolated(s: map<string, BucketState>, bucketSize: nat, refillRate: int,
                                           refillInterval: int, calls: seq<Call>, k: string)
    requires refillInterval > 0
    ensures OutcomesFor(calls, Run(s, bucketSize, refillRate, refillInterval, calls), k)
         == Run(Only(s, k), bucketSize, refillRate, refillInterval, CallsFor(calls, k))
    decreases |calls|
  {
    if calls != [] {
      var c := calls[0];
      var (o, s') := Step(s, c.ip, bucketSize, refillRate, refillInterval, c.now);
      var outcomes := Run(s, bucketSize, refillRate, refillInterval, calls);
      var rest := Run(s', bucketSize, refillRate, refillInterval, calls[1..]);
      assert outcomes == [o] + rest;
      assert outcomes[0] == o && outcomes[1..] == rest;
      KeysAreIsolated(s', bucketSize, refillRate, refillInterval, calls[1..], k);
      StepSeesOnlyItsKey(s, bucketSize, refillRate, refillInterval, c, k);
      var later := OutcomesFor(calls[1..], rest, k);
      if c.ip == k {
        var mine := CallsFor(calls, k);
        assert OutcomesFor(calls, outcomes, k) == [o] + later;
        assert mine == [c] + CallsFor(calls[1..], k);
        assert mine[0] == c && mine[1..] == CallsFor(calls[1..], k);
        assert Run(Only(s, k), bucketSize, refillRate, refillInterval, mine)
            == [o] + Run(Only(s', k), bucketSize, refillRate, refillInterval, CallsFor(calls[1..], k));
      } else {
        assert OutcomesFor(calls, outcomes, k) == later;
        assert CallsFor(calls, k) == CallsFor(calls[1..], k);
      }
    }
  }

  // ---------------------------------------------------------------------------
  // A worked scenario

  /** Running two batches of calls one after the other. */
  lemma {:induction false} RunAppend(s: map<string, BucketState>, bucketSize: nat, refillRate: int,
                                     refillInterval: int, first: seq<Call>, second: seq<Call>)
    requires refillInterval > 0
    ensures Run(s, bucketSize, refillRate, refillInterval, first + second)
         == Run(s, bucketSize, refillRate, refillInterval, first)
          + Run(After(s, bucketSize, refillRate, refillInterval, first), bucketSize, refillRate, refillInterval, second)
    ensures After(s, bucketSize, refillRate, refillInterval, first + second)
         == After(After(s, bucketSize, refillRate, refillInterval, first), bucketSize, refillRate, refillInterval, second)
    decreases |first|
  {
    if first == [] {
      assert first + second == second;
    } else {
      var (_, s') := Step(s, first[0].ip, bucketSize, refillRate, refillInterval, first[0].now);
      assert (first + second)[0] == first[0];
      assert (first + second)[1..] == first[1..] + second;
      RunAppend(s', bucketSize, refillRate, refillInterval, first[1..], second);
    }
  }

  /** The one-key map of the worked scenario: size 3, rate 1, interval 1000 ms. */
  function ScenarioState(ip: string, tokens: int, lastRefillTime: int): map<string, BucketState>
  {
    var interval: PosInt := 1000;
    map[ip := BucketState(3, tokens, 1, Some(interval), lastRefillTime)]
  }

  /** A request for the one key of a one-key map is `consumeToken` on its bucket. */
  lemma StepOnExisting(ip: string, b: BucketState, now: int)
    ensures var (ok, after) := Consume(b, now);
      Step(map[ip := b], ip, 3, 1, 1, now)
        == (if ok then Admitted else Denied(TimeRemaining(after, now), TooManyRequests), map[ip := after])
  {
    var after := Consume(b, now).1;
    assert map[ip := b][ip := after] == map[ip := after];
  }

  /** Three requests at one instant drain a new bucket of size 3; the fourth waits a full interval. */
  lemma ScenarioBurst(ip: string, t: int)
    ensures var calls := [Call(ip, t), Call(ip, t), Call(ip, t), Call(ip, t)];
      && Run(map[], 3, 1, 1, calls)
           == [Admitted, Admitted, Admitted, Denied(Some(1000), TooManyRequests)]
      && After(map[], 3, 1, 1, calls) == ScenarioState(ip, 0, t)
  {
    var calls := [Call(ip, t), Call(ip, t), Call(ip, t), Call(ip, t)];
    var deny := Denied(Some(1000), TooManyRequests);
    var s1, s2, s3 := ScenarioState(ip, 2, t), ScenarioState(ip, 1, t), ScenarioState(ip, 0, t);
    RefillNeedsWholeInterval(ScenarioState(ip, 3, t)[ip], t);
    assert Step(map[], ip, 3, 1, 1, t) == (Admitted, s1);
    RefillNeedsWholeInterval(s1[ip], t);
    assert Consume(s1[ip], t) == (true, s2[ip]);
    StepOnExisting(ip, s1[ip], t);
    assert Step(s1, ip, 3, 1, 1, t) == (Admitted, s2);
    RefillNeedsWholeInterval(s2[ip], t);
    assert Consume(s2[ip], t) == (true, s3[ip]);
    StepOnExisting(ip, s2[ip], t);
    assert Step(s2, ip, 3, 1, 1, t) == (Admitted, s3);
    RefillNeedsWholeInterval(s3[ip], t);
    assert Consume(s3[ip], t) == (false, s3[ip]);
    StepOnExisting(ip, s3[ip], t);
    assert Step(s3, ip, 3, 1, 1, t) == (deny, s3);
    assert calls[3..][1..] == [];
    assert Run(s3, 3, 1, 1, calls[3..]) == [deny] && After(s3, 3, 1, 1, calls[3..]) == s3;
    assert calls[2..][1..] == calls[3..];
    assert Run(s2, 3, 1, 1, calls[2..]) == [Admitted, deny] && After(s2, 3, 1, 1, calls[2..]) == s3;
    assert calls[1..][1..] == calls[2..];
    assert Run(s1, 3, 1, 1, calls[1..]) == [Admitted, Admitted, deny] && After(s1, 3, 1, 1, calls[1..]) == s3;
  }

  /** One interval later exactly one token is back. */
  lemma ScenarioOneInterval(ip: string, t: int)
    ensures var calls := [Call(ip, t + 1000), Call(ip, t + 1000)];
      && Run(ScenarioState(ip, 0, t), 3, 1, 1, calls) == [Admitted, Denied(Some(1000), TooManyRequests)]
      && After(ScenarioState(ip, 0, t), 3, 1, 1, calls) == ScenarioState(ip, 0, t + 1000)
  {
    var calls := [Call(ip, t + 1000), Call(ip, t + 1000)];
    var deny := Denied(Some(1000), TooManyRequests);
    var s, s1 := ScenarioState(ip, 0, t), ScenarioState(ip, 0, t + 1000);
    assert Refilled(s[ip], t + 1000) == ScenarioState(ip, 1, t + 1000)[ip] by {
      assert (t + 1000 - t) / 1000 == 1;
    }
    assert Consume(s[ip], t + 1000) == (true, s1[ip]);
    StepOnExisting(ip, s[ip], t + 1000);
    assert Step(s, ip, 3, 1, 1, t + 1000) == (Admitted, s1);
    RefillNeedsWholeInterval(s1[ip], t + 1000);
    assert Consume(s1[ip], t + 1000) == (false, s1[ip]);
    StepOnExisting(ip, s1[ip], t + 1000);
    assert Step(s1, ip, 3, 1, 1, t + 1000) == (deny, s1);
    assert calls[1..][1..] == [];
    assert Run(s1, 3, 1, 1, calls[1..]) == [deny] && After(s1, 3, 1, 1, calls[1..]) == s1;
  }

  /**
   2500 ms later two whole intervals are credited and `lastRefillTime` moves
   2000 ms, so the third request is told to wait the 500 ms still missing.
   */
  lemma ScenarioCarryOver(ip: string, t: int)
    ensures var calls := [Call(ip, t + 3500), Call(ip, t + 3500), Call(ip, t + 3500)];
      && Run(ScenarioState(ip, 0, t + 1000), 3, 1, 1, calls)
           == [Admitted, Admitted, Denied(Some(500), TooManyRequests)]
      && After(ScenarioState(ip, 0, t + 1000), 3, 1, 1, calls) == ScenarioState(ip, 0, t + 3000)
  {
    var calls := [Call(ip, t + 3500), Call(ip, t + 3500), Call(ip, t + 3500)];
    var deny := Denied(Some(500), TooManyRequests);
    var s := ScenarioState(ip, 0, t + 1000);
    var s1, s2 := ScenarioState(ip, 1, t + 3000), ScenarioState(ip, 0, t + 3000);
    assert Refilled(s[ip], t + 3500) == ScenarioState(ip, 2, t + 3000)[ip] by {
      assert (t + 3500 - (t + 1000)) / 1000 == 2;
    }
    assert Consume(s[ip], t + 3500) == (true, s1[ip]);
    StepOnExisting(ip, s[ip], t + 3500);
    assert Step(s, ip, 3, 1, 1, t + 3500) == (Admitted, s1);
    RefillNeedsWholeInterval(s1[ip], t + 3500);
    assert Consume(s1[ip], t + 3500) == (true, s2[ip]);
    StepOnExisting(ip, s1[ip], t + 3500);
    assert Step(s1, ip, 3, 1, 1, t + 3500) == (Admitted, s2);
    RefillNeedsWholeInterval(s2[ip], t + 3500);
    assert Consume(s2[ip], t + 3500) == (false, s2[ip]);
    StepOnExisting(ip, s2[ip], t + 3500);
    assert TimeRemaining(s2[ip], t + 3500) == Some(500);
    assert Step(s2, ip, 3, 1, 1, t + 3500) == (deny, s2);
    assert calls[2..][1..] == [];
    assert Run(s2, 3, 1, 1, calls[2..]) == [deny] && After(s2, 3, 1, 1, calls[2..]) == s2;
    assert calls[1..][1..] == calls[2..];
    assert Run(s1, 3, 1, 1, calls[1..]) == [Admitted, deny] && After(s1, 3, 1, 1, calls[1..]) == s2;
  }

  /**
   The whole scenario: bucket size 3, rate 1, interval 1 s, one key. Three
   requests at one instant are admitted and the fourth is told to wait the full
   1000 ms; 1000 ms later exactly one more is admitted; 2500 ms after that
   exactly two tokens are credited (not 2.5) and the 500 ms remainder carries
   over, so 500 ms later one more request is admitted.
   */
  lemma WorkedScenario(ip: string, t: int)
    ensures var calls := [Call(ip, t), Call(ip, t), Call(ip, t), Call(ip, t)]
                       + [Call(ip, t + 1000), Call(ip, t + 1000)]
                       + [Call(ip, t + 3500), Call(ip, t + 3500), Call(ip, t + 3500)]
                       + [Call(ip, t + 4000)];
      Run(map[], 3, 1, 1, calls)
        == [Admitted, Admitted, Admitted, Denied(Some(1000), TooManyRequests),
            Admitted, Denied(Some(1000), TooManyRequests),
            Admitted, Admitted, Denied(Some(500), TooManyRequests),
            Admitted]
  {
    var burst := [Call(ip, t), Call(ip, t), Call(ip, t), Call(ip, t)];
    var one := [Call(ip, t + 1000), Call(ip, t + 1000)];
    var carry := [Call(ip, t + 3500), Call(ip, t + 3500), Call(ip, t + 3500)];
    var last := [Call(ip, t + 4000)];
    ScenarioBurst(ip, t);
    ScenarioOneInterval(ip, t);
    ScenarioCarryOver(ip, t);
    var s := ScenarioState(ip, 0, t + 3000);
    assert Refilled(s[ip], t + 4000) == ScenarioState(ip, 1, t + 4000)[ip] by {
      assert (t + 4000 - (t + 3000)) / 1000 == 1;
    }
    assert Consume(s[ip], t + 4000) == (true, ScenarioState(ip, 0, t + 4000)[ip]);
    StepOnExisting(ip, s[ip], t + 4000);
    assert Run(s, 3, 1, 1, last) == [Admitted] by {
      assert last[1..] == [];
    }
    RunAppend(map[], 3, 1, 1, burst, one);
    RunAppend(map[], 3, 1, 1, burst + one, carry);
    RunAppend(map[], 3, 1, 1, burst + one + carry, last);
  }

  // ---------------------------------------------------------------------------
  // The imperative entry point

  /**
   `consumeIP` against the live `tokenBucketMap`: get-or-create, `consumeToken`,
   and on failure the thrown `timeRemaining`, read at the same instant.
   */
  method ConsumeIP(m: BucketMap, ip: string, bucketSize: nat, refillRate: int, refillInterval: int, now: int)
    returns (o: Outcome)
    requires m.Valid() && m.clock <= now
    requires ip !in m.buckets ==> refillInterval > 0
    modifies m, m.buckets.Values
    ensures m.Valid() && m.clock == now
    ensures (o, m.Snapshot()) == Step(old(m.Snapshot()), ip, bucketSize, refillRate, refillInterval, now)
  {
    // the converted interval only reaches a bucket the call creates
    var interval: Option<PosInt> := if refillInterval > 0 then Some(refillInterval * 1000) else None;
    var ok, b := m.ConsumeFor(ip, bucketSize, refillRate, interval, now);
    if ok {
      o := Admitted;
    } else {
      o := Denied(TimeRemaining(b.State(), now), TooManyRequests);
    }
  }
}
