/**
 `consumeIP(ip)` of the root-level `tokenBucketOOP.js`: every key gets a
 `new TokenBucket(10, 1)`, whose third argument, `refillInterval`, is left
 `undefined`. Refill then never fires, so each key has exactly ten successful
 requests for the lifetime of the process.
 */
module RootLimiter {
  import opened Wrappers
  import opened TokenBucket
  import opened BucketStore

  const BucketSize: nat := 10
  const RefillRate: int := 1

  /**
   One call of `consumeIP(ip)` on the value of its `tokenBucketMap`. The thrown
   `timeRemaining` is computed from the undefined interval and is `NaN`.
   */
  function Step(s: map<string, BucketState>, ip: string, now: int): (r: (Outcome, map<string, BucketState>))
    ensures r.1.Keys == s.Keys + {ip}
    ensures forall k :: k in s && k != ip ==> r.1[k] == s[k]
    ensures r.0.Denied? ==> r.0 == Denied(None, TooManyRequests)
  {
    var (ok, s') := ConsumeAt(s, ip, NewBucket(BucketSize, RefillRate, None, now), now);
    if ok then (Admitted, s') else (Denied(None, TooManyRequests), s')
  }

  /** The requests of `calls`, in order. */
  function Run(s: map<string, BucketState>, calls: seq<Call>): (r: seq<Outcome>)
    ensures |r| == |calls|
    decreases |calls|
  {
    if calls == [] then []
    else
      var (o, s') := Step(s, calls[0].ip, calls[0].now);
      [o] + Run(s', calls[1..])
  }

  /** How many of `calls` are for key `k`. */
  function Count(calls: seq<Call>, k: string): (n: nat)
    ensures n <= |calls|
  {
    if calls == [] then 0
    else (if calls[0].ip == k then 1 else 0) + Count(calls[1..], k)
  }

  /** Every bucket in the map is one this `consumeIP` built: size 10, rate 1, no interval. */
  predicate RootBuckets(s: map<string, BucketState>)
  {
    forall k :: k in s ==>
      && s[k].bucketSize == BucketSize && s[k].refillRate == RefillRate
      && s[k].refillInterval == None && Bounded(s[k])
  }

  /** The requests key `k` still has: its tokens, or ten for a key not seen yet. */
  function Credit(s: map<string, BucketState>, k: string): int
  {
    if k in s then s[k].tokens else BucketSize
  }

  /**
   With the interval undefined, refill never changes a bucket: a request takes
   one of the key's remaining tokens, or is denied and changes nothing, and
   `lastRefillTime` stays the construction time forever.
   */
  lemma StepNeverRefills(s: map<string, BucketState>, ip: string, now: int)
    requires RootBuckets(s)
    ensures var (o, s') := Step(s, ip, now);
      && RootBuckets(s')
      && (o == Admitted <==> Credit(s, ip) >= 1)
      && Credit(s', ip) == (if Credit(s, ip) >= 1 then Credit(s, ip) - 1 else 0)
      && (ip in s ==> s'[ip].lastRefillTime == s[ip].lastRefillTime)
      && (ip !in s ==> s'[ip].lastRefillTime == now)
      && (forall k :: k != ip ==> Credit(s', k) == Credit(s, k))
  {
    var created := NewBucket(BucketSize, RefillRate, None, now);
    var bucket := if ip in s then s[ip] else created;
    ConsumeWithoutInterval(bucket, now);
  }

  /**
   From any map of such buckets, a request is admitted exactly when the
   earlier requests for the same key have not yet used up that key's credit.
   */
  lemma {:induction false} AdmittedWhileCreditLasts(s: map<string, BucketState>, calls: seq<Call>)
    requires RootBuckets(s)
    ensures forall i :: 0 <= i < |calls| ==>
      Run(s, calls)[i] == if Count(calls[..i], calls[i].ip) < Credit(s, calls[i].ip) then Admitted
                          else Denied(None, TooManyRequests)
    decreases |calls|
  {
    if calls != [] {
      var c := calls[0];
      var (o, s') := Step(s, c.ip, c.now);
      var rest := calls[1..];
      StepNeverRefills(s, c.ip, c.now);
      AdmittedWhileCreditLasts(s', rest);
      var outcomes := Run(s, calls);
      assert outcomes == [o] + Run(s', rest);
      forall i | 0 <= i < |calls|
        ensures outcomes[i] == if Count(calls[..i], calls[i].ip) < Credit(s, calls[i].ip) then Admitted
                               else Denied(None, TooManyRequests)
      {
        if i == 0 {
          assert calls[..0] == [];
        } else {
          assert outcomes[i] == Run(s', rest)[i - 1];
          assert calls[..i][1..] == rest[..i - 1];
          assert rest[i - 1] == calls[i];
          assert Count(calls[..i], calls[i].ip)
              == (if c.ip == calls[i].ip then 1 else 0) + Count(rest[..i - 1], calls[i].ip);
        }
      }
    }
  }

  /**
   Per key, the first ten requests are admitted and every later one is denied
   with the same message, however much time passes: the buckets never refill.
   */
  lemma TenRequestsPerKeyForever(calls: seq<Call>)
    ensures forall i :: 0 <= i < |calls| ==>
      Run(map[], calls)[i] == if Count(calls[..i], calls[i].ip) < 10 then Admitted
                              else Denied(None, TooManyRequests)
  {
    AdmittedWhileCreditLasts(map[], calls);
  }

  /** `consumeIP(ip)` against the root copy's own `tokenBucketMap`. */
  method ConsumeIP(m: BucketMap, ip: string, now: int) returns (o: Outcome)
    requires m.Valid() && m.clock <= now
    modifies m, m.buckets.Values
    ensures m.Valid() && m.clock == now
    ensures (o, m.Snapshot()) == Step(old(m.Snapshot()), ip, now)
  {
    var ok, _ := m.ConsumeFor(ip, BucketSize, RefillRate, None, now);
    if ok {
      o := Admitted;
    } else {
      o := Denied(None, TooManyRequests);
    }
  }
}
