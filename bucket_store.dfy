/**
 The module-level `tokenBucketMap` of both copies of `tokenBucketOOP.js`: one
 token bucket per key, created on the first request for that key and reused for
 every later one. Each copy owns its own map; this module is the shape both share.
 */
module BucketStore {
  import opened Wrappers
  import opened TokenBucket

  /** What `consumeIP` does: return normally, or throw `{timeRemaining, message}`. */
  datatype Outcome = Admitted | Denied(timeRemaining: Option<int>, message: string)

  const TooManyRequests := "Too many requests, please try again later!"

  /** One request: the key and the clock reading it is made at. */
  datatype Call = Call(ip: string, now: int)

  /** Every bucket of the map is within its bounds and has not been refilled after `now`. */
  predicate AllBounded(s: map<string, BucketState>, now: int)
  {
    forall k :: k in s ==> Bounded(s[k]) && s[k].lastRefillTime <= now
  }

  /**
   Get-or-create followed by `consumeToken`, on the map's value: the bucket for
   `ip` is the existing one if there is one and `created` otherwise. Every other
   key keeps its bucket, and the parameters `created` carries reach the map only
   when the key is new.
   */
  function ConsumeAt(s: map<string, BucketState>, ip: string, created: BucketState, now: int)
    : (r: (bool, map<string, BucketState>))
    ensures r.1.Keys == s.Keys + {ip}
    ensures forall k :: k in s && k != ip ==> r.1[k] == s[k]
    ensures var used := if ip in s then s[ip] else created;
      && r.1[ip].bucketSize == used.bucketSize
      && r.1[ip].refillRate == used.refillRate
      && r.1[ip].refillInterval == used.refillInterval
  {
    var bucket := if ip in s then s[ip] else created;
    var (ok, after) := Consume(bucket, now);
    (ok, s[ip := after])
  }

  /** Consuming keeps every bucket of the map within its bounds. */
  lemma ConsumeAtKeepsBounds(s: map<string, BucketState>, ip: string, created: BucketState, now: int)
    requires AllBounded(s, now) && Bounded(created) && created.lastRefillTime <= now
    ensures AllBounded(ConsumeAt(s, ip, created, now).1, now)
  {
    var bucket := if ip in s then s[ip] else created;
    ConsumeTakesOneToken(bucket, now);
    RefillKeepsBounds(bucket, now);
  }

  /** `tokenBucketMap`: keys to the bucket objects, each created once and then shared. */
  class BucketMap {
    var buckets: map<string, TokenBucket>
    /** The latest clock reading this map has been given. */
    ghost var clock: int

    ghost predicate Valid()
      reads this, buckets.Values
    {
      && (forall k :: k in buckets ==> buckets[k].Valid() && buckets[k].clock <= clock)
      && (forall k, k' :: k in buckets && k' in buckets && k != k' ==> buckets[k] != buckets[k'])
    }

    /** The values of the buckets, by key. */
    function Snapshot(): map<string, BucketState>
      reads this, buckets.Values
    {
      map k | k in buckets :: buckets[k].State()
    }

    /** `new Map()`: empty. */
    constructor (ghost now: int)
      ensures Valid() && buckets == map[] && clock == now
    {
      buckets := map[];
      clock := now;
    }

    /**
     The get-or-create of `consumeIP`: a bucket is built for `ip` only when the
     map has none, and then the key's bucket consumes a token. An existing bucket is
     reused as it is, whatever parameters this call brings; a new one is built
     from them at `now`. No other key's bucket is touched.
     */
    method ConsumeFor(ip: string, bucketSize: nat, refillRate: int, refillInterval: Option<PosInt>, now: int)
      returns (ok: bool, b: TokenBucket)
      requires Valid() && clock <= now
      modifies this, buckets.Values
      ensures Valid() && clock == now
      ensures ip in buckets && b == buckets[ip]
      ensures ip in old(buckets) ==> buckets == old(buckets)
      ensures ip !in old(buckets) ==> fresh(b) && buckets == old(buckets)[ip := b]
      ensures forall k :: k in old(buckets) && k != ip ==> buckets[k].State() == old(buckets[k].State())
      ensures (ok, Snapshot()) ==
        ConsumeAt(old(Snapshot()), ip, NewBucket(bucketSize, refillRate, refillInterval, now), now)
    {
      ghost var before := Snapshot();
      ghost var initial := NewBucket(bucketSize, refillRate, refillInterval, now);
      if ip !in buckets {
        var created := new TokenBucket(bucketSize, refillRate, refillInterval, now);
        buckets := buckets[ip := created];
      }
      b := buckets[ip];
      ghost var used := b.State();
      assert used == if ip in before then before[ip] else initial;
      clock := now;
      ok := b.ConsumeToken(now);
      assert (ok, b.State()) == Consume(used, now);
      assert Snapshot() == before[ip := b.State()];
    }
  }
}
