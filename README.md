# Token bucket of LimitKeeper, in Dafny

LimitKeeper is Express middleware that rate-limits requests per client key.
The one rate-limiting algorithm the repository writes itself is a **token
bucket**. Each key owns a bucket holding `tokens` of at most `bucketSize`. A
request refills the bucket by whole elapsed intervals (`refillRate` tokens per
`refillInterval` ms, capped at `bucketSize`) and then takes one token. A key's
bucket is created, full, on its first request and kept in a module-level `Map`.
A request that finds no token throws `{timeRemaining, message}`.

The bucket exists in two copies:

- `rate-limiter-algos/tokenBucketOOP.js` is the live copy, used by
  `rate-limiter.js`. Its `consumeIP(ip, bucketSize, refillRate, refillInterval)`
  takes the interval in seconds and stores it in milliseconds.
- `tokenBucketOOP.js` is the root copy. Its `consumeIP(ip)` builds
  `new TokenBucket(10, 1)` and leaves `refillInterval` undefined. Refill then
  never fires, so each key gets exactly ten successful requests for the life of
  the process.

The project models both copies on one shared bucket class.

- `wrappers.dfy`: `Option`. `None` stands for a JavaScript value that is
  `undefined` or `NaN`.
- `token_bucket.dfy` (module `TokenBucket`): the value model. `BucketState`
  holds the fields. `Refilled` is `refill()`, `Consume` is `consumeToken()` and
  `TimeRemaining` is the thrown hint. The module also has the lemmas about them
  and the class `TokenBucket`. Its `Refill` and `ConsumeToken` update `tokens`
  and `lastRefillTime` in place and are proved equal to the value model. The
  class invariant `Valid()` keeps `0 <= tokens <= bucketSize`. It also keeps
  `lastRefillTime` a whole number of intervals after construction and never
  later than the latest clock reading.
- `bucket_store.dfy` (module `BucketStore`): `tokenBucketMap` as the class
  `BucketMap`, a map from keys to bucket objects. It also holds the thrown
  outcome (`Denied`), and `ConsumeAt`, the get-or-create-then-consume step on
  the map's value.
- `live_limiter.dfy` (module `LiveLimiter`): the live `consumeIP`, its value
  model `Step`, and `Run` over a sequence of requests. It proves key isolation
  and the worked scenario (bucket 3, rate 1, interval 1 s).
- `root_limiter.dfy` (module `RootLimiter`): the root `consumeIP(ip)`. It
  proves that per key the first ten requests are admitted and every later one
  is denied.

`Date.now()` becomes an explicit parameter `now` (milliseconds), read once per
call. Ghost `clock` fields require the readings given to a bucket or a map
never to go backwards.

Behaviour of the code worth knowing:

- The code has no `cost` parameter: every request costs one token.
- A denial is thrown, not returned. It is modelled as the `Denied` outcome.
- There is no configuration validation.
- No error is raised for a cost above capacity.
- The interval is given in seconds and multiplied by 1000. There is no
  `refillIntervalMs` parameter.
- The root copy leaves the interval undefined.

## Model

| member | source | states |
|---|---|---|
| `TokenBucket.TokenBucket.constructor` | rate-limiter-algos/tokenBucketOOP.js:2-8 | a new bucket is full (`tokens == bucketSize`) and `lastRefillTime` is the construction time |
| `TokenBucket.NewBucket` | rate-limiter-algos/tokenBucketOOP.js:2-8 | a new bucket is full and within bounds, stamped with the creation time; refilling it at that instant changes nothing, and its first request is admitted exactly when `bucketSize >= 1` |
| `TokenBucket.Refilled` | rate-limiter-algos/tokenBucketOOP.js:10-25 | refill never changes `bucketSize`, `refillRate` or `refillInterval` |
| `TokenBucket.TokenBucket.Refill` | rate-limiter-algos/tokenBucketOOP.js:10-25 | the in-place refill leaves exactly the state `Refilled` describes and keeps the class invariant (bounds, whole-interval alignment, not past `now`) |
| `TokenBucket.RefillKeepsBounds` | rate-limiter-algos/tokenBucketOOP.js:13-24 | refill keeps `0 <= tokens <= bucketSize`; `lastRefillTime` only moves forward, by a multiple of the interval, and never past `now` |
| `TokenBucket.RefillCatchesUp` | rate-limiter-algos/tokenBucketOOP.js:13-23 | with a positive rate, afterwards `0 <= now - lastRefillTime < refillInterval`; that remainder equals the old elapsed time mod the interval (carried forward, never snapped to `now`); tokens gained are intervals credited times the rate, capped at `bucketSize` |
| `TokenBucket.RefillNeedsWholeInterval` | rate-limiter-algos/tokenBucketOOP.js:15-24 | before one whole interval has passed, refill changes neither `tokens` nor `lastRefillTime` |
| `TokenBucket.RefillNeedsPositiveRate` | rate-limiter-algos/tokenBucketOOP.js:17-24 | when `tokensToAdd` cannot be positive (rate <= 0), refill changes nothing |
| `TokenBucket.RefillWithoutInterval` | tokenBucketOOP.js:13-24 | with `refillInterval` undefined the guard `tokensToAdd > 0` is false, so refill changes nothing |
| `TokenBucket.RefillIdempotent` | rate-limiter-algos/tokenBucketOOP.js:13-24 | refilling twice at one instant is the same as refilling once |
| `TokenBucket.RefillNoDrift` | rate-limiter-algos/tokenBucketOOP.js:13-23 | refilling at `t1` and then at `t2` gives exactly the state of one refill at `t2`: no refill credit is lost or double-counted |
| `TokenBucket.Consume` | rate-limiter-algos/tokenBucketOOP.js:27-33 | `consumeToken` never changes the bucket's configuration |
| `TokenBucket.TokenBucket.ConsumeToken` | rate-limiter-algos/tokenBucketOOP.js:27-33 | the in-place `consumeToken` returns and leaves exactly what `Consume` describes and keeps the class invariant |
| `TokenBucket.ConsumeTakesOneToken` | rate-limiter-algos/tokenBucketOOP.js:27-33 | success exactly when the refilled bucket holds at least one token; then exactly one is taken, otherwise tokens stay as refilled (zero); `0 <= tokens <= bucketSize` is kept |
| `TokenBucket.ConsumeWithoutInterval` | tokenBucketOOP.js:27-33 | without an interval a request succeeds exactly when a token is left, and takes exactly that one |
| `TokenBucket.TimeRemaining` | rate-limiter-algos/tokenBucketOOP.js:46-48 | the wait `refillInterval - (now - lastRefillTime)` is a number exactly when the bucket has an interval, and is at most one interval when the bucket was not refilled past `now` |
| `TokenBucket.TimeRemainingInRange` | rate-limiter-algos/tokenBucketOOP.js:44-48 | with a positive rate, `refillInterval - (now - lastRefillTime)` read at the refill's instant lies in `(0, refillInterval]` |
| `BucketStore.ConsumeAt` | rate-limiter-algos/tokenBucketOOP.js:38-44 | get-or-create: the key set becomes old keys plus `ip`; other keys keep their buckets; a key with a bucket keeps its configuration, a new key gets the call's |
| `BucketStore.ConsumeAtKeepsBounds` | rate-limiter-algos/tokenBucketOOP.js:38-44 | every bucket of the map stays within `0 <= tokens <= bucketSize` and not refilled past `now` |
| `BucketStore.BucketMap.constructor` | rate-limiter-algos/tokenBucketOOP.js:36 | the map starts empty |
| `BucketStore.BucketMap.ConsumeFor` | rate-limiter-algos/tokenBucketOOP.js:39-44 | an existing bucket object is reused and the map is unchanged; otherwise a fresh bucket is inserted for `ip` only; other keys' buckets are untouched; the result equals `ConsumeAt` on the map's value |
| `LiveLimiter.Step` | rate-limiter-algos/tokenBucketOOP.js:38-50 | only `ip`'s entry may change or appear; every denial carries "Too many requests, please try again later!" |
| `LiveLimiter.Run` | rate-limiter.js:73-80 | one outcome per request, for requests made under one configuration |
| `LiveLimiter.ReuseIgnoresParameters` | rate-limiter-algos/tokenBucketOOP.js:39-43 | once a key has a bucket, the parameters of later calls make no difference |
| `LiveLimiter.FirstRequestCreates` | rate-limiter-algos/tokenBucketOOP.js:39-44 | a new key's bucket gets the call's size and rate, interval `refillInterval * 1000` and `lastRefillTime == now`; the first request is admitted (size >= 1) or denied with the full interval to wait (size 0) |
| `LiveLimiter.StepKeepsBounds` | rate-limiter-algos/tokenBucketOOP.js:38-44 | every bucket stays within its bounds after a call |
| `LiveLimiter.DenialWaitInRange` | rate-limiter-algos/tokenBucketOOP.js:44-48 | a denial from a bucket with a positive rate carries `timeRemaining` in `(0, refillInterval]` |
| `LiveLimiter.StepKeepsLiveBuckets` | rate-limiter-algos/tokenBucketOOP.js:38-44 | a call under one configuration keeps every bucket of the map within bounds, not refilled past `now`, and carrying that configuration's rate and interval in milliseconds |
| `LiveLimiter.RunWaitsInRange` | rate-limiter-algos/tokenBucketOOP.js:38-51 | from a map of such buckets, every denial of a run with non-decreasing times and a positive rate carries `timeRemaining` in `(0, refillInterval * 1000]` |
| `LiveLimiter.DenialsWaitAtMostOneInterval` | rate-limiter-algos/tokenBucketOOP.js:36-51 | starting from the empty map, every denial of such a run tells the caller to wait more than 0 and at most one interval |
| `LiveLimiter.StepSeesOnlyItsKey` | rate-limiter-algos/tokenBucketOOP.js:39-44 | a request for `k` decides the same on the map holding only `k`'s bucket; a request for another key leaves `k`'s bucket as it was |
| `LiveLimiter.KeysAreIsolated` | rate-limiter-algos/tokenBucketOOP.js:36-44 | the outcomes of one key's requests are exactly those it would get if no other key made any request |
| `LiveLimiter.ScenarioBurst` | rate-limiter-algos/tokenBucketOOP.js:27-44 | bucket 3, rate 1, interval 1 s: three requests at one instant are admitted, the fourth is denied with 1000 ms to wait |
| `LiveLimiter.ScenarioOneInterval` | rate-limiter-algos/tokenBucketOOP.js:13-44 | 1000 ms later exactly one more request is admitted |
| `LiveLimiter.ScenarioCarryOver` | rate-limiter-algos/tokenBucketOOP.js:13-44 | 2500 ms after that exactly two tokens are added, `lastRefillTime` moves 2000 ms, and the next denial waits the 500 ms carried over |
| `LiveLimiter.WorkedScenario` | rate-limiter-algos/tokenBucketOOP.js:13-44 | the ten-request run above, outcome by outcome, ending with one admission 500 ms after the carry-over |
| `LiveLimiter.ConsumeIP` | rate-limiter-algos/tokenBucketOOP.js:38-51 | the imperative `consumeIP` on the live map returns and leaves exactly what `Step` describes and keeps the map's invariant |
| `RootLimiter.Step` | tokenBucketOOP.js:38-49 | only `ip`'s entry may change or appear; a denial is always the "Too many requests" message with a `NaN` time |
| `RootLimiter.Run` | tokenBucketOOP.js:38-49 | one outcome per request |
| `RootLimiter.StepNeverRefills` | tokenBucketOOP.js:10-40 | buckets stay `TokenBucket(10, 1)` with no interval; admitted exactly when the key has a token left; its credit drops by one or stays zero; `lastRefillTime` never moves; other keys' credit is unchanged |
| `RootLimiter.AdmittedWhileCreditLasts` | tokenBucketOOP.js:27-40 | from any map of such buckets, request `i` is admitted exactly when fewer earlier requests of its key than the key's remaining credit were made |
| `RootLimiter.TenRequestsPerKeyForever` | tokenBucketOOP.js:27-48 | from the empty map, per key the first ten requests are admitted and every later one is denied, however much time passes |
| `RootLimiter.ConsumeIP` | tokenBucketOOP.js:38-49 | the imperative `consumeIP(ip)` on the root map returns and leaves exactly what `Step` describes and keeps the map's invariant |

## Left out

- `Date.now()`: the live copy reads the clock three times: in the constructor (rate-limiter-algos/tokenBucketOOP.js:7), in `refill` (line 11) and for `timeRemaining` (line 48). The model maps all three readings of one call to the single parameter `now`, so it does not capture the few milliseconds that may pass between them.
- `console.log` in `refill` (line 21): output only.
- JavaScript doubles: all quantities are unbounded integers. Fractional seconds, fractional sizes or rates, and rounding of very large values are not modelled.
- Non-positive intervals: the model chooses not to cover a bucket created with an interval of zero or less, whose JavaScript behaviour runs on `Infinity` and `NaN`. With a negative interval and a positive rate, `Math.floor(timePassed / refillInterval)` is never positive, so the bucket never refills and `timeRemaining` is negative. With an interval of zero, the first refill at least one millisecond after construction divides by zero: `tokensToAdd` is `Infinity`, the bucket is filled to `bucketSize`, `lastRefillTime` becomes `NaN`, and from then on it never refills again and `timeRemaining` is `NaN`.
- `LiveLimiter.ConsumeIP`: requires `refillInterval > 0` when the call creates a bucket, because of the modelling choice above. The middleware's `||` defaults (`rate-limiter.js:78-79`) replace only falsy values, so zero gets the default, but a negative or fractional interval is passed through unchanged.
- `LiveLimiter.Step`: requires `refillInterval > 0` when the call creates a bucket, because of the same modelling choice.
- Negative `bucketSize`: modelled as `nat`.
- The root copy's `timeRemaining` string (`tokenBucketOOP.js:42-46`) is `NaN` divided by 1000 and formatted. The model records only that the number is `NaN` (`None`).
- `rate-limiter.js` middleware: `req.ip`, the `||` defaults, the 429 response, the `parseInt` formatting, and the sliding window from the external `rate-limiter-flexible` package.
- `rate-limiter-algos/leaky-bucket.js`: a wrapper over the external `leaky-bucket` package, whose algorithm is not part of this model.
- Concurrency: the JavaScript token-bucket path is synchronous and single-threaded.
- Not in the code, so not modelled: request cost, an error for a cost above capacity, eviction of keys, and validation of parameters.
- `module.exports` and `require`: plumbing.
