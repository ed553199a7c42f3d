/** The token-bucket rate limiter over real-valued tokens and seconds. */
module RateLimiter {
  datatype Config = Config(maxTokens: real, refillRate: real) {
    predicate Valid() { maxTokens >= 0.0 && refillRate >= 0.0 }
  }

  datatype Bucket = Bucket(tokens: real, lastRefill: real)

  datatype Request = Request(key: string, time: real)

  function Lesser(x: real, y: real): real {
    if x <= y then x else y
  }

  /** What comes in between two points in time. */
  function Gain(cfg: Config, since: real, now: real): real {
    (now - since) * cfg.refillRate
  }

  lemma GainsAdd(cfg: Config, a: real, b: real, c: real)
    ensures Gain(cfg, a, c) == Gain(cfg, a, b) + Gain(cfg, b, c)
  {
  }

  lemma GainNonNegative(cfg: Config, a: real, b: real)
    requires cfg.Valid() && a <= b
    ensures Gain(cfg, a, b) >= 0.0
  {
  }

  function Full(cfg: Config, now: real): Bucket {
    Bucket(cfg.maxTokens, now)
  }

  function Refilled(cfg: Config, b: Bucket, now: real): Bucket {
    Bucket(Lesser(cfg.maxTokens, b.tokens + Gain(cfg, b.lastRefill, now)), now)
  }

  function Consumed(cfg: Config, b: Bucket, now: real): (Bucket, bool) {
    var r := Refilled(cfg, b, now);
    if r.tokens >= 1.0 then (r.(tokens := r.tokens - 1.0), true) else (r, false)
  }

  // ---------------------------------------------------------------------------------------
  // Levels: a bucket of capacity `cap` and the gains between consecutive requests
  // ---------------------------------------------------------------------------------------

  /** What the bucket holds when the last of |gains| requests asks for a token; gains[i] is what came in between
      request i - 1 and request i, and the first request finds a full bucket. */
  function Level(cap: real, gains: seq<real>): real
    requires |gains| > 0
    decreases |gains|, 0
  {
    var n := |gains| - 1;
    if n == 0 then cap else Lesser(cap, Left(cap, gains[..n]) + gains[n])
  }

  function Left(cap: real, gains: seq<real>): real
    requires |gains| > 0
    decreases |gains|, 2
  {
    Level(cap, gains) - (if Grants(cap, gains) then 1.0 else 0.0)
  }

  predicate Grants(cap: real, gains: seq<real>)
    requires |gains| > 0
    decreases |gains|, 1
  {
    Level(cap, gains) >= 1.0
  }

  /** Requests granted among those with index at least m. */
  function Granted(cap: real, gains: seq<real>, m: nat): nat {
    if |gains| <= m then 0
    else Granted(cap, gains[..|gains| - 1], m) + (if Grants(cap, gains) then 1 else 0)
  }

  /** What came in after request m. */
  function Income(gains: seq<real>, m: nat): real {
    if |gains| <= m + 1 then 0.0 else Income(gains[..|gains| - 1], m) + gains[|gains| - 1]
  }

  ghost predicate NonNegative(gains: seq<real>) {
    forall i | 0 <= i < |gains| :: gains[i] >= 0.0
  }

  lemma {:induction false} LevelBounded(cap: real, gains: seq<real>)
    requires cap >= 0.0 && |gains| > 0 && NonNegative(gains)
    ensures 0.0 <= Level(cap, gains) <= cap && 0.0 <= Left(cap, gains)
  {
    if |gains| == 1 {
    } else {
      LevelBounded(cap, gains[..|gains| - 1]);
    }
  }

  /** The level never exceeds what any window leaves. */
  lemma {:induction false} LevelBelowWindow(cap: real, gains: seq<real>, m: nat)
    requires cap >= 0.0 && m < |gains| && NonNegative(gains)
    ensures Level(cap, gains) <= cap + Income(gains, m) - Granted(cap, gains[..|gains| - 1], m) as real
  {
    var n := |gains| - 1;
    if m < n {
      LevelBelowWindow(cap, gains[..n], m);
    } else {
      LevelBounded(cap, gains);
    }
  }

  /** And some window attains it: the level is the least that any window leaves. */
  lemma {:induction false} LevelAttained(cap: real, gains: seq<real>) returns (m: nat)
    requires cap >= 0.0 && |gains| > 0 && NonNegative(gains)
    ensures m < |gains|
    ensures Level(cap, gains) == cap + Income(gains, m) - Granted(cap, gains[..|gains| - 1], m) as real
  {
    var n := |gains| - 1;
    if Level(cap, gains) == cap {
      m := n;
    } else {
      m := LevelAttained(cap, gains[..n]);
    }
  }

  // ---------------------------------------------------------------------------------------
  // One bucket over time
  // ---------------------------------------------------------------------------------------

  ghost predicate NonDecreasing(times: seq<real>) {
    forall i, j | 0 <= i <= j < |times| :: times[i] <= times[j]
  }

  /** The bucket after some requests; it is created full by the first of them. */
  function After(cfg: Config, times: seq<real>): Bucket
    requires |times| > 0
  {
    var n := |times| - 1;
    Consumed(cfg, if n == 0 then Full(cfg, times[0]) else After(cfg, times[..n]), times[n]).0
  }

  /** The answer to the last request. */
  predicate Admits(cfg: Config, times: seq<real>)
    requires |times| > 0
  {
    var n := |times| - 1;
    Consumed(cfg, if n == 0 then Full(cfg, times[0]) else After(cfg, times[..n]), times[n]).1
  }

  /** Requests admitted among those with index at least m. */
  function Admitted(cfg: Config, times: seq<real>, m: nat): nat {
    if |times| <= m then 0
    else Admitted(cfg, times[..|times| - 1], m) + (if Admits(cfg, times) then 1 else 0)
  }

  /** The most that requests with index at least m could have been granted by the time of the last one. */
  function Allowance(cfg: Config, times: seq<real>, m: nat): real
    requires m < |times|
  {
    cfg.maxTokens + Gain(cfg, times[m], times[|times| - 1])
  }

  function Gains(cfg: Config, times: seq<real>): (gains: seq<real>)
    ensures |gains| == |times|
  {
    if |times| == 0 then []
    else
      var n := |times| - 1;
      Gains(cfg, times[..n]) + [if n == 0 then 0.0 else Gain(cfg, times[n - 1], times[n])]
  }

  lemma {:induction false} GainsNonNegative(cfg: Config, times: seq<real>)
    requires cfg.Valid() && NonDecreasing(times)
    ensures NonNegative(Gains(cfg, times))
  {
    if |times| == 0 {
    } else {
      var n := |times| - 1;
      GainsNonNegative(cfg, times[..n]);
      if n > 0 {
        GainNonNegative(cfg, times[n - 1], times[n]);
      }
    }
  }

  lemma IncomeSnoc(gains: seq<real>, g: real, m: nat)
    requires m < |gains|
    ensures Income(gains + [g], m) == Income(gains, m) + g
  {
    assert (gains + [g])[..|gains|] == gains;
  }

  lemma {:induction false} IncomeOverTime(cfg: Config, times: seq<real>, m: nat)
    requires m < |times|
    ensures Income(Gains(cfg, times), m) == Gain(cfg, times[m], times[|times| - 1])
  {
    var n := |times| - 1;
    if m == n {
    } else {
      IncomeOverTime(cfg, times[..n], m);
      IncomeSnoc(Gains(cfg, times[..n]), Gain(cfg, times[n - 1], times[n]), m);
      GainsAdd(cfg, times[m], times[n - 1], times[n]);
    }
  }

  lemma LeftSnoc(cap: real, gains: seq<real>, g: real)
    requires |gains| > 0
    ensures Level(cap, gains + [g]) == Lesser(cap, Left(cap, gains) + g)
  {
    assert (gains + [g])[..|gains|] == gains;
  }

  /** The bucket of the limiter is the abstract one. */
  lemma {:induction false} AfterIsLevel(cfg: Config, times: seq<real>)
    requires |times| > 0
    ensures After(cfg, times) == Bucket(Left(cfg.maxTokens, Gains(cfg, times)), times[|times| - 1])
    ensures Admits(cfg, times) <==> Grants(cfg.maxTokens, Gains(cfg, times))
  {
    var n := |times| - 1;
    if n == 0 {
    } else {
      var front := times[..n];
      AfterIsLevel(cfg, front);
      LeftSnoc(cfg.maxTokens, Gains(cfg, front), Gain(cfg, times[n - 1], times[n]));
      assert Refilled(cfg, After(cfg, front), times[n]).tokens == Lesser(cfg.maxTokens, After(cfg, front).tokens + Gain(cfg, times[n - 1], times[n]));
    }
  }

  lemma {:induction false} AdmittedIsGranted(cfg: Config, times: seq<real>, m: nat)
    ensures Admitted(cfg, times, m) == Granted(cfg.maxTokens, Gains(cfg, times), m)
  {
    if |times| > m {
      AdmittedIsGranted(cfg, times[..|times| - 1], m);
      assert Gains(cfg, times)[..|times| - 1] == Gains(cfg, times[..|times| - 1]);
      AfterIsLevel(cfg, times);
    }
  }

  /** A bucket holds between nothing and its capacity, always. */
  lemma TokensBounded(cfg: Config, times: seq<real>)
    requires cfg.Valid() && |times| > 0 && NonDecreasing(times)
    ensures 0.0 <= After(cfg, times).tokens <= cfg.maxTokens
  {
    AfterIsLevel(cfg, times);
    GainsNonNegative(cfg, times);
    LevelBounded(cfg.maxTokens, Gains(cfg, times));
  }

  /** A request is admitted exactly when admitting it keeps every window that ends with it within its allowance. */
  lemma AdmitsIffEveryWindowAllows(cfg: Config, times: seq<real>)
    requires cfg.Valid() && |times| > 0 && NonDecreasing(times)
    ensures Admits(cfg, times) <==>
      forall m | 0 <= m < |times| :: Admitted(cfg, times[..|times| - 1], m) as real + 1.0 <= Allowance(cfg, times, m)
  {
    var gains := Gains(cfg, times);
    GainsNonNegative(cfg, times);
    AfterIsLevel(cfg, times);
    assert Gains(cfg, times)[..|times| - 1] == Gains(cfg, times[..|times| - 1]);
    forall m | 0 <= m < |times|
      ensures Level(cfg.maxTokens, gains) <= Allowance(cfg, times, m) - Admitted(cfg, times[..|times| - 1], m) as real
    {
      LevelBelowWindow(cfg.maxTokens, gains, m);
      IncomeOverTime(cfg, times, m);
      AdmittedIsGranted(cfg, times[..|times| - 1], m);
    }
    var w := LevelAttained(cfg.maxTokens, gains);
    IncomeOverTime(cfg, times, w);
    AdmittedIsGranted(cfg, times[..|times| - 1], w);
    assert Level(cfg.maxTokens, gains) == Allowance(cfg, times, w) - Admitted(cfg, times[..|times| - 1], w) as real;
  }

  /** Two refills in a row are one. */
  lemma RefillSplits(cfg: Config, b: Bucket, t1: real, t2: real)
    requires cfg.Valid() && b.tokens <= cfg.maxTokens && b.lastRefill <= t1 <= t2
    ensures Refilled(cfg, Refilled(cfg, b, t1), t2) == Refilled(cfg, b, t2)
  {
    GainsAdd(cfg, b.lastRefill, t1, t2);
    GainNonNegative(cfg, t1, t2);
  }

  /** A denied request costs nothing: every later request is answered as if it had not been made. */
  lemma DeniedIsFree(cfg: Config, b: Bucket, t1: real, t2: real)
    requires cfg.Valid() && b.tokens <= cfg.maxTokens && b.lastRefill <= t1 <= t2
    requires !Consumed(cfg, b, t1).1
    ensures Consumed(cfg, Consumed(cfg, b, t1).0, t2) == Consumed(cfg, b, t2)
  {
    RefillSplits(cfg, b, t1, t2);
  }

  // ---------------------------------------------------------------------------------------
  // The limiter
  // ---------------------------------------------------------------------------------------

  function Serve(cfg: Config, buckets: map<string, Bucket>, r: Request): (map<string, Bucket>, bool) {
    var b := if r.key in buckets then buckets[r.key] else Full(cfg, r.time);
    var (b', ok) := Consumed(cfg, b, r.time);
    (buckets[r.key := b'], ok)
  }

  function Buckets(cfg: Config, rs: seq<Request>): map<string, Bucket> {
    if |rs| == 0 then map[] else Serve(cfg, Buckets(cfg, rs[..|rs| - 1]), rs[|rs| - 1]).0
  }

  /** Whether the last request of a run is admitted. */
  predicate Allowed(cfg: Config, rs: seq<Request>)
    requires |rs| > 0
  {
    Serve(cfg, Buckets(cfg, rs[..|rs| - 1]), rs[|rs| - 1]).1
  }

  /** The times of the requests made under one key. */
  function TimesOf(rs: seq<Request>, key: string): seq<real> {
    if |rs| == 0 then []
    else TimesOf(rs[..|rs| - 1], key) + (if rs[|rs| - 1].key == key then [rs[|rs| - 1].time] else [])
  }

  ghost predicate Chronological(rs: seq<Request>) {
    forall i, j | 0 <= i <= j < |rs| :: rs[i].time <= rs[j].time
  }

  lemma {:induction false} BucketOfKey(cfg: Config, rs: seq<Request>, key: string)
    ensures key in Buckets(cfg, rs) <==> |TimesOf(rs, key)| > 0
    ensures key in Buckets(cfg, rs) ==> Buckets(cfg, rs)[key] == After(cfg, TimesOf(rs, key))
  {
    if |rs| == 0 {
    } else {
      var front, r := rs[..|rs| - 1], rs[|rs| - 1];
      BucketOfKey(cfg, front, key);
      if r.key == key {
        var times := TimesOf(rs, key);
        assert times[..|times| - 1] == TimesOf(front, key);
      } else {
        assert TimesOf(rs, key) == TimesOf(front, key);
      }
    }
  }

  /** One key's answers depend on that key's requests only: the run is answered as the key's own times would be. */
  lemma KeysAreIsolated(cfg: Config, rs: seq<Request>)
    requires |rs| > 0
    ensures var times := TimesOf(rs, rs[|rs| - 1].key);
      |times| > 0 && (Allowed(cfg, rs) <==> Admits(cfg, times))
  {
    var front, r := rs[..|rs| - 1], rs[|rs| - 1];
    BucketOfKey(cfg, front, r.key);
    var times := TimesOf(rs, r.key);
    assert times[..|times| - 1] == TimesOf(front, r.key);
  }

  lemma {:induction false} TimesChronological(rs: seq<Request>, key: string)
    requires Chronological(rs)
    ensures NonDecreasing(TimesOf(rs, key))
    ensures forall i | 0 <= i < |TimesOf(rs, key)| :: TimesOf(rs, key)[i] <= rs[|rs| - 1].time
  {
    if |rs| == 0 {
    } else {
      TimesChronological(rs[..|rs| - 1], key);
    }
  }

  /** Requests under `key` admitted at times in [s, t]. */
  function AdmittedIn(cfg: Config, rs: seq<Request>, key: string, s: real, t: real): nat {
    if |rs| == 0 then 0
    else
      var r := rs[|rs| - 1];
      AdmittedIn(cfg, rs[..|rs| - 1], key, s, t) +
      (if r.key == key && s <= r.time <= t && Allowed(cfg, rs) then 1 else 0)
  }

  lemma {:induction false} NoneBefore(cfg: Config, rs: seq<Request>, key: string, s: real, t: real)
    requires forall i | 0 <= i < |rs| && rs[i].key == key :: rs[i].time < s
    ensures AdmittedIn(cfg, rs, key, s, t) == 0
  {
    if |rs| == 0 {
    } else {
      NoneBefore(cfg, rs[..|rs| - 1], key, s, t);
    }
  }

  /** One more request: what was admitted and what is left grow by no more than the gain. */
  lemma LeftGrows(cfg: Config, times: seq<real>)
    requires cfg.Valid() && |times| > 0 && NonDecreasing(times)
    ensures var n := |times| - 1;
      After(cfg, times).tokens + (if Admits(cfg, times) then 1.0 else 0.0)
        <= if n == 0 then cfg.maxTokens else Lesser(cfg.maxTokens, After(cfg, times[..n]).tokens + Gain(cfg, times[n - 1], times[n]))
  {
    AfterIsLevel(cfg, times);
    assert Gains(cfg, times)[..|times| - 1] == Gains(cfg, times[..|times| - 1]);
    if |times| > 1 {
      AfterIsLevel(cfg, times[..|times| - 1]);
    }
  }

  /** While the clock is inside the window, what was admitted and what is left add up to no more than the allowance. */
  lemma {:induction false} InsideWindow(cfg: Config, rs: seq<Request>, key: string, s: real, t: real)
    requires cfg.Valid() && Chronological(rs) && |TimesOf(rs, key)| > 0
    requires s <= TimesOf(rs, key)[|TimesOf(rs, key)| - 1]
    ensures var last := TimesOf(rs, key)[|TimesOf(rs, key)| - 1];
      AdmittedIn(cfg, rs, key, s, t) as real + After(cfg, TimesOf(rs, key)).tokens <= cfg.maxTokens + Gain(cfg, s, last)
  {
    var front, r := rs[..|rs| - 1], rs[|rs| - 1];
    var times, before := TimesOf(rs, key), TimesOf(front, key);
    if r.key != key {
      assert times == before;
      InsideWindow(cfg, front, key, s, t);
    } else {
      assert times == before + [r.time];
      assert times[..|times| - 1] == before;
      KeysAreIsolated(cfg, rs);
      TimesChronological(rs, key);
      LeftGrows(cfg, times);
      if |before| > 0 && before[|before| - 1] >= s {
        InsideWindow(cfg, front, key, s, t);
        GainsAdd(cfg, s, before[|before| - 1], r.time);
      } else {
        TimesBelow(front, key, s);
        NoneBefore(cfg, front, key, s, t);
        GainNonNegative(cfg, s, r.time);
      }
    }
  }

  lemma {:induction false} TimesBelow(rs: seq<Request>, key: string, s: real)
    requires Chronological(rs)
    requires |TimesOf(rs, key)| > 0 ==> TimesOf(rs, key)[|TimesOf(rs, key)| - 1] < s
    ensures forall i | 0 <= i < |rs| && rs[i].key == key :: rs[i].time < s
  {
    if |rs| == 0 {
    } else {
      var n := |rs| - 1;
      if rs[n].key != key {
        TimesBelow(rs[..n], key, s);
      }
    }
  }

  /** Over every run and for every key, the requests admitted in any window [s, t] number at most
      maxTokens + refillRate * (t - s). */
  lemma {:induction false} WindowBound(cfg: Config, rs: seq<Request>, key: string, s: real, t: real)
    requires cfg.Valid() && Chronological(rs) && s <= t
    ensures AdmittedIn(cfg, rs, key, s, t) as real <= cfg.maxTokens + Gain(cfg, s, t)
  {
    GainNonNegative(cfg, s, t);
    if |rs| == 0 {
    } else {
      var front, r := rs[..|rs| - 1], rs[|rs| - 1];
      if r.key != key || r.time > t || r.time < s {
        WindowBound(cfg, front, key, s, t);
      } else {
        var times := TimesOf(rs, key);
        InsideWindow(cfg, rs, key, s, t);
        TimesChronological(rs, key);
        TokensBounded(cfg, times);
        assert times[|times| - 1] == r.time;
        GainsAdd(cfg, s, r.time, t);
        GainNonNegative(cfg, r.time, t);
      }
    }
  }

  // ---------------------------------------------------------------------------------------
  // The objects
  // ---------------------------------------------------------------------------------------

  class TokenBucket {
    const cfg: Config
    var tokens: real
    var lastRefill: real

    function Abs(): Bucket
      reads this
    {
      Bucket(tokens, lastRefill)
    }

    constructor (config: Config, now: real)
      ensures cfg == config && Abs() == Full(config, now)
    {
      cfg, tokens, lastRefill := config, config.maxTokens, now;
    }

    method Consume(now: real) returns (ok: bool)
      modifies this
      ensures (Abs(), ok) == Consumed(cfg, old(Abs()), now)
    {
      Refill(now);
      if tokens >= 1.0 {
        tokens := tokens - 1.0;
        return true;
      }
      return false;
    }

    method Refill(now: real)
      modifies this
      ensures Abs() == Refilled(cfg, old(Abs()), now)
    {
      var elapsed := now - lastRefill;
      tokens := Lesser(cfg.maxTokens, tokens + elapsed * cfg.refillRate);
      lastRefill := now;
    }
  }

  class Limiter {
    const cfg: Config
    var buckets: map<string, TokenBucket>

    ghost predicate Valid()
      reads this, buckets.Values
    {
      && (forall k | k in buckets :: buckets[k].cfg == cfg)
      && (forall j, k | j in buckets && k in buckets && j != k :: buckets[j] != buckets[k])
    }

    ghost function Abs(): map<string, Bucket>
      reads this, buckets.Values
    {
      map k | k in buckets :: buckets[k].Abs()
    }

    constructor (config: Config)
      ensures Valid() && cfg == config && Abs() == map[]
    {
      cfg, buckets := config, map[];
    }

    /** The middleware: `admitted` calls the next handler, otherwise the answer is status 429. */
    method Handle(r: Request) returns (admitted: bool)
      requires Valid()
      modifies this, buckets.Values
      ensures Valid()
      ensures (Abs(), admitted) == Serve(cfg, old(Abs()), r)
    {
      if r.key !in buckets {
        var created := new TokenBucket(cfg, r.time);
        buckets := buckets[r.key := created];
      }
      var bucket := buckets[r.key];
      assert forall k | k in buckets && k != r.key :: buckets[k] != bucket;
      admitted := bucket.Consume(r.time);
      assert Abs() == Serve(cfg, old(Abs()), r).0;
    }
  }
}
