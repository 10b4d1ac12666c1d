/** The token bucket of server/pkg/middleware/ratelimit.go. Times are seconds. */
module TokenBuckets {

  datatype Bucket = Bucket(tokens: real, max: real, rate: real, last: real)

  ghost predicate ValidBucket(b: Bucket) {
    0.0 <= b.tokens <= b.max && b.rate >= 0.0
  }

  /** Tokens flowing in over a stretch of time. */
  function Inflow(rate: real, elapsed: real): real {
    elapsed * rate
  }

  /** Tokens available at a time, after refilling up to the maximum. */
  function Level(b: Bucket, now: real): real {
    var refilled := b.tokens + Inflow(b.rate, now - b.last);
    if refilled > b.max then b.max else refilled
  }

  function FullBucket(rps: int, burst: int, now: real): Bucket {
    Bucket(burst as real, burst as real, rps as real, now)
  }

  function Take(b: Bucket, now: real): (Bucket, bool) {
    var level := Level(b, now);
    if level >= 1.0 then (b.(tokens := level - 1.0, last := now), true)
    else (b.(tokens := level, last := now), false)
  }

  class TokenBucket {
    var tokens: real
    var maxTokens: real
    var refillRate: real
    var lastRefill: real

    function Value(): Bucket
      reads this
    {
      Bucket(tokens, maxTokens, refillRate, lastRefill)
    }

    constructor (rps: int, burst: int, now: real)
      ensures Value() == FullBucket(rps, burst, now)
    {
      tokens := burst as real;
      maxTokens := burst as real;
      refillRate := rps as real;
      lastRefill := now;
    }

    method Allow(now: real) returns (allowed: bool)
      modifies this
      ensures (Value(), allowed) == Take(old(Value()), now)
    {
      hide Inflow;
      var elapsed := now - lastRefill;
      tokens := tokens + Inflow(refillRate, elapsed);
      if tokens > maxTokens {
        tokens := maxTokens;
      }
      lastRefill := now;
      if tokens >= 1.0 {
        tokens := tokens - 1.0;
        return true;
      }
      return false;
    }
  }

  // ---------------------------------------------------------------- runs of one bucket

  /** Request times never go back, nor before the bucket's last refill. */
  ghost predicate InOrder(b: Bucket, ts: seq<real>) {
    && (forall i :: 0 <= i < |ts| ==> b.last <= ts[i])
    && (forall i, j :: 0 <= i <= j < |ts| ==> ts[i] <= ts[j])
  }

  /** The bucket after the first k requests. */
  function After(b: Bucket, ts: seq<real>, k: nat): Bucket
    requires k <= |ts|
  {
    if k == 0 then b else Take(After(b, ts, k - 1), ts[k - 1]).0
  }

  function Answer(b: Bucket, ts: seq<real>, k: nat): bool
    requires k < |ts|
  {
    Take(After(b, ts, k), ts[k]).1
  }

  /** How many of the requests i..j-1 were allowed. */
  function Allowed(b: Bucket, ts: seq<real>, i: nat, j: nat): nat
    requires i <= j <= |ts|
    decreases j
  {
    if i == j then 0 else Allowed(b, ts, i, j - 1) + (if Answer(b, ts, j - 1) then 1 else 0)
  }

  lemma InflowNonNegative(rate: real, elapsed: real)
    requires elapsed >= 0.0 && rate >= 0.0
    ensures Inflow(rate, elapsed) >= 0.0
    ensures Inflow(rate, 0.0) == 0.0
  {}

  lemma InflowAdds(rate: real, a: real, b: real)
    ensures Inflow(rate, a + b) == Inflow(rate, a) + Inflow(rate, b)
  {}

  /** Tokens stay within [0, burst]; the bucket remembers its last request. */
  lemma {:induction false} TokensInRange(b: Bucket, ts: seq<real>, k: nat)
    requires ValidBucket(b) && InOrder(b, ts) && k <= |ts|
    ensures var after := After(b, ts, k);
            && ValidBucket(after) && after.max == b.max && after.rate == b.rate
            && after.last == (if k == 0 then b.last else ts[k - 1])
    ensures k < |ts| ==> 0.0 <= Level(After(b, ts, k), ts[k]) <= b.max
  {
    hide Inflow;
    if k > 0 {
      TokensInRange(b, ts, k - 1);
    }
    if k < |ts| {
      InflowNonNegative(b.rate, ts[k] - After(b, ts, k).last);
    }
  }

  /** Tokens spent since request i cannot exceed the burst plus what flowed in. */
  lemma {:induction false} Spent(b: Bucket, ts: seq<real>, i: nat, j: nat)
    requires ValidBucket(b) && InOrder(b, ts) && i < j <= |ts|
    ensures Allowed(b, ts, i, j) as real + After(b, ts, j).tokens <= b.max + Inflow(b.rate, ts[j - 1] - ts[i])
    decreases j
  {
    hide Inflow;
    TokensInRange(b, ts, j - 1);
    if i < j - 1 {
      Spent(b, ts, i, j - 1);
      InflowAdds(b.rate, ts[j - 2] - ts[i], ts[j - 1] - ts[j - 2]);
    } else {
      InflowNonNegative(b.rate, 0.0);
      assert Allowed(b, ts, i, i) == 0;
    }
  }

  /** In any window of time, at most burst + rps x (length of the window) requests pass. */
  lemma WindowBound(b: Bucket, ts: seq<real>, i: nat, j: nat, s: real, t: real)
    requires ValidBucket(b) && InOrder(b, ts) && i < j <= |ts| && s <= ts[i] && ts[j - 1] <= t
    ensures Allowed(b, ts, i, j) as real <= b.max + Inflow(b.rate, t - s)
  {
    hide Inflow;
    Spent(b, ts, i, j);
    TokensInRange(b, ts, j);
    InflowNonNegative(b.rate, ts[i] - s);
    InflowNonNegative(b.rate, t - ts[j - 1]);
    InflowAdds(b.rate, ts[i] - s, ts[j - 1] - ts[i]);
    InflowAdds(b.rate, ts[j - 1] - s, t - ts[j - 1]);
  }

  /** The level at request k is exactly a full bucket at some earlier request i, plus the inflow, less what
      was spent. */
  ghost predicate LevelFrom(b: Bucket, ts: seq<real>, i: nat, k: nat)
    requires i <= k < |ts|
  {
    Level(After(b, ts, k), ts[k]) == b.max + Inflow(b.rate, ts[k] - ts[i]) - Allowed(b, ts, i, k) as real
  }

  lemma {:induction false} LastFull(b: Bucket, ts: seq<real>, k: nat) returns (i: nat)
    requires ValidBucket(b) && b.tokens == b.max && InOrder(b, ts) && k < |ts|
    ensures i <= k && LevelFrom(b, ts, i, k)
  {
    hide Inflow;
    TokensInRange(b, ts, k);
    InflowNonNegative(b.rate, 0.0);
    var level := Level(After(b, ts, k), ts[k]);
    if k == 0 {
      InflowNonNegative(b.rate, ts[0] - b.last);
      i := 0;
    } else if level == b.max {
      i := k;
    } else {
      i := LastFull(b, ts, k - 1);
      TokensInRange(b, ts, k - 1);
      InflowAdds(b.rate, ts[k - 1] - ts[i], ts[k] - ts[k - 1]);
    }
  }

  /** One more request after i..k-1 still respects the bound on the window from request i to request k. */
  predicate FitsWindow(b: Bucket, ts: seq<real>, i: nat, k: nat)
    requires i <= k < |ts|
  {
    Allowed(b, ts, i, k) as real + 1.0 <= b.max + Inflow(b.rate, ts[k] - ts[i])
  }

  lemma PassedFits(b: Bucket, ts: seq<real>, i: nat, k: nat)
    requires ValidBucket(b) && InOrder(b, ts) && i <= k < |ts| && Answer(b, ts, k)
    ensures FitsWindow(b, ts, i, k)
  {
    hide Inflow;
    TokensInRange(b, ts, k + 1);
    Spent(b, ts, i, k + 1);
  }

  lemma DeniedOverflows(b: Bucket, ts: seq<real>, i: nat, k: nat)
    requires i <= k < |ts| && LevelFrom(b, ts, i, k) && !Answer(b, ts, k)
    ensures !FitsWindow(b, ts, i, k)
  {
    hide Inflow;
  }

  /** Exactly what the limiter does, without its state: a request passes if and only if no window ending
      with it would then hold more than burst + rps x (length of the window) requests. */
  lemma ExactLimiter(b: Bucket, ts: seq<real>, k: nat)
    requires ValidBucket(b) && b.tokens == b.max && InOrder(b, ts) && k < |ts|
    ensures Answer(b, ts, k) <==>
            forall i :: 0 <= i <= k ==> FitsWindow(b, ts, i, k)
  {
    hide Inflow, Level, After, Take, Allowed, InOrder;
    if Answer(b, ts, k) {
      forall i | 0 <= i <= k
        ensures FitsWindow(b, ts, i, k)
      {
        PassedFits(b, ts, i, k);
      }
    } else {
      var i := LastFull(b, ts, k);
      DeniedOverflows(b, ts, i, k);
    }
  }

  /** In figures: the rate counts tokens a second. */
  lemma LimiterInFigures(rps: int, burst: int, start: real, ts: seq<real>, k: nat)
    requires rps >= 0 && burst >= 0 && k < |ts| && InOrder(FullBucket(rps, burst, start), ts)
    ensures var b := FullBucket(rps, burst, start);
            Answer(b, ts, k) <==>
              forall i :: 0 <= i <= k ==>
                Allowed(b, ts, i, k) as real + 1.0 <= burst as real + rps as real * (ts[k] - ts[i])
  {
    var b := FullBucket(rps, burst, start);
    hide After, Take, Level, Allowed, Answer;
    ExactLimiter(b, ts, k);
    forall i | 0 <= i <= k
      ensures FitsWindow(b, ts, i, k) <==>
                Allowed(b, ts, i, k) as real + 1.0 <= burst as real + rps as real * (ts[k] - ts[i])
    {}
  }
}
