/** When evicting idle entries changes no answer (server/pkg/middleware/ratelimit.go): exactly when a bucket
    emptied as far as requests that wait at most d can leave it refills before its entry is old enough to be swept. */
module Eviction {
  import opened TokenBuckets
  import opened RateLimiters

  // ---------------------------------------------------------------- runs

  datatype Event = Request(ip: string, isAuth: bool, at: Clock) | Cleanup(now: real)

  function Starts(e: Event): real {
    if e.Request? then e.at.seen else e.now
  }

  function Ends(e: Event): real {
    if e.Request? then e.at.global else e.now
  }

  /** Clock readings in turn, the last at most d after the first. */
  ghost predicate Served(at: Clock, d: real) {
    InTurn(at) && at.global <= at.seen + d
  }

  /** One event after the other, no request taking longer than d. */
  ghost predicate Ordered(es: seq<Event>, from: real, d: real)
    decreases |es|
  {
    es == [] || (from <= Starts(es[0]) && (es[0].Request? ==> Served(es[0].at, d)) && Ordered(es[1..], Ends(es[0]), d))
  }

  function Next(s: Table, c: Config, e: Event, evicts: bool): Table {
    match e
    case Request(ip, isAuth, at) => Handle(s, c, ip, isAuth, at).0
    case Cleanup(now) => if evicts then Sweep(s, c.ttl, now) else s
  }

  function Verdicts(s: Table, c: Config, es: seq<Event>, evicts: bool): seq<Verdict>
    decreases |es|
  {
    if es == [] then []
    else
      (if es[0].Request? then [Handle(s, c, es[0].ip, es[0].isAuth, es[0].at).1] else [])
      + Verdicts(Next(s, c, es[0], evicts), c, es[1..], evicts)
  }

  // ---------------------------------------------------------------- enough

  /** What a request that waits x tokens long can leave missing beyond what it found missing. */
  function Slack(burst: int, x: real): real {
    if x <= 1.0 then x else if x <= burst as real then 1.0 else x - burst as real + 1.0
  }

  /** The time to live outlasts the refilling of a bucket that requests may keep waiting for up to d. */
  ghost predicate Outlasts(rps: int, burst: int, ttl: real, d: real) {
    burst == 0 || Inflow(rps as real, ttl) >= burst as real + Slack(burst, Inflow(rps as real, d))
  }

  /** A bucket that will be full once its entry, last found at `seen`, is older than the time to live. */
  ghost predicate Covers(b: Bucket, rps: int, burst: int, seen: real, ttl: real) {
    burst == 0 || b.tokens + Inflow(rps as real, seen + ttl - b.last) >= burst as real
  }

  ghost predicate Lasting(s: Table, c: Config, now: real) {
    forall ip :: ip in s ==>
      && s[ip].lastSeen <= now
      && Covers(s[ip].global, c.globalRps, c.globalBurst, s[ip].lastSeen, c.ttl)
      && Covers(s[ip].auth, c.authRps, c.authBurst, s[ip].lastSeen, c.ttl)
  }

  lemma InflowGrows(rps: int, a: real, b: real)
    requires rps >= 0 && a <= b
    ensures Inflow(rps as real, a) <= Inflow(rps as real, b)
  {
    InflowNonNegative(rps as real, b - a);
    InflowAdds(rps as real, a, b - a);
  }

  lemma FoundLater(b: Bucket, rps: int, burst: int, seen: real, ttl: real, later: real)
    requires Covers(b, rps, burst, seen, ttl) && seen <= later && rps >= 0
    ensures Covers(b, rps, burst, later, ttl)
  {
    InflowGrows(rps, seen + ttl - b.last, later + ttl - b.last);
  }

  /** Being asked keeps a bucket covered, from whatever level its entry was found at. */
  lemma TakeCovers(b: Bucket, rps: int, burst: int, ttl: real, d: real, seen: real, at: real)
    requires SoundBucket(b, rps, burst, seen) && Outlasts(rps, burst, ttl, d) && rps >= 0 && seen <= at <= seen + d
    ensures Covers(Take(b, at).0, rps, burst, seen, ttl)
  {
    var r := rps as real;
    InflowGrows(rps, at - seen, d);
    InflowNonNegative(r, seen - b.last);
    InflowNonNegative(r, at - seen);
    InflowAdds(r, at - seen, seen - b.last);
    InflowAdds(r, at - seen, seen + ttl - at);
    assert at - seen + (seen - b.last) == at - b.last && at - seen + (seen + ttl - at) == ttl;
    hide Inflow;
  }

  lemma FreshCovers(rps: int, burst: int, now: real, ttl: real)
    requires rps >= 0 && burst >= 0 && ttl >= 0.0
    ensures Covers(FullBucket(rps, burst, now), rps, burst, now, ttl)
  {
    InflowNonNegative(rps as real, ttl);
    assert now + ttl - now == ttl;
  }

  lemma CoveredIsFull(b: Bucket, rps: int, burst: int, seen: real, ttl: real, now: real)
    requires Covers(b, rps, burst, seen, ttl) && SoundBucket(b, rps, burst, now) && now - seen > ttl && rps >= 0
    ensures Level(b, now) == burst as real
  {
    InflowGrows(rps, seen + ttl - b.last, now - b.last);
    InflowNonNegative(rps as real, now - b.last);
    hide Inflow;
  }

  lemma LastingHandled(s: Table, c: Config, d: real, ip: string, isAuth: bool, at: Clock)
    requires ValidConfig(c) && Outlasts(c.globalRps, c.globalBurst, c.ttl, d)
    requires Outlasts(c.authRps, c.authBurst, c.ttl, d)
    requires Sound(s, c, at.seen) && Lasting(s, c, at.seen) && Served(at, d)
    ensures Lasting(Handle(s, c, ip, isAuth, at).0, c, at.global)
  {
    hide Take, Covers, SoundBucket, FullBucket, Outlasts, Level;
    var e := Seen(s, c, ip, at.seen);
    FreshCovers(c.globalRps, c.globalBurst, at.seen, c.ttl);
    FreshCovers(c.authRps, c.authBurst, at.seen, c.ttl);
    FoundEntry(s, c, ip, at.seen, at.seen);
    if ip in s {
      FoundLater(s[ip].global, c.globalRps, c.globalBurst, s[ip].lastSeen, c.ttl, at.seen);
      FoundLater(s[ip].auth, c.authRps, c.authBurst, s[ip].lastSeen, c.ttl, at.seen);
    }
    TakeCovers(e.global, c.globalRps, c.globalBurst, c.ttl, d, at.seen, at.global);
    TakeCovers(e.auth, c.authRps, c.authBurst, c.ttl, d, at.seen, at.auth);
  }

  lemma AlikeSwept(a: Table, b: Table, c: Config, now: real)
    requires ValidConfig(c) && Lasting(a, c, now) && Alike(a, b, c, now)
    ensures Alike(Sweep(a, c.ttl, now), b, c, now) && Lasting(Sweep(a, c.ttl, now), c, now)
  {
    hide Level, SoundBucket, Covers;
    var swept := Sweep(a, c.ttl, now);
    forall ip
      ensures GlobalLevel(swept, c, ip, now) == GlobalLevel(b, c, ip, now)
      ensures AuthLevel(swept, c, ip, now) == AuthLevel(b, c, ip, now)
    {
      assert GlobalLevel(a, c, ip, now) == GlobalLevel(b, c, ip, now);
      if ip in a && ip !in swept {
        CoveredIsFull(a[ip].global, c.globalRps, c.globalBurst, a[ip].lastSeen, c.ttl, now);
        CoveredIsFull(a[ip].auth, c.authRps, c.authBurst, a[ip].lastSeen, c.ttl, now);
      }
    }
  }

  lemma LastingLater(s: Table, c: Config, now: real, later: real)
    requires Lasting(s, c, now) && now <= later
    ensures Lasting(s, c, later)
  {
    hide Covers;
  }

  lemma {:induction false} EvictionUnseen(a: Table, b: Table, c: Config, d: real, es: seq<Event>, now: real)
    requires ValidConfig(c) && Outlasts(c.globalRps, c.globalBurst, c.ttl, d)
    requires Outlasts(c.authRps, c.authBurst, c.ttl, d)
    requires Alike(a, b, c, now) && Lasting(a, c, now) && Ordered(es, now, d)
    ensures Verdicts(a, c, es, true) == Verdicts(b, c, es, false)
    decreases |es|
  {
    hide Handle, Sweep, Alike, Lasting, ValidConfig, Outlasts;
    if es != [] {
      var e := es[0];
      AlikeLater(a, b, c, now, Starts(e));
      LastingLater(a, c, now, Starts(e));
      match e {
        case Request(ip, isAuth, at) =>
          AlikeHandled(a, b, c, ip, isAuth, at);
          AlikeIsSound(a, b, c, at.seen);
          LastingHandled(a, c, d, ip, isAuth, at);
        case Cleanup(t) => AlikeSwept(a, b, c, t);
      }
      EvictionUnseen(Next(a, c, e, true), Next(b, c, e, false), c, d, es[1..], Ends(e));
    }
  }

  lemma AlikeIsSound(a: Table, b: Table, c: Config, now: real)
    requires Alike(a, b, c, now)
    ensures Sound(a, c, now)
  {}

  // ---------------------------------------------------------------- and only then

  function Instant(t: real): Clock {
    Clock(t, t, t)
  }

  /** A burst of n identical requests at one instant. */
  function Burst(ip: string, isAuth: bool, now: real, n: nat): (es: seq<Event>)
    ensures |es| == n && forall i :: 0 <= i < n ==> es[i] == Request(ip, isAuth, Instant(now))
  {
    seq(n, _ => Request(ip, isAuth, Instant(now)))
  }

  /** The level of the bucket that answers first. */
  function GateLevel(s: Table, c: Config, ip: string, isAuth: bool, now: real): real {
    if isAuth then AuthLevel(s, c, ip, now) else GlobalLevel(s, c, ip, now)
  }

  function GateBurst(c: Config, isAuth: bool): int {
    if isAuth then c.authBurst else c.globalBurst
  }

  function GateRps(c: Config, isAuth: bool): int {
    if isAuth then c.authRps else c.globalRps
  }

  /** The first gate turned the request away. */
  predicate Barred(v: Verdict, isAuth: bool) {
    if isAuth then v == AuthDenied else v == GlobalDenied
  }

  /** The first gate turned nobody away. */
  predicate AllThrough(answers: seq<Verdict>, isAuth: bool) {
    forall i :: 0 <= i < |answers| ==> !Barred(answers[i], isAuth)
  }

  lemma AllThroughGrow(v: Verdict, rest: seq<Verdict>, isAuth: bool)
    ensures AllThrough([v] + rest, isAuth) <==> !Barred(v, isAuth) && AllThrough(rest, isAuth)
  {
    assert forall i :: 0 <= i < |rest| ==> ([v] + rest)[i + 1] == rest[i];
    assert ([v] + rest)[0] == v;
  }

  function TableAfter(s: Table, c: Config, es: seq<Event>, evicts: bool): Table
    decreases |es|
  {
    if es == [] then s else TableAfter(Next(s, c, es[0], evicts), c, es[1..], evicts)
  }

  lemma {:induction false} VerdictsConcat(s: Table, c: Config, xs: seq<Event>, ys: seq<Event>, evicts: bool)
    ensures Verdicts(s, c, xs + ys, evicts)
            == Verdicts(s, c, xs, evicts) + Verdicts(TableAfter(s, c, xs, evicts), c, ys, evicts)
    decreases |xs|
  {
    hide Handle, Sweep;
    if xs == [] {
      assert xs + ys == ys;
    } else {
      assert (xs + ys)[0] == xs[0] && (xs + ys)[1..] == xs[1..] + ys;
      VerdictsConcat(Next(s, c, xs[0], evicts), c, xs[1..], ys, evicts);
    }
  }

  /** A run of requests alone is the same with and without eviction. */
  lemma {:induction false} NoSweepNoMatter(s: Table, c: Config, es: seq<Event>)
    requires forall i :: 0 <= i < |es| ==> es[i].Request?
    ensures Verdicts(s, c, es, true) == Verdicts(s, c, es, false)
    ensures TableAfter(s, c, es, true) == TableAfter(s, c, es, false)
    decreases |es|
  {
    hide Handle;
    if es != [] {
      NoSweepNoMatter(Next(s, c, es[0], true), c, es[1..]);
    }
  }

  lemma {:induction false} BurstOrdered(ip: string, isAuth: bool, from: real, now: real, n: nat, d: real)
    requires from <= now && d >= 0.0
    ensures Ordered(Burst(ip, isAuth, now, n), from, d)
    decreases n
  {
    if n > 0 {
      assert Burst(ip, isAuth, now, n)[1..] == Burst(ip, isAuth, now, n - 1);
      BurstOrdered(ip, isAuth, now, now, n - 1, d);
    }
  }

  lemma {:induction false} OrderedConcat(xs: seq<Event>, ys: seq<Event>, from: real, d: real, until: real)
    requires Ordered(xs, from, d) && Ordered(ys, until, d) && from <= until
    requires forall i :: 0 <= i < |xs| ==> Ends(xs[i]) <= until
    ensures Ordered(xs + ys, from, d)
    decreases |xs|
  {
    if xs == [] {
      assert xs + ys == ys;
    } else {
      assert (xs + ys)[0] == xs[0] && (xs + ys)[1..] == xs[1..] + ys;
      OrderedConcat(xs[1..], ys, Ends(xs[0]), d, until);
    }
  }

  /** A burst of n passes the first gate whole exactly when the gate holds n tokens; it then spends them all. */
  lemma {:induction false} BurstDrains(s: Table, c: Config, ip: string, isAuth: bool, now: real, n: nat, evicts: bool)
    requires ValidConfig(c) && Sound(s, c, now)
    ensures var es, level := Burst(ip, isAuth, now, n), GateLevel(s, c, ip, isAuth, now);
            var answers, after := Verdicts(s, c, es, evicts), TableAfter(s, c, es, evicts);
            && |answers| == n
            && (AllThrough(answers, isAuth) <==> (n == 0 || level >= n as real))
            && Sound(after, c, now)
            && (n == 0 || level >= n as real ==> GateLevel(after, c, ip, isAuth, now) == level - n as real)
            && (n > 0 ==> ip in after && after[ip].lastSeen == now)
    decreases n
  {
    if n > 0 {
      GateStep(s, c, ip, isAuth, now, now);
      hide Handle, GateLevel, Sound, ValidConfig, Barred, AllThrough;
      var es := Burst(ip, isAuth, now, n);
      assert es[1..] == Burst(ip, isAuth, now, n - 1);
      var next := Handle(s, c, ip, isAuth, Instant(now));
      BurstDrains(next.0, c, ip, isAuth, now, n - 1, evicts);
      var rest := Verdicts(next.0, c, es[1..], evicts);
      assert Verdicts(s, c, es, evicts) == [next.1] + rest;
      AllThroughGrow(next.1, rest, isAuth);
    } else {
      NobodyBarred(isAuth);
    }
  }

  lemma NobodyBarred(isAuth: bool)
    ensures AllThrough([], isAuth)
  {}

  /** One request, found at one moment and answered at another. */
  lemma GateStep(s: Table, c: Config, ip: string, isAuth: bool, seen: real, now: real)
    requires ValidConfig(c) && Sound(s, c, seen) && seen <= now
    ensures var (after, verdict) := Handle(s, c, ip, isAuth, Clock(seen, now, now));
            var level := GateLevel(s, c, ip, isAuth, now);
            && Sound(after, c, now)
            && (Barred(verdict, isAuth) <==> level < 1.0)
            && (level >= 1.0 ==> GateLevel(after, c, ip, isAuth, now) == level - 1.0)
            && (level < 1.0 ==> GateLevel(after, c, ip, isAuth, now) == level)
            && ip in after && after[ip].lastSeen == seen
  {
    hide GlobalLevel, AuthLevel, Sound, ValidConfig, Level, Take, FullBucket;
    HandleByLevels(s, c, ip, isAuth, Clock(seen, now, now));
    SoundLater(s, c, seen, now);
    LevelsLater(s, c, ip, now, now);
  }

  lemma GateNotNegative(s: Table, c: Config, ip: string, isAuth: bool, now: real)
    requires ValidConfig(c) && Sound(s, c, now)
    ensures GateLevel(s, c, ip, isAuth, now) >= 0.0
  {
    hide GlobalLevel, AuthLevel, Sound;
    LevelsLater(s, c, ip, now, now);
  }

  lemma SweptIsFull(s: Table, c: Config, ip: string, isAuth: bool, t: real)
    requires ValidConfig(c) && Sound(s, c, t) && ip in s && t - s[ip].lastSeen > c.ttl
    ensures Sound(Sweep(s, c.ttl, t), c, t)
    ensures GateLevel(Sweep(s, c.ttl, t), c, ip, isAuth, t) == GateBurst(c, isAuth) as real >= 0.0
  {
    hide SoundBucket, Level;
  }

  /** If an address idle for longer than the time to live is short of tokens, sweeping at that moment shows in
      the burst that follows. */
  lemma SweepShows(s: Table, c: Config, ip: string, isAuth: bool, t: real)
    requires ValidConfig(c) && Sound(s, c, t)
    requires ip in s && t - s[ip].lastSeen > c.ttl && GateLevel(s, c, ip, isAuth, t) < GateBurst(c, isAuth) as real
    ensures var es := [Cleanup(t)] + Burst(ip, isAuth, t, GateBurst(c, isAuth));
            Verdicts(s, c, es, true) != Verdicts(s, c, es, false)
  {
    hide Handle, Level, Sound, GateLevel, AllThrough, Sweep, Burst;
    var n := GateBurst(c, isAuth);
    var burst, swept := Burst(ip, isAuth, t, n), Sweep(s, c.ttl, t);
    SweptIsFull(s, c, ip, isAuth, t);
    GateNotNegative(s, c, ip, isAuth, t);
    BurstDrains(swept, c, ip, isAuth, t, n, true);
    BurstDrains(s, c, ip, isAuth, t, n, false);
    assert ([Cleanup(t)] + burst)[1..] == burst;
    assert Verdicts(s, c, [Cleanup(t)] + burst, true) == [] + Verdicts(swept, c, burst, true)
        == Verdicts(swept, c, burst, true);
    assert Verdicts(s, c, [Cleanup(t)] + burst, false) == [] + Verdicts(s, c, burst, false)
        == Verdicts(s, c, burst, false);
  }

  /** So does it after any run of requests that leaves an address in that state. */
  lemma RunShows(c: Config, d: real, es: seq<Event>, ip: string, isAuth: bool, t: real)
    requires ValidConfig(c) && d >= 0.0 && t >= 0.0 && Ordered(es, 0.0, d)
    requires forall i :: 0 <= i < |es| ==> es[i].Request? && Ends(es[i]) <= t
    requires var s := TableAfter(map[], c, es, false);
             && Sound(s, c, t) && ip in s && t - s[ip].lastSeen > c.ttl
             && GateLevel(s, c, ip, isAuth, t) < GateBurst(c, isAuth) as real
    ensures var run := es + ([Cleanup(t)] + Burst(ip, isAuth, t, GateBurst(c, isAuth)));
            Ordered(run, 0.0, d) && Verdicts(map[], c, run, true) != Verdicts(map[], c, run, false)
  {
    hide Verdicts, TableAfter, Sound, GateLevel, Burst;
    var burst := Burst(ip, isAuth, t, GateBurst(c, isAuth));
    var tail := [Cleanup(t)] + burst;
    BurstOrdered(ip, isAuth, t, t, GateBurst(c, isAuth), d);
    assert tail[1..] == burst && Ordered(tail, t, d);
    OrderedConcat(es, tail, 0.0, d, t);
    NoSweepNoMatter(map[], c, es);
    VerdictsConcat(map[], c, es, tail, true);
    VerdictsConcat(map[], c, es, tail, false);
    var s := TableAfter(map[], c, es, false);
    SweepShows(s, c, ip, isAuth, t);
    SameStart(Verdicts(map[], c, es, false), Verdicts(s, c, tail, true), Verdicts(s, c, tail, false));
  }

  lemma SameStart(first: seq<Verdict>, a: seq<Verdict>, b: seq<Verdict>)
    requires a != b
    ensures first + a != first + b
  {
    assert (first + a)[|first|..] == a && (first + b)[|first|..] == b;
  }

  /** A moment after the time to live at which less than some amount has flowed in. */
  lemma TooEarlyToRefill(rps: int, amount: real, ttl: real) returns (t: real)
    requires rps >= 0 && ttl >= 0.0 && Inflow(rps as real, ttl) < amount
    ensures t > ttl && Inflow(rps as real, t) < amount
  {
    if rps == 0 {
      t := ttl + 1.0;
    } else {
      var slack := (amount - rps as real * ttl) / (2.0 * rps as real);
      t := ttl + slack;
      assert slack * (2.0 * rps as real) == amount - rps as real * ttl;
      assert t * rps as real == rps as real * ttl + slack * rps as real;
    }
  }

  /** Drain the gate, let a sweep pass, and ask again: the sweeping limiter has forgotten, the other has not. */
  lemma DrainedRun(c: Config, d: real, isAuth: bool) returns (es: seq<Event>)
    requires ValidConfig(c) && d >= 0.0 && Inflow(GateRps(c, isAuth) as real, c.ttl) < GateBurst(c, isAuth) as real
    ensures Ordered(es, 0.0, d) && Verdicts(map[], c, es, true) != Verdicts(map[], c, es, false)
  {
    hide Verdicts, Inflow, TableAfter, Level, SoundBucket, Ordered;
    var ip, n := "a", GateBurst(c, isAuth);
    InflowNonNegative(GateRps(c, isAuth) as real, c.ttl);
    var t := TooEarlyToRefill(GateRps(c, isAuth), n as real, c.ttl);
    var drain := Burst(ip, isAuth, 0.0, n);
    BurstOrdered(ip, isAuth, 0.0, 0.0, n, d);
    BurstDrains(map[], c, ip, isAuth, 0.0, n, false);
    var s := TableAfter(map[], c, drain, false);
    LevelsLater(s, c, ip, 0.0, t);
    SoundLater(s, c, 0.0, t);
    RunShows(c, d, drain, ip, isAuth, t);
    es := drain + ([Cleanup(t)] + Burst(ip, isAuth, t, n));
  }

  lemma {:induction false} AfterConcat(s: Table, c: Config, xs: seq<Event>, ys: seq<Event>, evicts: bool)
    ensures TableAfter(s, c, xs + ys, evicts) == TableAfter(TableAfter(s, c, xs, evicts), c, ys, evicts)
    decreases |xs|
  {
    hide Handle, Sweep;
    if xs == [] {
      assert xs + ys == ys;
    } else {
      assert (xs + ys)[0] == xs[0] && (xs + ys)[1..] == xs[1..] + ys;
      AfterConcat(Next(s, c, xs[0], evicts), c, xs[1..], ys, evicts);
    }
  }

  lemma JustOne(s: Table, c: Config, e: Event)
    ensures TableAfter(s, c, [e], false) == Next(s, c, e, false)
  {
    hide Handle;
  }

  /** A bucket drained at 0, asked at s + d by a request found at s, and still short when that
      entry can be swept at t. */
  ghost predicate Short(rps: int, burst: int, ttl: real, d: real, s: real, t: real) {
    var found := Grown(0.0, rps, burst, s + d);
    && 0.0 <= s <= s + d <= t && t - s > ttl
    && 1.0 <= found && Grown(found - 1.0, rps, burst, t - (s + d)) < burst as real
  }

  /** Drain the gate at 0, let a request found at s wait for its answer, sweep at t and ask again. */
  lemma WaitingRun(c: Config, d: real, isAuth: bool, s: real, t: real) returns (es: seq<Event>)
    requires ValidConfig(c) && Short(GateRps(c, isAuth), GateBurst(c, isAuth), c.ttl, d, s, t)
    ensures Ordered(es, 0.0, d) && Verdicts(map[], c, es, true) != Verdicts(map[], c, es, false)
  {
    hide Verdicts, TableAfter, Level, Inflow, Grown, SoundBucket, Handle, Burst, Ordered;
    var ip, n := "a", GateBurst(c, isAuth);
    var drain, slow := Burst(ip, isAuth, 0.0, n), Request(ip, isAuth, Clock(s, s + d, s + d));
    BurstDrains(map[], c, ip, isAuth, 0.0, n, false);
    var drained := TableAfter(map[], c, drain, false);
    SoundLater(drained, c, 0.0, s);
    LevelsLater(drained, c, ip, 0.0, s + d);
    GateStep(drained, c, ip, isAuth, s, s + d);
    AfterConcat(map[], c, drain, [slow], false);
    JustOne(drained, c, slow);
    var after := TableAfter(map[], c, drain + [slow], false);
    WaitingOrdered(drain, slow, ip, isAuth, n, d, s);
    LevelsLater(after, c, ip, s + d, t);
    SoundLater(after, c, s + d, t);
    RunShows(c, d, drain + [slow], ip, isAuth, t);
    es := drain + [slow] + ([Cleanup(t)] + Burst(ip, isAuth, t, n));
  }

  lemma WaitingOrdered(drain: seq<Event>, slow: Event, ip: string, isAuth: bool, n: nat, d: real, s: real)
    requires d >= 0.0 && s >= 0.0
    requires drain == Burst(ip, isAuth, 0.0, n) && slow == Request(ip, isAuth, Clock(s, s + d, s + d))
    ensures Ordered(drain + [slow], 0.0, d)
    ensures forall i :: 0 <= i < |drain + [slow]| ==>
      (drain + [slow])[i].Request? && Ends((drain + [slow])[i]) <= s + d
  {
    BurstOrdered(ip, isAuth, 0.0, 0.0, n, d);
    OrderedConcat(drain, [slow], 0.0, d, s);
  }

  lemma NoLonger(rps: int, a: real, b: real)
    requires rps >= 0 && 0.0 < Inflow(rps as real, a) && Inflow(rps as real, b) <= Inflow(rps as real, a)
    ensures b <= a
  {
    assert a * rps as real > 0.0;
    assert (b - a) * rps as real <= 0.0;
  }

  /** If requests may wait long enough for the slack to matter, some wait leaves the bucket short. */
  lemma WaitLeavesShort(rps: int, burst: int, ttl: real, d: real) returns (s: real, t: real)
    requires rps >= 0 && burst >= 0 && ttl >= 0.0 && d >= 0.0
    requires !Outlasts(rps, burst, ttl, d) && Inflow(rps as real, ttl) >= burst as real
    ensures Short(rps, burst, ttl, d, s, t)
  {
    hide Inflow;
    var r := rps as real;
    var x := Inflow(r, d);
    InflowNonNegative(r, d);
    s := 0.0;
    if x <= 1.0 {
      s := TimeFor(rps, burst, ttl, 1.0 - x);
      InflowAdds(r, s, d);
    }
    if x > burst as real && d > ttl {
      t := d;
      InflowNonNegative(r, 0.0);
    } else {
      var u := TooEarlyToRefill(rps, burst as real + Slack(burst, x), ttl);
      if x <= burst as real {
        NoLonger(rps, ttl, d);
      }
      t := s + u;
      InflowAdds(r, d, u - d);
      assert t - (s + d) == u - d && d + (u - d) == u;
    }
  }

  lemma TimeFor(rps: int, burst: int, ttl: real, amount: real) returns (s: real)
    requires burst > 0 && rps >= 0 && amount >= 0.0 && Inflow(rps as real, ttl) >= burst as real
    ensures s >= 0.0 && Inflow(rps as real, s) == amount
  {
    s := amount / rps as real;
  }

  /** If some bucket is outlasted, a run tells the two limiters apart. */
  lemma EvictionSeen(c: Config, d: real, isAuth: bool) returns (es: seq<Event>)
    requires ValidConfig(c) && d >= 0.0 && !Outlasts(GateRps(c, isAuth), GateBurst(c, isAuth), c.ttl, d)
    ensures Ordered(es, 0.0, d) && Verdicts(map[], c, es, true) != Verdicts(map[], c, es, false)
  {
    hide Verdicts, Ordered, Short, Inflow;
    if Inflow(GateRps(c, isAuth) as real, c.ttl) < GateBurst(c, isAuth) as real {
      es := DrainedRun(c, d, isAuth);
    } else {
      var s, t := WaitLeavesShort(GateRps(c, isAuth), GateBurst(c, isAuth), c.ttl, d);
      es := WaitingRun(c, d, isAuth, s, t);
    }
  }

  // ---------------------------------------------------------------- exactly

  /** Eviction changes no answer of any run whose requests take at most d. */
  ghost predicate Unobservable(c: Config, d: real) {
    forall es :: Ordered(es, 0.0, d) ==> Verdicts(map[], c, es, true) == Verdicts(map[], c, es, false)
  }

  lemma EvictionUnobservable(c: Config, d: real)
    requires ValidConfig(c) && d >= 0.0
    ensures Unobservable(c, d) <==>
      Outlasts(c.globalRps, c.globalBurst, c.ttl, d) && Outlasts(c.authRps, c.authBurst, c.ttl, d)
  {
    hide Outlasts;
    if Outlasts(c.globalRps, c.globalBurst, c.ttl, d) && Outlasts(c.authRps, c.authBurst, c.ttl, d) {
      forall es | Ordered(es, 0.0, d)
        ensures Verdicts(map[], c, es, true) == Verdicts(map[], c, es, false)
      {
        EvictionUnseen(map[], map[], c, d, es, 0.0);
      }
    } else {
      var es := EvictionSeen(c, d, Outlasts(c.globalRps, c.globalBurst, c.ttl, d));
    }
  }

  /** Ten tokens at one a second: ten seconds to live are enough for requests served at an instant, not for requests
      that may wait five seconds; eleven are. */
  lemma WaitingShows()
    ensures Unobservable(Config(1, 10, 1, 10, 10.0), 0.0) && !Unobservable(Config(1, 10, 1, 10, 10.0), 5.0)
    ensures Unobservable(Config(1, 10, 1, 10, 11.0), 5.0)
  {
    hide Unobservable;
    EvictionUnobservable(Config(1, 10, 1, 10, 10.0), 0.0);
    EvictionUnobservable(Config(1, 10, 1, 10, 10.0), 5.0);
    EvictionUnobservable(Config(1, 10, 1, 10, 11.0), 5.0);
  }
}
