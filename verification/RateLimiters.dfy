/** Per-address rate limiting with eviction of idle entries (server/pkg/middleware/ratelimit.go).
    A request reads the clock three times: when its entry is found, and once for each bucket. */
module RateLimiters {
  import opened TokenBuckets

  datatype Config = Config(globalRps: int, globalBurst: int, authRps: int, authBurst: int, ttl: real)

  ghost predicate ValidConfig(c: Config) {
    c.globalRps >= 0 && c.globalBurst >= 0 && c.authRps >= 0 && c.authBurst >= 0 && c.ttl >= 0.0
  }

  datatype Entry = Entry(global: Bucket, auth: Bucket, lastSeen: real)

  type Table = map<string, Entry>

  datatype Verdict = Passed | AuthDenied | GlobalDenied

  /** getEntry: find or create, and note the time. */
  function Seen(s: Table, c: Config, ip: string, now: real): Entry {
    if ip in s then s[ip].(lastSeen := now)
    else Entry(FullBucket(c.globalRps, c.globalBurst, now), FullBucket(c.authRps, c.authBurst, now), now)
  }

  /** The clock as a request reads it. */
  datatype Clock = Clock(seen: real, auth: real, global: real)

  ghost predicate InTurn(at: Clock) {
    at.seen <= at.auth <= at.global
  }

  /** The interceptor: the auth bucket is asked first, and only for auth methods. */
  function Serve(e: Entry, isAuth: bool, at: Clock): (Entry, Verdict) {
    var auth := if isAuth then Take(e.auth, at.auth) else (e.auth, true);
    if !auth.1 then (e.(auth := auth.0), AuthDenied)
    else
      var global := Take(e.global, at.global);
      (e.(auth := auth.0, global := global.0), if global.1 then Passed else GlobalDenied)
  }

  function Handle(s: Table, c: Config, ip: string, isAuth: bool, at: Clock): (Table, Verdict) {
    var served := Serve(Seen(s, c, ip, at.seen), isAuth, at);
    (s[ip := served.0], served.1)
  }

  /** cleanup: forget entries idle for longer than the time to live. */
  function Sweep(s: Table, ttl: real, now: real): Table {
    map ip | ip in s && !(now - s[ip].lastSeen > ttl) :: s[ip]
  }

  /** What stays is what was found within the time to live, that is not later than it. */
  lemma SweepExact(s: Table, ttl: real, now: real, ip: string)
    ensures ip in Sweep(s, ttl, now) <==> ip in s && now <= s[ip].lastSeen + ttl
    ensures ip in Sweep(s, ttl, now) ==> Sweep(s, ttl, now)[ip] == s[ip]
  {}

  // ---------------------------------------------------------------- a missing entry stands for full buckets

  function GlobalLevel(s: Table, c: Config, ip: string, now: real): real {
    if ip in s then Level(s[ip].global, now) else c.globalBurst as real
  }

  function AuthLevel(s: Table, c: Config, ip: string, now: real): real {
    if ip in s then Level(s[ip].auth, now) else c.authBurst as real
  }

  ghost predicate SoundBucket(b: Bucket, rps: int, burst: int, used: real) {
    ValidBucket(b) && b.max == burst as real && b.rate == rps as real && b.last <= used
  }

  /** Buckets were last used before now. */
  ghost predicate Sound(s: Table, c: Config, now: real) {
    forall ip :: ip in s ==>
      && SoundBucket(s[ip].global, c.globalRps, c.globalBurst, now)
      && SoundBucket(s[ip].auth, c.authRps, c.authBurst, now)
  }

  /** Two tables that agree on every address's levels. */
  ghost predicate Alike(a: Table, b: Table, c: Config, now: real) {
    && Sound(a, c, now) && Sound(b, c, now)
    && forall ip :: GlobalLevel(a, c, ip, now) == GlobalLevel(b, c, ip, now)
                    && AuthLevel(a, c, ip, now) == AuthLevel(b, c, ip, now)
  }

  function Grown(level: real, rps: int, burst: int, elapsed: real): real {
    var grown := level + Inflow(rps as real, elapsed);
    if grown > burst as real then burst as real else grown
  }

  /** A later level depends on the bucket only through its level now. */
  lemma LevelLater(b: Bucket, rps: int, burst: int, now: real, later: real)
    requires SoundBucket(b, rps, burst, now) && now <= later && rps >= 0
    ensures Level(b, later) == Grown(Level(b, now), rps, burst, later - now)
    ensures 0.0 <= Level(b, now) <= burst as real
  {
    InflowAdds(b.rate, now - b.last, later - now);
    InflowNonNegative(b.rate, later - now);
    InflowNonNegative(b.rate, now - b.last);
    hide Inflow;
  }

  lemma LevelsLater(s: Table, c: Config, ip: string, now: real, later: real)
    requires ValidConfig(c) && Sound(s, c, now) && now <= later
    ensures GlobalLevel(s, c, ip, later) == Grown(GlobalLevel(s, c, ip, now), c.globalRps, c.globalBurst, later - now)
    ensures AuthLevel(s, c, ip, later) == Grown(AuthLevel(s, c, ip, now), c.authRps, c.authBurst, later - now)
    ensures 0.0 <= GlobalLevel(s, c, ip, now) <= c.globalBurst as real
    ensures 0.0 <= AuthLevel(s, c, ip, now) <= c.authBurst as real
  {
    hide Level, Inflow;
    if ip in s {
      LevelLater(s[ip].global, c.globalRps, c.globalBurst, now, later);
      LevelLater(s[ip].auth, c.authRps, c.authBurst, now, later);
    } else {
      InflowNonNegative(c.globalRps as real, later - now);
      InflowNonNegative(c.authRps as real, later - now);
    }
  }

  lemma SoundLater(s: Table, c: Config, now: real, later: real)
    requires Sound(s, c, now) && now <= later
    ensures Sound(s, c, later)
  {}

  lemma AlikeLater(a: Table, b: Table, c: Config, now: real, later: real)
    requires ValidConfig(c) && Alike(a, b, c, now) && now <= later
    ensures Alike(a, b, c, later)
  {
    hide GlobalLevel, AuthLevel, Grown, Sound, ValidConfig;
    SoundLater(a, c, now, later);
    SoundLater(b, c, now, later);
    forall ip
      ensures GlobalLevel(a, c, ip, later) == GlobalLevel(b, c, ip, later)
      ensures AuthLevel(a, c, ip, later) == AuthLevel(b, c, ip, later)
    {
      LevelsLater(a, c, ip, now, later);
      LevelsLater(b, c, ip, now, later);
      assert GlobalLevel(a, c, ip, now) == GlobalLevel(b, c, ip, now);
    }
  }

  /** Taking from a bucket depends on it only through its level, and leaves a level that does too. */
  lemma TakeByLevel(b: Bucket, rps: int, burst: int, now: real)
    requires SoundBucket(b, rps, burst, now)
    ensures Take(b, now).1 <==> Level(b, now) >= 1.0
    ensures Level(Take(b, now).0, now) == if Level(b, now) >= 1.0 then Level(b, now) - 1.0 else Level(b, now)
    ensures SoundBucket(Take(b, now).0, rps, burst, now) && Take(b, now).0.last == now
  {
    InflowNonNegative(b.rate, now - b.last);
    hide Inflow;
  }

  lemma FreshBucket(rps: int, burst: int, now: real, later: real)
    requires rps >= 0 && burst >= 0 && now <= later
    ensures Level(FullBucket(rps, burst, now), later) == burst as real
    ensures SoundBucket(FullBucket(rps, burst, now), rps, burst, now) && FullBucket(rps, burst, now).last == now
  {
    InflowNonNegative(rps as real, later - now);
    hide Inflow;
  }

  /** An entry just found: its buckets hold the address's levels. */
  lemma FoundEntry(s: Table, c: Config, ip: string, now: real, later: real)
    requires ValidConfig(c) && Sound(s, c, now) && now <= later
    ensures var e := Seen(s, c, ip, now);
            && Level(e.global, later) == GlobalLevel(s, c, ip, later)
            && Level(e.auth, later) == AuthLevel(s, c, ip, later)
            && SoundBucket(e.global, c.globalRps, c.globalBurst, now)
            && SoundBucket(e.auth, c.authRps, c.authBurst, now)
            && e.lastSeen == now
  {
    hide Level, SoundBucket, FullBucket;
    FreshBucket(c.globalRps, c.globalBurst, now, later);
    FreshBucket(c.authRps, c.authBurst, now, later);
  }

  lemma UsedLater(b: Bucket, rps: int, burst: int, used: real, later: real)
    requires SoundBucket(b, rps, burst, used) && used <= later
    ensures SoundBucket(b, rps, burst, later)
  {}

  /** The entry served: verdict and levels, from the levels found. */
  lemma ServedEntry(e: Entry, c: Config, isAuth: bool, at: Clock)
    requires ValidConfig(c) && InTurn(at) && e.lastSeen == at.seen
    requires SoundBucket(e.global, c.globalRps, c.globalBurst, at.seen)
    requires SoundBucket(e.auth, c.authRps, c.authBurst, at.seen)
    ensures var (after, verdict) := Serve(e, isAuth, at);
            var a, g := Level(e.auth, at.auth), Level(e.global, at.global);
            && (verdict == AuthDenied <==> isAuth && a < 1.0)
            && (verdict == GlobalDenied <==> !(isAuth && a < 1.0) && g < 1.0)
            && Level(after.auth, at.global)
               == Grown(if isAuth && a >= 1.0 then a - 1.0 else a, c.authRps, c.authBurst, at.global - at.auth)
            && Level(after.global, at.global) == (if verdict == Passed then g - 1.0 else g)
            && SoundBucket(after.global, c.globalRps, c.globalBurst, at.global)
            && SoundBucket(after.auth, c.authRps, c.authBurst, at.global)
            && after.lastSeen == at.seen
  {
    hide Take, Level, SoundBucket, Grown;
    UsedLater(e.auth, c.authRps, c.authBurst, at.seen, at.auth);
    UsedLater(e.global, c.globalRps, c.globalBurst, at.seen, at.global);
    TakeByLevel(e.auth, c.authRps, c.authBurst, at.auth);
    TakeByLevel(e.global, c.globalRps, c.globalBurst, at.global);
    var auth := Serve(e, isAuth, at).0.auth;
    LevelLater(auth, c.authRps, c.authBurst, at.auth, at.global);
    UsedLater(auth, c.authRps, c.authBurst, at.auth, at.global);
  }

  /** The verdict and the levels afterwards, from the levels before. */
  lemma HandleByLevels(s: Table, c: Config, ip: string, isAuth: bool, at: Clock)
    requires ValidConfig(c) && Sound(s, c, at.seen) && InTurn(at)
    ensures var (after, verdict) := Handle(s, c, ip, isAuth, at);
            var a, g := AuthLevel(s, c, ip, at.auth), GlobalLevel(s, c, ip, at.global);
            && Sound(after, c, at.global)
            && (verdict == AuthDenied <==> isAuth && a < 1.0)
            && (verdict == GlobalDenied <==> !(isAuth && a < 1.0) && g < 1.0)
            && AuthLevel(after, c, ip, at.global)
               == Grown(if isAuth && a >= 1.0 then a - 1.0 else a, c.authRps, c.authBurst, at.global - at.auth)
            && GlobalLevel(after, c, ip, at.global) == (if verdict == Passed then g - 1.0 else g)
            && forall other :: other != ip ==>
                 GlobalLevel(after, c, other, at.global) == GlobalLevel(s, c, other, at.global)
                 && AuthLevel(after, c, other, at.global) == AuthLevel(s, c, other, at.global)
  {
    SoundLater(s, c, at.seen, at.global);
    hide Level, Serve, SoundBucket, FullBucket, Seen, Grown, ValidConfig;
    FoundEntry(s, c, ip, at.seen, at.auth);
    FoundEntry(s, c, ip, at.seen, at.global);
    ServedEntry(Seen(s, c, ip, at.seen), c, isAuth, at);
  }

  lemma AlikeHandled(a: Table, b: Table, c: Config, ip: string, isAuth: bool, at: Clock)
    requires ValidConfig(c) && Alike(a, b, c, at.seen) && InTurn(at)
    ensures Handle(a, c, ip, isAuth, at).1 == Handle(b, c, ip, isAuth, at).1
    ensures Alike(Handle(a, c, ip, isAuth, at).0, Handle(b, c, ip, isAuth, at).0, c, at.global)
  {
    hide Handle, GlobalLevel, AuthLevel, Sound, Grown, ValidConfig;
    AlikeLater(a, b, c, at.seen, at.auth);
    AlikeLater(a, b, c, at.seen, at.global);
    assert AuthLevel(a, c, ip, at.auth) == AuthLevel(b, c, ip, at.auth);
    assert GlobalLevel(a, c, ip, at.global) == GlobalLevel(b, c, ip, at.global);
    HandleByLevels(a, c, ip, isAuth, at);
    HandleByLevels(b, c, ip, isAuth, at);
    var after, later := Handle(a, c, ip, isAuth, at).0, Handle(b, c, ip, isAuth, at).0;
    forall other
      ensures GlobalLevel(after, c, other, at.global) == GlobalLevel(later, c, other, at.global)
      ensures AuthLevel(after, c, other, at.global) == AuthLevel(later, c, other, at.global)
    {
      if other != ip {
        assert GlobalLevel(a, c, other, at.global) == GlobalLevel(b, c, other, at.global);
      }
    }
  }

  // ---------------------------------------------------------------- the limiter

  /** An entry of the table. Its two buckets are held by value; TokenBucket.Allow is Take in place. */
  class BucketEntry {
    var global: Bucket
    var auth: Bucket
    var lastSeen: real
    ghost const owner: string  // the address it counts for

    constructor (c: Config, now: real, ghost owner: string)
      ensures this.owner == owner
      ensures Value()
              == Entry(FullBucket(c.globalRps, c.globalBurst, now), FullBucket(c.authRps, c.authBurst, now), now)
    {
      global := FullBucket(c.globalRps, c.globalBurst, now);
      auth := FullBucket(c.authRps, c.authBurst, now);
      lastSeen := now;
      this.owner := owner;
    }

    function Value(): Entry
      reads this
    {
      Entry(global, auth, lastSeen)
    }

    /** The interceptor's two checks. */
    method Check(isAuth: bool, at: Clock) returns (verdict: Verdict)
      modifies this
      ensures (Value(), verdict) == Serve(old(Value()), isAuth, at)
    {
      hide Take;
      if isAuth {
        var taken := Take(auth, at.auth);
        auth := taken.0;
        if !taken.1 {
          return AuthDenied;
        }
      }
      var taken := Take(global, at.global);
      global := taken.0;
      return if taken.1 then Passed else GlobalDenied;
    }
  }

  class RateLimiter {
    var buckets: map<string, BucketEntry>
    const config: Config
    ghost var Contents: Table
    ghost var Repr: set<object>

    /** Contents is what the entries hold, and each entry belongs to its own address, so no two share one. */
    ghost predicate Valid()
      reads this, Repr
    {
      && this !in Repr
      && Contents.Keys == buckets.Keys
      && (forall ip :: ip in buckets ==>
            buckets[ip] in Repr && buckets[ip].owner == ip && buckets[ip].Value() == Contents[ip])
    }

    constructor (config: Config)
      ensures Valid() && Contents == map[] && this.config == config
    {
      this.config := config;
      buckets, Contents, Repr := map[], map[], {};
    }

    method GetEntry(ip: string, now: real) returns (entry: BucketEntry)
      requires Valid()
      modifies this, Repr
      ensures Valid() && fresh(Repr - old(Repr))
      ensures Contents == old(Contents)[ip := Seen(old(Contents), config, ip, now)]
      ensures ip in buckets && entry == buckets[ip] && (entry in old(Repr) || fresh(entry))
    {
      hide FullBucket;
      if ip in buckets {
        entry := buckets[ip];
        entry.lastSeen := now;
      } else {
        entry := new BucketEntry(config, now, ip);
        buckets := buckets[ip := entry];
        Repr := Repr + {entry};
      }
      Contents := Contents[ip := entry.Value()];
    }

    /** The checks on the entry found: its content changes, and no other entry's. */
    method CheckEntry(entry: BucketEntry, ip: string, isAuth: bool, at: Clock) returns (verdict: Verdict)
      requires Valid() && ip in buckets && entry == buckets[ip]
      modifies this`Contents, entry
      ensures Valid()
      ensures (Contents[ip], verdict) == Serve(old(Contents)[ip], isAuth, at)
      ensures Contents == old(Contents)[ip := Contents[ip]]
    {
      hide Serve;
      verdict := entry.Check(isAuth, at);
      Contents := Contents[ip := entry.Value()];
    }

    method Intercept(ip: string, isAuth: bool, at: Clock) returns (verdict: Verdict)
      requires Valid()
      modifies this, Repr
      ensures Valid() && fresh(Repr - old(Repr))
      ensures (Contents, verdict) == Handle(old(Contents), config, ip, isAuth, at)
    {
      hide Valid, Serve, Seen;
      var entry := GetEntry(ip, at.seen);
      verdict := CheckEntry(entry, ip, isAuth, at);
      assert Contents == old(Contents)[ip := Contents[ip]];
    }

    lemma SeenAt(ip: string)
      requires Valid() && ip in buckets
      ensures buckets.Keys == Contents.Keys && buckets[ip].lastSeen == Contents[ip].lastSeen
    {}

    method Forget(ip: string)
      requires Valid()
      modifies this`buckets, this`Contents
      ensures Valid()
      ensures buckets == old(buckets) - {ip} && Contents == old(Contents) - {ip}
    {
      buckets := buckets - {ip};
      Contents := Contents - {ip};
    }

    /** Walks a snapshot of the addresses, deleting as it goes. */
    method Cleanup(now: real)
      requires Valid()
      modifies this`buckets, this`Contents
      ensures Valid()
      ensures Contents == Sweep(old(Contents), config.ttl, now)
    {
      ghost var start := Contents;
      var left := buckets.Keys;
      assert buckets.Keys == Contents.Keys;
      hide Valid;
      while left != {}
        invariant Valid() && left <= buckets.Keys == Contents.Keys <= start.Keys
        invariant forall ip :: ip in Contents ==> Contents[ip] == start[ip]
        invariant forall ip :: ip in start && ip !in left ==>
                    (ip in Contents <==> !(now - start[ip].lastSeen > config.ttl))
        decreases left
      {
        var ip :| ip in left;
        SeenAt(ip);
        left := left - {ip};
        if now - buckets[ip].lastSeen > config.ttl {
          Forget(ip);
        }
      }
    }
  }
}
