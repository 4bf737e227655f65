/**
 The per-IP token bucket of the identity server, with its periodic eviction of
 idle buckets.  Time is in seconds, and arithmetic is over the reals.
 */
module RateLimiter {

  datatype Bucket = Bucket(tokens: real, lastSeen: real)

  type Buckets = map<string, Bucket>

  const IDLE_SECONDS := 600.0

  datatype Config = Config(rate: real, capacity: int)

  // What a bucket holds at a given time.
  function Level(c: Config, b: Bucket, now: real): real {
    var refilled := b.tokens + (now - b.lastSeen) * c.rate;
    if refilled > c.capacity as real then c.capacity as real else refilled
  }

  // The bucket an address is served from; a new address starts full.
  function BucketOf(c: Config, m: Buckets, ip: string, created: real): Bucket {
    if ip in m then m[ip] else Bucket(c.capacity as real, created)
  }

  function Served(c: Config, m: Buckets, ip: string, created: real, now: real): Buckets {
    var level := Level(c, BucketOf(c, m, ip, created), now);
    m[ip := Bucket(if level < 1.0 then level else level - 1.0, now)]
  }

  predicate Admits(c: Config, m: Buckets, ip: string, created: real, now: real) {
    Level(c, BucketOf(c, m, ip, created), now) >= 1.0
  }

  function Evicted(m: Buckets, now: real): Buckets {
    map ip | ip in m && !(m[ip].lastSeen < now - IDLE_SECONDS) :: m[ip]
  }

  class IpRateLimiter {
    var buckets: Buckets
    const config: Config

    constructor (rate: real, capacity: int)
      ensures buckets == map[] && config == Config(rate, capacity)
    {
      buckets := map[];
      config := Config(rate, capacity);
    }

    /** Serving a request.  `created` and `now` are the two clock readings the code takes. */
    method Allow(ip: string, created: real, now: real) returns (ok: bool)
      modifies this
      ensures ok == Admits(config, old(buckets), ip, created, now)
      ensures buckets == Served(config, old(buckets), ip, created, now)
    {
      if ip !in buckets {
        buckets := buckets[ip := Bucket(config.capacity as real, created)];
      }
      var b := buckets[ip];
      var elapsed := now - b.lastSeen;
      var tokens := b.tokens + elapsed * config.rate;
      if tokens > config.capacity as real {
        tokens := config.capacity as real;
      }
      assert tokens == Level(config, BucketOf(config, old(buckets), ip, created), now);
      ok := !(tokens < 1.0);
      if ok {
        tokens := tokens - 1.0;
      }
      buckets := buckets[ip := Bucket(tokens, now)];
      assert buckets == old(buckets)[ip := Bucket(tokens, now)];
    }

    /** Dropping the buckets idle for more than ten minutes. */
    method Evict(now: real)
      modifies this
      ensures buckets == Evicted(old(buckets), now)
    {
      var cutoff := now - IDLE_SECONDS;
      var rest := buckets.Keys;
      while rest != {}
        invariant rest <= buckets.Keys <= old(buckets).Keys
        invariant forall ip :: ip in buckets ==> buckets[ip] == old(buckets)[ip]
        invariant forall ip :: ip in old(buckets) && ip !in rest ==>
                    (ip in buckets <==> !(old(buckets)[ip].lastSeen < cutoff))
        decreases |rest|
      {
        var ip :| ip in rest;
        if buckets[ip].lastSeen < cutoff {
          buckets := buckets - {ip};
        }
        rest := rest - {ip};
      }
    }
  }

  // ----- runs -----

  datatype Op = Allow(ip: string, created: real, now: real) | Evict(now: real)

  datatype Answer = Answer(ip: string, at: real, ok: bool)

  function Max(x: real, y: real): real { if x < y then y else x }

  // The latest clock reading once the operation is done.
  function After(op: Op, from: real): real { Max(from, op.now) }

  // The clock never goes back.  Requests read it under the lock, so every reading is at
  // least the one before; an eviction reads it first and may be overtaken by requests.
  ghost predicate Clocked(ops: seq<Op>, from: real) {
    ops != [] ==>
      && (ops[0].Allow? ==> from <= ops[0].created <= ops[0].now)
      && Clocked(ops[1..], After(ops[0], from))
  }

  // The answers given from the state, with or without performing evictions.
  function Answers(c: Config, m: Buckets, ops: seq<Op>, evicting: bool): seq<Answer>
    decreases |ops|
  {
    if ops == [] then []
    else match ops[0]
      case Allow(ip, created, now) =>
        [Answer(ip, now, Admits(c, m, ip, created, now))]
        + Answers(c, Served(c, m, ip, created, now), ops[1..], evicting)
      case Evict(now) =>
        Answers(c, if evicting then Evicted(m, now) else m, ops[1..], evicting)
  }

  // How often the address was admitted within the window.
  function Admitted(answers: seq<Answer>, ip: string, start: real, end: real): nat {
    if answers == [] then 0
    else (if answers[0].ip == ip && answers[0].ok && start <= answers[0].at <= end then 1 else 0)
         + Admitted(answers[1..], ip, start, end)
  }

  // ----- levels over time -----

  lemma Distribute(r: real, x: real, y: real, z: real)
    ensures (z - y) * r + (y - x) * r == (z - x) * r
  {}

  lemma Accrual(r: real, x: real, y: real)
    requires r >= 0.0 && x <= y
    ensures (y - x) * r >= 0.0
  {}

  // Between two times the level grows, by no more than the rate allows.
  lemma LevelGrows(c: Config, b: Bucket, t: real, u: real)
    requires c.rate >= 0.0 && t <= u
    ensures Level(c, b, t) <= Level(c, b, u) <= Level(c, b, t) + (u - t) * c.rate
    ensures Level(c, b, u) == Level(c, Bucket(Level(c, b, t), t), u)
  {
    Distribute(c.rate, b.lastSeen, t, u);
    Accrual(c.rate, t, u);
  }

  ghost predicate Sane(c: Config, m: Buckets, now: real) {
    forall ip :: ip in m ==> m[ip].tokens >= 0.0 && m[ip].lastSeen <= now
  }

  lemma ServedSane(c: Config, m: Buckets, ip: string, created: real, now: real, from: real)
    requires c.rate >= 0.0 && c.capacity >= 0 && Sane(c, m, from) && from <= created <= now
    ensures Sane(c, Served(c, m, ip, created, now), now)
    ensures Level(c, BucketOf(c, m, ip, created), now) >= 0.0
  {
    hide Level;
    var b := BucketOf(c, m, ip, created);
    assert c.capacity as real >= 0.0;
    LevelNonNegative(c, b, now);
  }

  lemma LevelNonNegative(c: Config, b: Bucket, now: real)
    requires c.rate >= 0.0 && c.capacity >= 0 && b.tokens >= 0.0 && b.lastSeen <= now
    ensures 0.0 <= Level(c, b, now) <= c.capacity as real
  {
    Accrual(c.rate, b.lastSeen, now);
    assert b.tokens + (now - b.lastSeen) * c.rate >= 0.0;
    assert c.capacity as real >= 0.0;
  }

  // The tokens an address can draw on at a given time.
  function Available(c: Config, m: Buckets, ip: string, now: real): real {
    if ip in m then Level(c, m[ip], now) else c.capacity as real
  }

  lemma AvailableGrows(c: Config, m: Buckets, ip: string, t: real, u: real)
    requires c.rate >= 0.0 && t <= u
    ensures Available(c, m, ip, t) <= Available(c, m, ip, u) <= Available(c, m, ip, t) + (u - t) * c.rate
  {
    Accrual(c.rate, t, u);
    if ip in m {
      LevelGrows(c, m[ip], t, u);
    }
  }

  lemma AvailableNonNegative(c: Config, m: Buckets, ip: string, from: real, now: real)
    requires c.rate >= 0.0 && c.capacity >= 0 && Sane(c, m, from) && from <= now
    ensures 0.0 <= Available(c, m, ip, now) <= c.capacity as real
  {
    hide Level;
    assert c.capacity as real >= 0.0;
    if ip in m {
      LevelNonNegative(c, m[ip], now);
    }
  }

  // What may still be admitted in the window: what is available when it is entered
  // plus what accrues until it ends.
  function Allowance(c: Config, m: Buckets, ip: string, from: real, start: real, end: real): real {
    var u := Max(start, from);
    Available(c, m, ip, u) + (end - u) * c.rate
  }

  // Waiting does not raise the allowance.
  lemma AllowanceWaiting(c: Config, m: Buckets, ip: string, t: real, u: real, start: real, end: real)
    requires c.rate >= 0.0 && t <= u
    ensures Allowance(c, m, ip, u, start, end) <= Allowance(c, m, ip, t, start, end)
  {
    var x, y := Max(start, t), Max(start, u);
    AvailableGrows(c, m, ip, x, y);
    Distribute(c.rate, x, y, end);
  }

  // Being served lowers the allowance by what was drawn within the window.
  lemma AllowanceServed(c: Config, m: Buckets, ip: string, created: real, now: real, from: real, start: real, end: real)
    requires c.rate >= 0.0 && c.capacity >= 0 && Sane(c, m, from) && from <= created <= now
    ensures Allowance(c, Served(c, m, ip, created, now), ip, now, start, end)
            + (if Admits(c, m, ip, created, now) && start <= now then 1.0 else 0.0)
         <= Allowance(c, m, ip, now, start, end)
  {
    hide Level;
    var b := BucketOf(c, m, ip, created);
    var level := Level(c, b, now);
    FreshIsFull(c, created, now);
    assert level == Available(c, m, ip, now);
    var m' := Served(c, m, ip, created, now);
    var u := Max(start, now);
    if Admits(c, m, ip, created, now) {
      LevelShift(c, level, now, u);
    }
    if ip in m {
      LevelGrows(c, b, now, u);
    } else {
      FreshIsFull(c, now, u);
      FreshIsFull(c, now, now);
    }
    assert level <= c.capacity as real by { LevelCapped(c, b, now); }
    ServedLevel(c, level, now, level - 1.0);
    ServedLevel(c, level, now, level);
  }

  lemma FreshIsFull(c: Config, created: real, now: real)
    requires c.rate >= 0.0 && created <= now
    ensures Level(c, Bucket(c.capacity as real, created), now) == c.capacity as real
  {
    Accrual(c.rate, created, now);
  }

  lemma LevelCapped(c: Config, b: Bucket, now: real)
    ensures Level(c, b, now) <= c.capacity as real
  {}

  // A lower bucket stays lower.
  lemma LevelShift(c: Config, level: real, now: real, u: real)
    requires now <= u
    ensures Level(c, Bucket(level - 1.0, now), u) <= Level(c, Bucket(level, now), u)
  {}

  lemma ServedLevel(c: Config, level: real, now: real, tokens: real)
    requires tokens <= c.capacity as real
    ensures Level(c, Bucket(tokens, now), now) == tokens
  {
    assert (now - now) * c.rate == 0.0;
  }

  // ----- the window bound -----

  lemma {:induction false} NothingAfterWindow(c: Config, m: Buckets, ops: seq<Op>, ip: string, from: real, start: real,
                                              end: real)
    requires Clocked(ops, from) && from > end
    ensures Admitted(Answers(c, m, ops, false), ip, start, end) == 0
    decreases |ops|
  {
    hide Admits, Served;
    if ops != [] {
      match ops[0]
      case Allow(i, created, now) =>
        NothingAfterWindow(c, Served(c, m, i, created, now), ops[1..], ip, now, start, end);
      case Evict(now) =>
        NothingAfterWindow(c, m, ops[1..], ip, Max(from, now), start, end);
    }
  }

  // Without evictions, admissions in the window stay within the allowance.
  lemma {:induction false} WithinAllowance(c: Config, m: Buckets, ops: seq<Op>, ip: string, from: real, start: real,
                                           end: real)
    requires c.rate >= 0.0 && c.capacity >= 0 && Sane(c, m, from) && Clocked(ops, from)
    requires start <= end && from <= end
    ensures Admitted(Answers(c, m, ops, false), ip, start, end) as real <= Allowance(c, m, ip, from, start, end)
    decreases |ops|
  {
    hide Admits, Served, Allowance, Available, Sane;
    AllowanceNonNegative(c, m, ip, from, start, end);
    if ops != [] {
      match ops[0]
      case Allow(i, created, now) =>
        var m' := Served(c, m, i, created, now);
        if now > end {
          NothingAfterWindow(c, m', ops[1..], ip, now, start, end);
        } else {
          ServedSane(c, m, i, created, now, from);
          WithinAllowance(c, m', ops[1..], ip, now, start, end);
          AllowanceWaiting(c, m, ip, from, now, start, end);
          if i == ip {
            AllowanceServed(c, m, ip, created, now, from, start, end);
          } else {
            OthersUntouched(c, m, i, created, now, ip, start, end);
          }
        }
      case Evict(now) =>
        var t := Max(from, now);
        if t > end {
          NothingAfterWindow(c, m, ops[1..], ip, t, start, end);
        } else {
          SaneLater(c, m, from, t);
          WithinAllowance(c, m, ops[1..], ip, t, start, end);
          AllowanceWaiting(c, m, ip, from, t, start, end);
        }
    }
  }

  lemma AllowanceNonNegative(c: Config, m: Buckets, ip: string, from: real, start: real, end: real)
    requires c.rate >= 0.0 && c.capacity >= 0 && Sane(c, m, from) && start <= end && from <= end
    ensures Allowance(c, m, ip, from, start, end) >= 0.0
  {
    hide Available, Sane;
    var u := Max(start, from);
    AvailableNonNegative(c, m, ip, from, u);
    SumNonNegative(Available(c, m, ip, u), c.rate, u, end);
  }

  lemma SumNonNegative(a: real, r: real, x: real, y: real)
    requires a >= 0.0 && r >= 0.0 && x <= y
    ensures a + (y - x) * r >= 0.0
  {
    Accrual(r, x, y);
  }

  lemma SaneLater(c: Config, m: Buckets, from: real, now: real)
    requires Sane(c, m, from) && from <= now
    ensures Sane(c, m, now)
  {}

  lemma OthersUntouched(c: Config, m: Buckets, i: string, created: real, now: real, ip: string, start: real, end: real)
    requires i != ip
    ensures Allowance(c, Served(c, m, i, created, now), ip, now, start, end) == Allowance(c, m, ip, now, start, end)
  {
    hide Level;
  }

  /** Without evictions every window admits at most capacity + rate * length. */
  lemma WindowBoundWithoutEviction(c: Config, ops: seq<Op>, ip: string, from: real, start: real, end: real)
    requires c.rate >= 0.0 && c.capacity >= 0 && Clocked(ops, from) && start <= end
    ensures Admitted(Answers(c, map[], ops, false), ip, start, end) as real
         <= c.capacity as real + (end - start) * c.rate
  {
    hide Answers, Allowance;
    AllowanceAtFirst(c, ip, from, start, end);
    if from > end {
      NothingAfterWindow(c, map[], ops, ip, from, start, end);
    } else {
      WithinAllowance(c, map[], ops, ip, from, start, end);
    }
  }

  lemma AllowanceAtFirst(c: Config, ip: string, from: real, start: real, end: real)
    requires c.rate >= 0.0 && c.capacity >= 0 && start <= end
    ensures 0.0 <= c.capacity as real + (end - start) * c.rate
    ensures Allowance(c, map[], ip, from, start, end) <= c.capacity as real + (end - start) * c.rate
  {
    var u := Max(start, from);
    Accrual(c.rate, start, end);
    Distribute(c.rate, start, u, end);
    Accrual(c.rate, start, u);
    assert Allowance(c, map[], ip, from, start, end) == c.capacity as real + (end - u) * c.rate;
  }

  // ----- eviction -----

  // The evicting state agrees with the other one, up to buckets that are full anyway.
  ghost predicate Agree(c: Config, evicting: Buckets, keeping: Buckets, now: real) {
    && (forall ip :: ip in evicting ==> ip in keeping && evicting[ip] == keeping[ip])
    && (forall ip :: ip in keeping && ip !in evicting ==> Level(c, keeping[ip], now) == c.capacity as real)
  }

  lemma AgreeLater(c: Config, e: Buckets, k: Buckets, t: real, u: real)
    requires c.rate >= 0.0 && Agree(c, e, k, t) && t <= u
    ensures Agree(c, e, k, u)
  {
    hide Level;
    forall ip | ip in k && ip !in e ensures Level(c, k[ip], u) == c.capacity as real {
      LevelGrows(c, k[ip], t, u);
      LevelCapped(c, k[ip], u);
    }
  }

  lemma AgreeServed(c: Config, e: Buckets, k: Buckets, from: real, ip: string, created: real, now: real)
    requires c.rate >= 0.0 && Agree(c, e, k, from) && from <= created <= now
    ensures Admits(c, e, ip, created, now) == Admits(c, k, ip, created, now)
    ensures Agree(c, Served(c, e, ip, created, now), Served(c, k, ip, created, now), now)
  {
    hide Level;
    AgreeLater(c, e, k, from, now);
    FreshIsFull(c, created, now);
    assert Level(c, BucketOf(c, e, ip, created), now) == Level(c, BucketOf(c, k, ip, created), now);
  }

  // The eviction may have read the clock before or after the time the states agree at.
  lemma AgreeEvicted(c: Config, e: Buckets, k: Buckets, from: real, now: real)
    requires c.rate >= 0.0 && c.capacity >= 0 && IDLE_SECONDS * c.rate >= c.capacity as real
    requires Agree(c, e, k, from) && Sane(c, k, from)
    ensures Agree(c, Evicted(e, now), k, Max(from, now))
  {
    hide Level;
    var t := Max(from, now);
    AgreeLater(c, e, k, from, t);
    forall ip | ip in k && ip !in Evicted(e, now) ensures Level(c, k[ip], t) == c.capacity as real {
      if ip in e {
        IdleIsFull(c, k[ip], t);
      }
    }
  }

  lemma IdleIsFull(c: Config, b: Bucket, now: real)
    requires c.rate >= 0.0 && IDLE_SECONDS * c.rate >= c.capacity as real
    requires b.tokens >= 0.0 && b.lastSeen < now - IDLE_SECONDS
    ensures Level(c, b, now) == c.capacity as real
  {
    hide Level;
    IdleAccrues(c.rate, b.tokens, now - b.lastSeen, IDLE_SECONDS, c.capacity as real);
    LevelFull(c, b, now);
  }

  // What accrues in at least the idle time fills a bucket that the idle time fills.
  lemma IdleAccrues(r: real, tokens: real, x: real, idle: real, cap: real)
    requires r >= 0.0 && tokens >= 0.0 && x >= idle && idle * r >= cap
    ensures tokens + x * r >= cap
  {
    Accrual(r, idle, x);
    assert (x - idle) * r == x * r - idle * r;
  }

  lemma LevelFull(c: Config, b: Bucket, now: real)
    requires b.tokens + (now - b.lastSeen) * c.rate >= c.capacity as real
    ensures Level(c, b, now) == c.capacity as real
  {}

  lemma {:induction false} SameAnswers(c: Config, e: Buckets, k: Buckets, ops: seq<Op>, from: real)
    requires c.rate >= 0.0 && c.capacity >= 0 && IDLE_SECONDS * c.rate >= c.capacity as real
    requires Agree(c, e, k, from) && Sane(c, k, from) && Clocked(ops, from)
    ensures Answers(c, e, ops, true) == Answers(c, k, ops, false)
    decreases |ops|
  {
    hide Admits, Served, Agree, Sane, Evicted;
    if ops != [] {
      match ops[0]
      case Allow(ip, created, now) =>
        AgreeServed(c, e, k, from, ip, created, now);
        ServedSane(c, k, ip, created, now, from);
        SameAnswers(c, Served(c, e, ip, created, now), Served(c, k, ip, created, now), ops[1..], now);
      case Evict(now) =>
        AgreeEvicted(c, e, k, from, now);
        SaneLater(c, k, from, Max(from, now));
        SameAnswers(c, Evicted(e, now), k, ops[1..], Max(from, now));
    }
  }

  // With less than one token of capacity nobody is ever admitted.
  lemma {:induction false} AlwaysRefuses(c: Config, e: Buckets, k: Buckets, ops: seq<Op>)
    requires c.capacity < 1
    ensures Answers(c, e, ops, true) == Answers(c, k, ops, false)
    decreases |ops|
  {
    hide Level, Evicted;
    assert c.capacity as real < 1.0;
    if ops != [] {
      match ops[0]
      case Allow(ip, created, now) =>
        LevelCapped(c, BucketOf(c, e, ip, created), now);
        LevelCapped(c, BucketOf(c, k, ip, created), now);
        AlwaysRefuses(c, Served(c, e, ip, created, now), Served(c, k, ip, created, now), ops[1..]);
      case Evict(now) =>
        AlwaysRefuses(c, Evicted(e, now), k, ops[1..]);
    }
  }

  // n requests at one instant, then the rest.
  function Burst(ip: string, t: real, n: nat, rest: seq<Op>): seq<Op> {
    if n == 0 then rest else [Allow(ip, t, t)] + Burst(ip, t, n - 1, rest)
  }

  lemma {:induction false} BurstClocked(ip: string, t: real, n: nat, rest: seq<Op>, from: real)
    requires from <= t && Clocked(rest, t) && n > 0
    ensures Clocked(Burst(ip, t, n, rest), from)
    decreases n
  {
    assert Burst(ip, t, n, rest)[1..] == Burst(ip, t, n - 1, rest);
    if n > 1 {
      BurstClocked(ip, t, n - 1, rest, t);
    }
  }

  // A bucket holding at least n tokens serves a burst of n.
  lemma {:induction false} BurstServed(c: Config, m: Buckets, ip: string, t: real, n: nat, rest: seq<Op>, level: int,
                                       start: real, end: real)
    requires n <= level <= c.capacity && start <= t <= end
    requires Level(c, BucketOf(c, m, ip, t), t) == level as real
    ensures exists m' :: (n > 0 ==> ip in m' && m'[ip] == Bucket((level - n) as real, t))
              && (n == 0 ==> m' == m)
              && Admitted(Answers(c, m, Burst(ip, t, n, rest), true), ip, start, end)
                 == n + Admitted(Answers(c, m', rest, true), ip, start, end)
    decreases n
  {
    hide Level;
    if n > 0 {
      var m1 := Served(c, m, ip, t, t);
      assert level as real >= 1.0;
      assert m1[ip] == Bucket((level - 1) as real, t);
      ServedLevel(c, level as real, t, (level - 1) as real);
      BurstServed(c, m1, ip, t, n - 1, rest, level - 1, start, end);
      assert Burst(ip, t, n, rest)[1..] == Burst(ip, t, n - 1, rest);
      var a := Answers(c, m, Burst(ip, t, n, rest), true);
      assert a[1..] == Answers(c, m1, Burst(ip, t, n - 1, rest), true);
    }
  }

  // A time after which a bucket counts as idle although it has not refilled.
  lemma StaleTime(c: Config) returns (t: real)
    requires c.rate >= 0.0 && c.capacity >= 1 && IDLE_SECONDS * c.rate < c.capacity as real
    ensures t > IDLE_SECONDS && t * c.rate < c.capacity as real
  {
    if c.rate == 0.0 {
      t := IDLE_SECONDS + 1.0;
      assert t * c.rate == 0.0;
    } else {
      var cap := c.capacity as real;
      var full := cap / c.rate;
      assert full * c.rate == cap;
      assert full > IDLE_SECONDS by {
        if full <= IDLE_SECONDS {
          Accrual(c.rate, full, IDLE_SECONDS);
        }
      }
      t := (IDLE_SECONDS + full) / 2.0;
      assert t < full;
      assert (full - t) * c.rate > 0.0;
    }
  }

  /**
   If a bucket can be idle for ten minutes without refilling, eviction hands out
   a second full burst too early: some run exceeds the window bound.
   */
  lemma EvictionBreaksBound(c: Config) returns (ops: seq<Op>, t: real)
    requires c.rate >= 0.0 && c.capacity >= 1 && IDLE_SECONDS * c.rate < c.capacity as real
    ensures Clocked(ops, 0.0) && t >= 0.0
    ensures Admitted(Answers(c, map[], ops, true), "ip", 0.0, t) as real > c.capacity as real + (t - 0.0) * c.rate
  {
    hide Level, Admits, Served;
    t := StaleTime(c);
    var n := c.capacity;
    var second := Burst("ip", t, n, []);
    var tail := [Evict(t)] + second;
    ops := Burst("ip", 0.0, n, tail);
    BurstClocked("ip", t, n, [], t);
    assert tail[1..] == second;
    BurstClocked("ip", 0.0, n, tail, 0.0);
    FreshIsFull(c, 0.0, 0.0);
    FreshIsFull(c, t, t);
    BurstServed(c, map[], "ip", 0.0, n, tail, n, 0.0, t);
    var m :| "ip" in m && m["ip"] == Bucket((n - n) as real, 0.0)
      && Admitted(Answers(c, map[], ops, true), "ip", 0.0, t) == n + Admitted(Answers(c, m, tail, true), "ip", 0.0, t);
    var m' := Evicted(m, t);
    assert "ip" !in m';
    assert Answers(c, m, tail, true) == Answers(c, m', second, true);
    BurstServed(c, m', "ip", t, n, [], n, 0.0, t);
    assert Admitted(Answers(c, map[], ops, true), "ip", 0.0, t) >= 2 * n;
  }

  /**
   Eviction is unobservable exactly when ten idle minutes refill a bucket, or when
   the capacity is below one token and nobody is ever admitted.
   */
  lemma EvictionUnobservableExactlyWhen(c: Config)
    requires c.rate >= 0.0
    ensures (forall ops, from :: Clocked(ops, from) ==> Answers(c, map[], ops, true) == Answers(c, map[], ops, false))
       <==> (IDLE_SECONDS * c.rate >= c.capacity as real || c.capacity < 1)
  {
    hide Answers, Level;
    if c.capacity < 1 {
      forall ops, from | Clocked(ops, from) ensures Answers(c, map[], ops, true) == Answers(c, map[], ops, false) {
        AlwaysRefuses(c, map[], map[], ops);
      }
    } else if IDLE_SECONDS * c.rate >= c.capacity as real {
      forall ops, from | Clocked(ops, from) ensures Answers(c, map[], ops, true) == Answers(c, map[], ops, false) {
        SameAnswers(c, map[], map[], ops, from);
      }
    } else {
      var ops, t := EvictionBreaksBound(c);
      WindowBoundWithoutEviction(c, ops, "ip", 0.0, 0.0, t);
      assert Answers(c, map[], ops, true) != Answers(c, map[], ops, false);
    }
  }

  /**
   The limiter as run, evictions included: in every window each address is
   admitted at most capacity + rate * length times.
   */
  lemma WindowBound(c: Config, ops: seq<Op>, ip: string, from: real, start: real, end: real)
    requires c.rate >= 0.0 && c.capacity >= 0 && IDLE_SECONDS * c.rate >= c.capacity as real
    requires Clocked(ops, from) && start <= end
    ensures Admitted(Answers(c, map[], ops, true), ip, start, end) as real
         <= c.capacity as real + (end - start) * c.rate
  {
    hide Answers, Level;
    SameAnswers(c, map[], map[], ops, from);
    WindowBoundWithoutEviction(c, ops, ip, from, start, end);
  }

  // The limiter the server constructs: twice the rate, rounded down, as capacity.
  function Constructed(rate: real): Config { Config(rate, (rate * 2.0).Floor) }

  /** The constructed limiter meets the condition, for every rate. */
  lemma ConstructedLimiterIsBounded(rate: real, ops: seq<Op>, ip: string, from: real, start: real, end: real)
    requires rate >= 0.0 && Clocked(ops, from) && start <= end
    ensures Admitted(Answers(Constructed(rate), map[], ops, true), ip, start, end) as real
         <= Constructed(rate).capacity as real + (end - start) * rate
    ensures Answers(Constructed(rate), map[], ops, true) == Answers(Constructed(rate), map[], ops, false)
  {
    hide Answers;
    var c := Constructed(rate);
    assert c.capacity as real <= rate * 2.0 <= IDLE_SECONDS * rate;
    assert c.capacity >= 0;
    SameAnswers(c, map[], map[], ops, from);
    WindowBound(c, ops, ip, from, start, end);
  }
}
