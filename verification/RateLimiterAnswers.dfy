/**
 The rate limiter from its answers alone: a request is refused exactly when admitting it
 would break the bound of some window that ends with it.
 */
module RateLimiterAnswers {
  import opened RateLimiter

  /** One more admission now keeps every window up to now within capacity + rate * length. */
  ghost predicate Fits(c: Config, earlier: seq<Answer>, ip: string, now: real) {
    forall start :: start <= now ==>
      Admitted(earlier, ip, start, now) as real + 1.0 <= c.capacity as real + (now - start) * c.rate
  }

  // What accrues between two times.
  function Accrued(c: Config, start: real, end: real): real { (end - start) * c.rate }

  lemma AccruedLaws(c: Config, x: real, y: real, z: real)
    requires c.rate >= 0.0
    ensures Accrued(c, x, y) + Accrued(c, y, z) == Accrued(c, x, z) && Accrued(c, x, x) == 0.0
    ensures x <= y ==> Accrued(c, x, y) >= 0.0
  {
    Distribute(c.rate, x, y, z);
    if x <= y {
      Accrual(c.rate, x, y);
    }
  }

  // What a window leaves of its bound.
  function Left(c: Config, earlier: seq<Answer>, ip: string, start: real, now: real): real {
    c.capacity as real + Accrued(c, start, now) - Admitted(earlier, ip, start, now) as real
  }

  lemma LevelIs(c: Config, b: Bucket, now: real)
    ensures Level(c, b, now)
         == if b.tokens + Accrued(c, b.lastSeen, now) > c.capacity as real then c.capacity as real
            else b.tokens + Accrued(c, b.lastSeen, now)
  {}

  // The bucket holds the least that any window up to its time leaves.
  ghost predicate Explains(c: Config, b: Bucket, earlier: seq<Answer>, ip: string) {
    && (forall a :: a in earlier && a.ip == ip ==> a.at <= b.lastSeen)
    && (forall start :: start <= b.lastSeen ==> b.tokens <= Left(c, earlier, ip, start, b.lastSeen))
    && (exists start :: start <= b.lastSeen && b.tokens == Left(c, earlier, ip, start, b.lastSeen))
  }

  ghost predicate NeverAsked(earlier: seq<Answer>, ip: string) {
    forall a :: a in earlier ==> a.ip != ip
  }

  ghost predicate AllExplained(c: Config, m: Buckets, earlier: seq<Answer>, from: real) {
    forall ip :: if ip in m then Explains(c, m[ip], earlier, ip) && m[ip].lastSeen <= from else NeverAsked(earlier, ip)
  }

  // ----- counting admissions -----

  lemma {:induction false} AdmittedSnoc(earlier: seq<Answer>, a: Answer, ip: string, start: real, end: real)
    ensures Admitted(earlier + [a], ip, start, end)
         == Admitted(earlier, ip, start, end) + if a.ip == ip && a.ok && start <= a.at <= end then 1 else 0
    decreases |earlier|
  {
    if earlier != [] {
      AdmittedSnoc(earlier[1..], a, ip, start, end);
      assert (earlier + [a])[1..] == earlier[1..] + [a];
    }
  }

  // Nothing is admitted after the last answer.
  lemma {:induction false} AdmittedLater(earlier: seq<Answer>, ip: string, start: real, t: real, u: real)
    requires t <= u && forall a :: a in earlier && a.ip == ip ==> a.at <= t
    ensures Admitted(earlier, ip, start, u) == Admitted(earlier, ip, start, t)
    ensures start > t ==> Admitted(earlier, ip, start, u) == 0
    decreases |earlier|
  {
    if earlier != [] {
      assert earlier[0] in earlier;
      AdmittedLater(earlier[1..], ip, start, t, u);
    }
  }

  lemma {:induction false} AdmittedNever(earlier: seq<Answer>, ip: string, start: real, end: real)
    requires NeverAsked(earlier, ip)
    ensures Admitted(earlier, ip, start, end) == 0
    decreases |earlier|
  {
    if earlier != [] {
      assert earlier[0] in earlier;
      AdmittedNever(earlier[1..], ip, start, end);
    }
  }

  // ----- one bucket -----

  lemma LeftLater(c: Config, earlier: seq<Answer>, ip: string, start: real, t: real, u: real)
    requires c.rate >= 0.0 && t <= u && forall a :: a in earlier && a.ip == ip ==> a.at <= t
    ensures Left(c, earlier, ip, start, u) == Left(c, earlier, ip, start, t) + Accrued(c, t, u)
    ensures t < start <= u ==> Left(c, earlier, ip, start, u) >= c.capacity as real
    ensures t < u ==> Left(c, earlier, ip, u, u) == c.capacity as real
  {
    hide Accrued, Admitted;
    AdmittedLater(earlier, ip, start, t, u);
    AdmittedLater(earlier, ip, u, t, u);
    AccruedLaws(c, start, t, u);
    AccruedLaws(c, start, u, u);
    AccruedLaws(c, u, u, u);
  }

  // Refilling keeps the bucket explained.
  lemma LevelExplained(c: Config, b: Bucket, earlier: seq<Answer>, ip: string, now: real)
    requires c.rate >= 0.0 && Explains(c, b, earlier, ip) && b.lastSeen <= now
    ensures Explains(c, Bucket(Level(c, b, now), now), earlier, ip)
  {
    hide Left, Level, Accrued;
    var t, cap, level := b.lastSeen, c.capacity as real, Level(c, b, now);
    LevelIs(c, b, now);
    forall start | start <= now ensures level <= Left(c, earlier, ip, start, now) {
      LeftLater(c, earlier, ip, start, t, now);
    }
    var s :| s <= t && b.tokens == Left(c, earlier, ip, s, t);
    LeftLater(c, earlier, ip, s, t, now);
    LeftNow(c, earlier, ip, now);
    if level < cap || t == now {
      NoTimeNoChange(c, b, earlier, ip, now);
      assert level == Left(c, earlier, ip, s, now);
    } else {
      assert level == Left(c, earlier, ip, now, now);
    }
  }

  lemma LeftNow(c: Config, earlier: seq<Answer>, ip: string, now: real)
    requires c.rate >= 0.0
    ensures Left(c, earlier, ip, now, now) <= c.capacity as real
  {
    hide Accrued, Admitted;
    AccruedLaws(c, now, now, now);
  }

  // At its own time a bucket is not above capacity.
  lemma NoTimeNoChange(c: Config, b: Bucket, earlier: seq<Answer>, ip: string, now: real)
    requires c.rate >= 0.0 && Explains(c, b, earlier, ip)
    ensures b.lastSeen == now ==> Level(c, b, now) == b.tokens + Accrued(c, b.lastSeen, now)
    ensures Level(c, b, now) < c.capacity as real ==> Level(c, b, now) == b.tokens + Accrued(c, b.lastSeen, now)
  {
    hide Left, Level, Accrued;
    LevelIs(c, b, now);
    LeftNow(c, earlier, ip, b.lastSeen);
    assert b.tokens <= Left(c, earlier, ip, b.lastSeen, b.lastSeen);
    AccruedLaws(c, now, now, now);
  }

  lemma FreshExplained(c: Config, earlier: seq<Answer>, ip: string, now: real)
    requires c.rate >= 0.0 && NeverAsked(earlier, ip)
    ensures Explains(c, Bucket(c.capacity as real, now), earlier, ip)
  {
    hide Accrued, Admitted;
    forall start | start <= now ensures c.capacity as real <= Left(c, earlier, ip, start, now) {
      AdmittedNever(earlier, ip, start, now);
      AccruedLaws(c, start, now, now);
    }
    AdmittedNever(earlier, ip, now, now);
    AccruedLaws(c, now, now, now);
    assert c.capacity as real == Left(c, earlier, ip, now, now);
  }

  // An answer given at the bucket's time takes a token if it admits.
  lemma AnswerExplained(c: Config, b: Bucket, earlier: seq<Answer>, ip: string, ok: bool)
    requires Explains(c, b, earlier, ip)
    ensures Explains(c, Bucket(if ok then b.tokens - 1.0 else b.tokens, b.lastSeen),
                     earlier + [Answer(ip, b.lastSeen, ok)], ip)
  {
    hide Admitted, Accrued;
    var t, a := b.lastSeen, Answer(ip, b.lastSeen, ok);
    forall start | start <= t
      ensures Left(c, earlier + [a], ip, start, t) == Left(c, earlier, ip, start, t) - if ok then 1.0 else 0.0
    {
      AdmittedSnoc(earlier, a, ip, start, t);
    }
  }

  lemma OthersExplained(c: Config, b: Bucket, earlier: seq<Answer>, ip: string, a: Answer)
    requires Explains(c, b, earlier, ip) && a.ip != ip
    ensures Explains(c, b, earlier + [a], ip)
  {
    hide Admitted, Accrued;
    forall start ensures Left(c, earlier + [a], ip, start, b.lastSeen) == Left(c, earlier, ip, start, b.lastSeen) {
      AdmittedSnoc(earlier, a, ip, start, b.lastSeen);
    }
  }

  // The bucket just before a request is answered.
  function Ready(c: Config, m: Buckets, ip: string, created: real, now: real): Bucket {
    Bucket(Level(c, BucketOf(c, m, ip, created), now), now)
  }

  lemma ReadyExplained(c: Config, m: Buckets, earlier: seq<Answer>, from: real, ip: string, created: real, now: real)
    requires c.rate >= 0.0 && AllExplained(c, m, earlier, from) && from <= created <= now
    ensures Explains(c, Ready(c, m, ip, created, now), earlier, ip)
  {
    hide Explains, Level;
    if ip in m {
      LevelExplained(c, m[ip], earlier, ip, now);
    } else {
      FreshIsFull(c, created, now);
      FreshExplained(c, earlier, ip, now);
    }
  }

  // A bucket holds a token exactly when one more admission fits.
  lemma TokenExactlyWhenFits(c: Config, b: Bucket, earlier: seq<Answer>, ip: string)
    requires Explains(c, b, earlier, ip)
    ensures b.tokens >= 1.0 <==> Fits(c, earlier, ip, b.lastSeen)
  {
    hide Admitted;
    var now := b.lastSeen;
    forall start | start <= now
      ensures Left(c, earlier, ip, start, now) >= 1.0
         <==> Admitted(earlier, ip, start, now) as real + 1.0 <= c.capacity as real + (now - start) * c.rate
    {}
    var s :| s <= now && b.tokens == Left(c, earlier, ip, s, now);
    if Fits(c, earlier, ip, now) {
      assert Left(c, earlier, ip, s, now) >= 1.0;
    }
  }

  // ----- runs -----

  lemma ServedExplained(c: Config, m: Buckets, earlier: seq<Answer>, from: real, ip: string, created: real, now: real)
    requires c.rate >= 0.0 && AllExplained(c, m, earlier, from) && from <= created <= now
    ensures AllExplained(c, Served(c, m, ip, created, now),
                         earlier + [Answer(ip, now, Admits(c, m, ip, created, now))], now)
  {
    hide Explains, Level;
    var a := Answer(ip, now, Admits(c, m, ip, created, now));
    ReadyExplained(c, m, earlier, from, ip, created, now);
    AnswerExplained(c, Ready(c, m, ip, created, now), earlier, ip, a.ok);
    var m' := Served(c, m, ip, created, now);
    forall i
      ensures if i in m' then Explains(c, m'[i], earlier + [a], i) && m'[i].lastSeen <= now
              else NeverAsked(earlier + [a], i)
    {
      if i != ip && i in m {
        OthersExplained(c, m[i], earlier, i, a);
      }
    }
  }

  lemma {:induction false} AnswersExplained(c: Config, m: Buckets, ops: seq<Op>, earlier: seq<Answer>, from: real,
                                            k: nat)
    requires c.rate >= 0.0 && AllExplained(c, m, earlier, from) && Clocked(ops, from)
    requires k < |Answers(c, m, ops, false)|
    ensures var answers := Answers(c, m, ops, false);
      answers[k].ok <==> Fits(c, earlier + answers[..k], answers[k].ip, answers[k].at)
    decreases |ops|
  {
    hide AllExplained, Fits, Served, Explains, Admits;
    var answers := Answers(c, m, ops, false);
    match ops[0]
    case Allow(ip, created, now) =>
      var first := answers[0];
      var rest := answers[1..];
      if k == 0 {
        assert earlier + answers[..0] == earlier;
        FirstExplained(c, m, earlier, from, ip, created, now);
      } else {
        ServedExplained(c, m, earlier, from, ip, created, now);
        AnswersExplained(c, Served(c, m, ip, created, now), ops[1..], earlier + [first], now, k - 1);
        assert earlier + answers[..k] == earlier + [first] + rest[..k - 1];
      }
    case Evict(now) =>
      ExplainedLater(c, m, earlier, from, Max(from, now));
      AnswersExplained(c, m, ops[1..], earlier, Max(from, now), k);
  }

  lemma FirstExplained(c: Config, m: Buckets, earlier: seq<Answer>, from: real, ip: string, created: real, now: real)
    requires c.rate >= 0.0 && AllExplained(c, m, earlier, from) && from <= created <= now
    ensures Admits(c, m, ip, created, now) <==> Fits(c, earlier, ip, now)
  {
    hide AllExplained, Fits, Explains, Level;
    ReadyExplained(c, m, earlier, from, ip, created, now);
    TokenExactlyWhenFits(c, Ready(c, m, ip, created, now), earlier, ip);
  }

  lemma ExplainedLater(c: Config, m: Buckets, earlier: seq<Answer>, from: real, to: real)
    requires AllExplained(c, m, earlier, from) && from <= to
    ensures AllExplained(c, m, earlier, to)
  {
    hide Explains;
  }

  /**
   Over every run without evictions, a request is admitted exactly when, counting it,
   no window that ends with it exceeds capacity + rate * length.
   */
  lemma AdmittedExactlyWhenFits(c: Config, ops: seq<Op>, from: real, k: nat)
    requires c.rate >= 0.0 && Clocked(ops, from) && k < |Answers(c, map[], ops, false)|
    ensures var answers := Answers(c, map[], ops, false);
      answers[k].ok <==> Fits(c, answers[..k], answers[k].ip, answers[k].at)
  {
    hide Answers, Fits, Explains;
    AnswersExplained(c, map[], ops, [], from, k);
    var answers := Answers(c, map[], ops, false);
    assert [] + answers[..k] == answers[..k];
  }

  /** The same of the limiter as run, evictions included, if ten idle minutes refill a bucket. */
  lemma EvictingAdmitsExactlyWhenFits(c: Config, ops: seq<Op>, from: real, k: nat)
    requires c.rate >= 0.0 && c.capacity >= 0 && IDLE_SECONDS * c.rate >= c.capacity as real
    requires Clocked(ops, from) && k < |Answers(c, map[], ops, true)|
    ensures var answers := Answers(c, map[], ops, true);
      answers[k].ok <==> Fits(c, answers[..k], answers[k].ip, answers[k].at)
  {
    hide Answers, Fits, Level;
    SameAnswers(c, map[], map[], ops, from);
    AdmittedExactlyWhenFits(c, ops, from, k);
  }
}
