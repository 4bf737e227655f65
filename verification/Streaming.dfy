/**
 Streaming payments: an amount released at a fixed rate per second, with pause and
 resume implemented by moving the start time.
 */
module Streaming {
  import opened Results
  import opened Division

  const TWO_64: nat := 0x1_0000_0000_0000_0000

  type U64 = x: nat | x < TWO_64

  datatype StreamState = Active | Paused | Stopped | Completed
  datatype StreamToken = Oikos | Koin
  datatype StreamConfig = StreamConfig(ratePerSecond: U64, durationSeconds: U64, token: StreamToken)

  // The fields of a payment.
  datatype Stream = Stream(
    id: U64, sender: U64, receiver: U64, totalAmount: nat, streamedAmount: nat, config: StreamConfig,
    state: StreamState, startTime: U64, pauseTime: Option<U64>)
  {
    function Rate(): nat { config.ratePerSecond }
  }

  function Min(x: nat, y: nat): nat { if x <= y then x else y }

  function SaturatingSub(x: nat, y: nat): nat { if x >= y then x - y else 0 }

  // What has been streamed by the given time, as the payment reports it.
  function StreamedSoFar(s: Stream, now: U64): nat {
    match s.state
    case Active => Min(SaturatingSub(now, s.startTime) * s.Rate(), s.totalAmount)
    case Paused =>
      if s.pauseTime.Some? then Min(SaturatingSub(s.pauseTime.value, s.startTime) * s.Rate(), s.totalAmount)
      else s.streamedAmount
    case _ => s.streamedAmount
  }

  predicate CanComplete(s: Stream, now: U64) {
    s.state == Active && StreamedSoFar(s, now) >= s.totalAmount
  }

  datatype Op = UpdateStreamed | TryComplete | Pause | Resume | Stop

  function Opened(id: U64, sender: U64, receiver: U64, total: nat, config: StreamConfig, now: U64): Stream {
    Stream(id, sender, receiver, total, 0, config, Active, now, None)
  }

  // Resuming divides by the rate.
  predicate Divides(s: Stream, op: Op) {
    op == Resume && s.state == Paused ==> s.Rate() > 0
  }

  // The effect of each operation.
  function Apply(s: Stream, op: Op, now: U64): Stream
    requires Divides(s, op)
  {
    match op
    case UpdateStreamed => if s.state == Active then s.(streamedAmount := StreamedSoFar(s, now)) else s
    case TryComplete => if CanComplete(s, now) then s.(streamedAmount := s.totalAmount, state := Completed) else s
    case Pause =>
      if s.state == Active
      then s.(streamedAmount := StreamedSoFar(s, now), state := Paused, pauseTime := Some(now)) else s
    case Resume =>
      if s.state == Paused then
        var preStreamed := s.streamedAmount / s.Rate();
        s.(startTime := SaturatingSub(now, preStreamed % TWO_64), pauseTime := None, state := Active)
      else s
    case Stop => if s.state == Active || s.state == Paused then s.(state := Stopped) else s
  }

  class StreamingPayment {
    const id: U64
    const sender: U64
    const receiver: U64
    const totalAmount: nat
    var streamedAmount: nat
    const config: StreamConfig
    var state: StreamState
    var startTime: U64
    var pauseTime: Option<U64>

    function View(): Stream
      reads this
    {
      Stream(id, sender, receiver, totalAmount, streamedAmount, config, state, startTime, pauseTime)
    }

    constructor (id: U64, sender: U64, receiver: U64, total: nat, config: StreamConfig, now: U64)
      ensures View() == Opened(id, sender, receiver, total, config, now)
    {
      this.id, this.sender, this.receiver, this.totalAmount := id, sender, receiver, total;
      this.config, streamedAmount, state, startTime, pauseTime := config, 0, Active, now, None;
    }

    method UpdateStreamedAt(now: U64)
      modifies this
      ensures View() == Apply(old(View()), UpdateStreamed, now)
    {
      if state == Active {
        streamedAmount := StreamedSoFar(View(), now);
      }
    }

    method TryCompleteAt(now: U64) returns (done: bool)
      modifies this
      ensures View() == Apply(old(View()), TryComplete, now) && done == CanComplete(old(View()), now)
    {
      done := CanComplete(View(), now);
      if done {
        streamedAmount := totalAmount;
        state := Completed;
      }
    }

    method PauseAt(now: U64)
      modifies this
      ensures View() == Apply(old(View()), Pause, now)
    {
      if state == Active {
        streamedAmount := StreamedSoFar(View(), now);
        state := Paused;
        pauseTime := Some(now);
      }
    }

    /** Resuming moves the start time back by the whole seconds already streamed; a zero rate would divide by zero. */
    method ResumeAt(now: U64)
      requires Divides(View(), Resume)
      modifies this
      ensures View() == Apply(old(View()), Resume, now)
    {
      if state == Paused {
        var preStreamed := streamedAmount / config.ratePerSecond;
        startTime := SaturatingSub(now, preStreamed % TWO_64);
        pauseTime := None;
        state := Active;
      }
    }

    method StopNow(now: U64)
      modifies this
      ensures View() == Apply(old(View()), Stop, now)
    {
      if state == Active || state == Paused {
        state := Stopped;
      }
    }
  }

  // ----- runs -----

  datatype Timed = Timed(op: Op, at: U64)

  ghost predicate Clocked(ops: seq<Timed>, began: U64) {
    forall k :: 0 <= k < |ops| ==> LastTime(ops, began, k) <= ops[k].at
  }

  function LastTime(ops: seq<Timed>, began: U64, k: nat): U64
    requires k <= |ops|
  {
    if k == 0 then began else ops[k - 1].at
  }

  function Run(first: Stream, ops: seq<Timed>, k: nat): (s: Stream)
    requires first.Rate() > 0 && k <= |ops|
    ensures s.config == first.config && s.totalAmount == first.totalAmount
  {
    if k == 0 then first else Apply(Run(first, ops, k - 1), ops[k - 1].op, ops[k - 1].at)
  }

  // ----- the meter: what the operations alone say -----

  datatype Mode = Running | Held | Ended | Done

  // The seconds the stream has been running, those of them that count (resuming drops
  // what exceeds the total's whole seconds), and the amount last recorded.
  datatype Meter = Meter(mode: Mode, active: nat, seconds: nat, recorded: nat)

  // Time passes.
  function Tick(m: Meter, dt: nat): Meter {
    if m.mode == Running then m.(active := m.active + dt, seconds := m.seconds + dt) else m
  }

  function Amount(rate: nat, total: nat, m: Meter): nat { Min(total, m.seconds * rate) }

  // It runs from the start, and from each resume that follows a pause, up to the next
  // pause, stop or completion.
  function Turn(rate: nat, total: nat, m: Meter, op: Op): Meter
    requires rate > 0
  {
    match (op, m.mode)
    case (UpdateStreamed, Running) => m.(recorded := Amount(rate, total, m))
    case (TryComplete, Running) => if m.seconds * rate >= total then m.(mode := Done, recorded := total) else m
    case (Pause, Running) => m.(mode := Held, recorded := Amount(rate, total, m))
    case (Resume, Held) => m.(mode := Running, seconds := Min(m.seconds, total / rate))
    case (Stop, Running) => m.(mode := Ended)
    case (Stop, Held) => m.(mode := Ended)
    case _ => m
  }

  // The meter after the first k operations.
  function Metered(rate: nat, total: nat, ops: seq<Timed>, began: U64, k: nat): Meter
    requires rate > 0 && k <= |ops| && Clocked(ops, began)
  {
    if k == 0 then Meter(Running, 0, 0, 0)
    else
      var m := Metered(rate, total, ops, began, k - 1);
      Turn(rate, total, Tick(m, ops[k - 1].at - LastTime(ops, began, k - 1)), ops[k - 1].op)
  }

  function Reading(rate: nat, total: nat, m: Meter): nat {
    match m.mode
    case Running => Amount(rate, total, m)
    case Held => Amount(rate, total, m)
    case Ended => m.recorded
    case Done => total
  }

  // The counted seconds against those really active: never more, and less only once the
  // total has been reached.
  ghost predicate ElapsedOk(rate: nat, total: nat, e: nat, active: nat)
    requires rate > 0
  {
    e <= active && (e == active || (active * rate > total && e >= total / rate))
  }

  // ----- the arithmetic -----

  lemma ElapsedWaits(rate: nat, total: nat, e: nat, active: nat, d: nat)
    requires rate > 0 && ElapsedOk(rate, total, e, active)
    ensures ElapsedOk(rate, total, e + d, active + d) && active * rate <= (active + d) * rate
  {
    MulMonotone(rate, active, active + d);
  }

  // The whole seconds of what was streamed.
  lemma WholeSeconds(rate: nat, total: nat, e: nat)
    requires rate > 0
    ensures Min(e * rate, total) / rate == Min(e, total / rate)
  {
    QuotientIsLargest(rate, total, e);
    if e * rate <= total {
      QuotientIsLargest(rate, e * rate, e);
      QuotientIsLargest(rate, e * rate, e + 1);
      assert (e + 1) * rate == e * rate + rate;
    }
  }

  lemma ElapsedResumes(rate: nat, total: nat, e: nat, active: nat)
    requires rate > 0 && ElapsedOk(rate, total, e, active)
    ensures ElapsedOk(rate, total, Min(e, total / rate), active)
  {
    if e > total / rate {
      QuotientIsLargest(rate, total, e);
      MulMonotone(rate, e, active);
    }
  }

  // An amount computed from the counted seconds, against the ideal.
  lemma ElapsedReports(rate: nat, total: nat, e: nat, active: nat)
    requires rate > 0 && ElapsedOk(rate, total, e, active)
    ensures Min(total, e * rate) <= Min(total, active * rate)
    ensures Min(total, active * rate) - Min(total, e * rate) < rate
    ensures active * rate <= total || total % rate == 0 ==> Min(total, e * rate) == Min(total, active * rate)
  {
    MulMonotone(rate, e, active);
    if e != active {
      DivBounds(rate, total);
      MulMonotone(rate, total / rate, e);
    }
  }

  // ----- the payment follows the meter -----

  // What every operation keeps, at time t.
  ghost predicate Matches(s: Stream, t: nat, m: Meter)
    requires s.Rate() > 0
  {
    && ElapsedOk(s.Rate(), s.totalAmount, m.seconds, m.active) && m.active <= t
    && s.streamedAmount == m.recorded
    && m.recorded <= Min(s.totalAmount, m.active * s.Rate())
    && match s.state
       case Active => m.mode == Running && s.startTime <= t && t - s.startTime == m.seconds
       case Paused =>
         && m.mode == Held && s.pauseTime.Some? && s.startTime <= s.pauseTime.value <= t
         && s.pauseTime.value - s.startTime == m.seconds && m.recorded == Amount(s.Rate(), s.totalAmount, m)
       case Stopped => m.mode == Ended
       case Completed => m.mode == Done && m.recorded == s.totalAmount
  }

  lemma MatchesLater(s: Stream, t: nat, u: nat, m: Meter)
    requires s.Rate() > 0 && Matches(s, t, m) && t <= u
    ensures Matches(s, u, Tick(m, u - t))
  {
    hide ElapsedOk;
    if m.mode == Running {
      ElapsedWaits(s.Rate(), s.totalAmount, m.seconds, m.active, u - t);
    }
  }

  lemma NoTruncation(x: nat)
    requires x < TWO_64
    ensures x % TWO_64 == x
  {}

  lemma ElapsedWithin(rate: nat, total: nat, e: nat, active: nat)
    requires rate > 0 && ElapsedOk(rate, total, e, active)
    ensures e <= active && Min(total, e * rate) <= Min(total, active * rate)
  {
    MulMonotone(rate, e, active);
  }

  // The report is the meter's reading.
  lemma ReportIsReading(s: Stream, now: U64, m: Meter)
    requires s.Rate() > 0 && Matches(s, now, m)
    ensures StreamedSoFar(s, now) == Reading(s.Rate(), s.totalAmount, m)
  {
    hide ElapsedOk;
  }

  /** Every operation does to the payment what it does to the meter. */
  lemma ApplyMatches(s: Stream, op: Op, now: U64, m: Meter)
    requires s.Rate() > 0 && Matches(s, now, m)
    ensures Matches(Apply(s, op, now), now, Turn(s.Rate(), s.totalAmount, m, op))
  {
    hide ElapsedOk;
    ReportIsReading(s, now, m);
    ElapsedWithin(s.Rate(), s.totalAmount, m.seconds, m.active);
    if op == Resume && s.state == Paused {
      ResumeMatches(s, now, m);
    }
  }

  lemma ResumeMatches(s: Stream, now: U64, m: Meter)
    requires s.Rate() > 0 && Matches(s, now, m) && s.state == Paused
    ensures Matches(Apply(s, Resume, now), now, Turn(s.Rate(), s.totalAmount, m, Resume))
  {
    hide ElapsedOk;
    WholeSeconds(s.Rate(), s.totalAmount, m.seconds);
    ElapsedResumes(s.Rate(), s.totalAmount, m.seconds, m.active);
    ElapsedWithin(s.Rate(), s.totalAmount, m.seconds, m.active);
    NoTruncation(s.streamedAmount / s.Rate());
  }

  ghost predicate Opening(first: Stream, began: U64) {
    && first.Rate() > 0 && first.state == Active && first.startTime == began && first.streamedAmount == 0
  }

  /** Over every run with a clock that never goes back, the payment follows the meter. */
  lemma {:induction false} RunMatches(first: Stream, ops: seq<Timed>, began: U64, k: nat)
    requires Opening(first, began) && k <= |ops| && Clocked(ops, began)
    ensures Matches(Run(first, ops, k), LastTime(ops, began, k),
                    Metered(first.Rate(), first.totalAmount, ops, began, k))
    decreases k
  {
    hide Matches, Apply, Turn, Tick;
    if k == 0 {
      MatchesAtFirst(first, began);
    } else {
      RunMatches(first, ops, began, k - 1);
      var s, t := Run(first, ops, k - 1), LastTime(ops, began, k - 1);
      var m, now := Metered(first.Rate(), first.totalAmount, ops, began, k - 1), ops[k - 1].at;
      MatchesLater(s, t, now, m);
      ApplyMatches(s, ops[k - 1].op, now, Tick(m, now - t));
    }
  }

  lemma MatchesAtFirst(first: Stream, began: U64)
    requires Opening(first, began)
    ensures Matches(first, began, Meter(Running, 0, 0, 0))
  {}

  // The meter at a time after the k-th operation.
  function MeterAt(first: Stream, ops: seq<Timed>, began: U64, k: nat, now: U64): Meter
    requires first.Rate() > 0 && k <= |ops| && Clocked(ops, began) && LastTime(ops, began, k) <= now
  {
    Tick(Metered(first.Rate(), first.totalAmount, ops, began, k), now - LastTime(ops, began, k))
  }

  lemma MatchesAt(first: Stream, ops: seq<Timed>, began: U64, k: nat, now: U64)
    requires Opening(first, began) && k <= |ops| && Clocked(ops, began) && LastTime(ops, began, k) <= now
    ensures Matches(Run(first, ops, k), now, MeterAt(first, ops, began, k, now))
  {
    hide Matches, Run, Metered, Tick;
    RunMatches(first, ops, began, k);
    var m := Metered(first.Rate(), first.totalAmount, ops, began, k);
    MatchesLater(Run(first, ops, k), LastTime(ops, began, k), now, m);
  }

  /** At any time after any run the payment reports what the meter reads, and has recorded what it recorded. */
  lemma ReportsAreReadings(first: Stream, ops: seq<Timed>, began: U64, k: nat, now: U64)
    requires Opening(first, began) && k <= |ops| && Clocked(ops, began) && LastTime(ops, began, k) <= now
    ensures var s, m := Run(first, ops, k), MeterAt(first, ops, began, k, now);
      && StreamedSoFar(s, now) == Reading(first.Rate(), first.totalAmount, m) && s.streamedAmount == m.recorded
      && (s.state == Active <==> m.mode == Running) && (s.state == Paused <==> m.mode == Held)
      && (s.state == Stopped <==> m.mode == Ended) && (s.state == Completed <==> m.mode == Done)
  {
    hide Run, MeterAt, StreamedSoFar, Reading, ElapsedOk;
    MatchesAt(first, ops, began, k, now);
    ReportIsReading(Run(first, ops, k), now, MeterAt(first, ops, began, k, now));
  }

  // A reading against the ideal after that many active seconds.
  ghost predicate Tracks(rate: nat, total: nat, m: Meter, report: nat)
    requires rate > 0
  {
    var ideal := Min(total, m.active * rate);
    && report <= ideal
    && (m.mode != Ended ==> ideal - report < rate)
    && (m.mode != Ended && (m.active * rate <= total || total % rate == 0) ==> report == ideal)
  }

  lemma ReadingTracks(s: Stream, now: U64, m: Meter)
    requires s.Rate() > 0 && Matches(s, now, m)
    ensures Tracks(s.Rate(), s.totalAmount, m, Reading(s.Rate(), s.totalAmount, m))
  {
    hide ElapsedOk;
    ElapsedReports(s.Rate(), s.totalAmount, m.seconds, m.active);
  }

  /**
   Over every run with a positive rate and a clock that never goes back, a report
   at any later time is at most min(total, rate * active seconds), where the active
   seconds are counted from the operations; unless the stream was stopped it lags that
   ideal by less than one second's rate, and it is exact before the total is reached
   and whenever the rate divides the total.
   */
  lemma ReportsTrackActiveTime(first: Stream, ops: seq<Timed>, began: U64, k: nat, now: U64)
    requires Opening(first, began) && k <= |ops| && Clocked(ops, began) && LastTime(ops, began, k) <= now
    ensures Tracks(first.Rate(), first.totalAmount, MeterAt(first, ops, began, k, now),
                   StreamedSoFar(Run(first, ops, k), now))
    ensures Run(first, ops, k).streamedAmount <= first.totalAmount
  {
    hide Run, MeterAt, StreamedSoFar, Tracks, Reading, ElapsedOk;
    MatchesAt(first, ops, began, k, now);
    var s, m := Run(first, ops, k), MeterAt(first, ops, began, k, now);
    ReportIsReading(s, now, m);
    ReadingTracks(s, now, m);
  }

  /**
   Completing succeeds exactly when the stream is running and the counted seconds pay for
   the total.  Then the active seconds do too; the converse fails only where a resume
   left the stream at the total's whole seconds and the rate does not divide the total.
   */
  lemma CompletesExactlyWhen(first: Stream, ops: seq<Timed>, began: U64, k: nat, now: U64)
    requires Opening(first, began) && k <= |ops| && Clocked(ops, began) && LastTime(ops, began, k) <= now
    ensures var rate, total, m := first.Rate(), first.totalAmount, MeterAt(first, ops, began, k, now);
      var done := CanComplete(Run(first, ops, k), now);
      && (done <==> m.mode == Running && m.seconds * rate >= total)
      && (done ==> m.active * rate >= total)
      && (m.mode == Running && m.active * rate >= total && !done ==> total % rate != 0 && m.seconds == total / rate)
  {
    hide Run, MeterAt, ElapsedOk;
    MatchesAt(first, ops, began, k, now);
    var m := MeterAt(first, ops, began, k, now);
    ReportIsReading(Run(first, ops, k), now, m);
    PaidExactlyWhen(first.Rate(), first.totalAmount, m.seconds, m.active);
  }

  lemma PaidExactlyWhen(rate: nat, total: nat, e: nat, active: nat)
    requires rate > 0 && ElapsedOk(rate, total, e, active)
    ensures e * rate >= total ==> active * rate >= total
    ensures active * rate >= total && e * rate < total ==> total % rate != 0 && e == total / rate
  {
    MulMonotone(rate, e, active);
    DivBounds(rate, total);
    QuotientIsLargest(rate, total, e);
    if e > total / rate {
      MulMonotone(rate, total / rate + 1, e);
      assert (total / rate + 1) * rate == (total / rate) * rate + rate;
    }
  }

  lemma MeteredStep(rate: nat, total: nat, ops: seq<Timed>, began: U64, k: nat)
    requires rate > 0 && k < |ops| && Clocked(ops, began)
    ensures LastTime(ops, began, k) <= ops[k].at
    ensures Metered(rate, total, ops, began, k + 1)
         == Turn(rate, total, Tick(Metered(rate, total, ops, began, k), ops[k].at - LastTime(ops, began, k)), ops[k].op)
  {
    hide Turn, Tick;
  }

  // Without a resume a held meter stays as it is, or ends.
  lemma HeldTurn(rate: nat, total: nat, m: Meter, dt: nat, op: Op)
    requires rate > 0 && (m.mode == Held || m.mode == Ended) && op != Resume
    ensures Turn(rate, total, Tick(m, dt), op) == m || Turn(rate, total, Tick(m, dt), op) == m.(mode := Ended)
  {}

  lemma {:induction false} HeldMeter(rate: nat, total: nat, ops: seq<Timed>, began: U64, k: nat, l: nat)
    requires rate > 0 && k <= l <= |ops| && Clocked(ops, began) && Metered(rate, total, ops, began, k).mode == Held
    requires forall i :: k <= i < l ==> ops[i].op != Resume
    ensures var m, n := Metered(rate, total, ops, began, k), Metered(rate, total, ops, began, l);
      n == m || n == m.(mode := Ended)
    decreases l
  {
    hide Metered, Turn, Tick;
    if k < l {
      HeldMeter(rate, total, ops, began, k, l - 1);
      MeteredStep(rate, total, ops, began, l - 1);
      var m, dt := Metered(rate, total, ops, began, l - 1), ops[l - 1].at - LastTime(ops, began, l - 1);
      HeldTurn(rate, total, m, dt, ops[l - 1].op);
    }
  }

  lemma HeldReading(rate: nat, total: nat, m: Meter, n: Meter, dt: nat)
    requires rate > 0 && m.mode == Running
    requires n == Turn(rate, total, m, Pause) || n == Turn(rate, total, m, Pause).(mode := Ended)
    ensures Reading(rate, total, Tick(n, dt)) == Reading(rate, total, m)
  {}

  /** After a pause of a running stream, until a resume, every report is the one at the pause. */
  lemma PausedReportStays(first: Stream, ops: seq<Timed>, began: U64, k: nat, l: nat, now: U64)
    requires Opening(first, began) && k < l <= |ops| && Clocked(ops, began) && LastTime(ops, began, l) <= now
    requires ops[k].op == Pause && MeterAt(first, ops, began, k, ops[k].at).mode == Running
    requires forall i :: k < i < l ==> ops[i].op != Resume
    ensures StreamedSoFar(Run(first, ops, l), now) == StreamedSoFar(Run(first, ops, k), ops[k].at)
  {
    hide Run, StreamedSoFar, Metered, Turn, Tick, Reading, Clocked;
    var rate, total := first.Rate(), first.totalAmount;
    MeteredStep(rate, total, ops, began, k);
    var m := MeterAt(first, ops, began, k, ops[k].at);
    PauseHolds(rate, total, m);
    HeldMeter(rate, total, ops, began, k + 1, l);
    HeldReading(rate, total, m, Metered(rate, total, ops, began, l), now - LastTime(ops, began, l));
    ReportsAreReadings(first, ops, began, l, now);
    ReportsAreReadings(first, ops, began, k, ops[k].at);
  }

  lemma PauseHolds(rate: nat, total: nat, m: Meter)
    requires rate > 0 && m.mode == Running
    ensures Turn(rate, total, m, Pause).mode == Held
  {}

  /**
   What an operation does to the report at its own instant: nothing, except that
   resuming loses the amount beyond whole seconds and stopping falls back to the
   amount last recorded.
   */
  lemma ReportAcrossOperation(s: Stream, op: Op, now: U64, m: Meter)
    requires s.Rate() > 0 && Matches(s, now, m)
    ensures StreamedSoFar(Apply(s, op, now), now) ==
            if op == Resume && s.state == Paused then StreamedSoFar(s, now) - StreamedSoFar(s, now) % s.Rate()
            else if op == Stop then s.streamedAmount
            else StreamedSoFar(s, now)
  {
    hide ElapsedOk;
    ApplyMatches(s, op, now, m);
    ReportIsReading(s, now, m);
    ReportIsReading(Apply(s, op, now), now, Turn(s.Rate(), s.totalAmount, m, op));
    if op == Resume && s.state == Paused {
      WholeSeconds(s.Rate(), s.totalAmount, m.seconds);
      DivBounds(s.Rate(), s.streamedAmount);
      MulMonotone(s.Rate(), Min(m.seconds, s.totalAmount / s.Rate()), s.totalAmount / s.Rate());
      DivBounds(s.Rate(), s.totalAmount);
    }
  }
}
