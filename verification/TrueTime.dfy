/**
 The core under an unbounded clock. A stamped call carries the true time it was made at and,
 for a sample, the true time it was taken; the core sees both only as 32-bit words. The bounds
 proved here are in true time, and that the wrapped subtractions behind them are exact is
 proved by induction over the run.
 */
module TrueTime {
  import opened Words
  import opened Floats
  import opened ProtectionModel
  import opened CoreInvariants

  datatype Stamped = Stamped(at: nat, taken: nat, event: Event)

  /** The words of the call are the clock's at its true times, and a sample is not from the future. */
  predicate Honest(x: Stamped) {
    match x.event
    case Sample(m, now) => now == Wrap(x.at) && m.timestamp == Wrap(x.taken) && x.taken <= x.at
    case Tick(now) => now == Wrap(x.at)
    case Reset(now) => now == Wrap(x.at)
    case Internal(now) => now == Wrap(x.at)
    case Ack => true
  }

  /** The control task polls the core by an update or a tick. */
  predicate IsPoll(x: Stamped) {
    x.event.Sample? || x.event.Tick?
  }

  function Events(xs: seq<Stamped>): (es: seq<Event>)
    ensures |es| == |xs|
    ensures forall i :: 0 <= i < |xs| ==> es[i] == xs[i].event
  {
    seq(|xs|, i requires 0 <= i < |xs| => xs[i].event)
  }

  /** True time of the last call, of the last poll, and of the newest sample; t0 before there is one. */
  function LastAt(t0: nat, xs: seq<Stamped>): nat {
    if xs == [] then t0 else xs[|xs| - 1].at
  }

  function LastPoll(t0: nat, xs: seq<Stamped>): nat
    decreases |xs|
  {
    if xs == [] then t0
    else if IsPoll(xs[|xs| - 1]) then xs[|xs| - 1].at
    else LastPoll(t0, xs[..|xs| - 1])
  }

  /** When the newest sample was delivered, and when it was taken. */
  function NewestAt(t0: nat, xs: seq<Stamped>): nat
    decreases |xs|
  {
    if xs == [] then t0
    else if xs[|xs| - 1].event.Sample? then xs[|xs| - 1].at
    else NewestAt(t0, xs[..|xs| - 1])
  }

  function NewestTaken(t0: nat, xs: seq<Stamped>): nat
    decreases |xs|
  {
    if xs == [] then t0
    else if xs[|xs| - 1].event.Sample? then xs[|xs| - 1].taken
    else NewestTaken(t0, xs[..|xs| - 1])
  }

  /** An honest run from begin at t0: time never runs backwards and polls are at most d apart. */
  predicate Paced(t0: nat, xs: seq<Stamped>, d: nat)
    decreases |xs|
  {
    xs == [] ||
    (var init, x := xs[..|xs| - 1], xs[|xs| - 1];
     && Paced(t0, init, d)
     && Honest(x)
     && LastAt(t0, init) <= x.at
     && (IsPoll(x) ==> x.at - LastPoll(t0, init) <= d))
  }

  function CoreAfter(c: Config, t0: nat, xs: seq<Stamped>): Core {
    Run(c, Begun(Wrap(t0)), Events(xs))
  }

  lemma CoreAfterStep(c: Config, t0: nat, xs: seq<Stamped>)
    requires xs != []
    ensures CoreAfter(c, t0, xs) == Step(c, CoreAfter(c, t0, xs[..|xs| - 1]), xs[|xs| - 1].event)
  {
    assert Events(xs)[..|xs| - 1] == Events(xs[..|xs| - 1]);
  }

  // ---- What the core's clock words really stand for ----

  /** The true times behind lastSampleMs_, timerStart_ and rearmMs_. */
  datatype Truth = Truth(heard: nat, overSince: nat, armed: nat)

  /** The call restarts the silence clock. */
  predicate Hears(c: Config, s: Core, e: Event) {
    || (e.Sample? && (s.state == FAULT || !Skipped(s, e.m)))
    || IsAcceptedReset(c, s, e)
  }

  function TruthStep(c: Config, s: Core, tr: Truth, x: Stamped): Truth {
    Truth(
      if Hears(c, s, x.event) then x.at else tr.heard,
      if !s.timerActive && Step(c, s, x.event).timerActive then x.at else tr.overSince,
      if IsAcceptedReset(c, s, x.event) then x.at else tr.armed)
  }

  function TruthAfter(c: Config, t0: nat, xs: seq<Stamped>): Truth
    decreases |xs|
  {
    if xs == [] then Truth(t0, t0, t0)
    else
      var init := xs[..|xs| - 1];
      TruthStep(c, CoreAfter(c, t0, init), TruthAfter(c, t0, init), xs[|xs| - 1])
  }

  predicate ClocksTrue(s: Core, tr: Truth, now: nat) {
    && s.lastSampleMs == Wrap(tr.heard) && tr.heard <= now
    && (s.timerActive ==> s.timerStart == Wrap(tr.overSince) && tr.overSince <= now)
    && s.rearmMs == Wrap(tr.armed) && tr.armed <= now
  }

  lemma ClocksTrueStep(c: Config, s: Core, tr: Truth, x: Stamped, before: nat)
    requires Coherent(c, s) && Honest(x) && before <= x.at && ClocksTrue(s, tr, before)
    ensures ClocksTrue(Step(c, s, x.event), TruthStep(c, s, tr, x), x.at)
  {
    hide Since, Gt, Le, Wrap, Fresh;
  }

  /** In every honest run each clock word is its true time modulo 2^32. */
  lemma {:induction false} ClocksTrueRun(c: Config, t0: nat, xs: seq<Stamped>, d: nat)
    requires Paced(t0, xs, d)
    ensures ClocksTrue(CoreAfter(c, t0, xs), TruthAfter(c, t0, xs), LastAt(t0, xs))
    decreases |xs|
  {
    hide Step, ClocksTrue, TruthStep, Coherent, Honest;
    if xs == [] {
      ClocksTrueAtBegin(c, t0);
    } else {
      var init := xs[..|xs| - 1];
      ClocksTrueRun(c, t0, init, d);
      CoherentRun(c, Wrap(t0), Events(init));
      ClocksTrueStep(c, CoreAfter(c, t0, init), TruthAfter(c, t0, init), xs[|xs| - 1], LastAt(t0, init));
      CoreAfterStep(c, t0, xs);
    }
  }

  lemma ClocksTrueAtBegin(c: Config, t0: nat)
    ensures ClocksTrue(CoreAfter(c, t0, []), TruthAfter(c, t0, []), t0)
  {
  }

  // ---- Bounds in true time ----

  /** An energised core has heard a sample at most maxAge before the last poll. */
  predicate HeardRecently(c: Config, s: Core, tr: Truth, poll: nat) {
    Energised(s.state) ==> tr.heard <= poll <= tr.heard + c.maxMeasurementAgeMs
  }

  /** A running confirmation timer was not yet due at the last sample heard. */
  predicate TimerNotDue(c: Config, s: Core, tr: Truth) {
    s.timerActive ==> tr.overSince <= tr.heard < tr.overSince + c.faultConfirmMs
  }

  lemma HeardStep(c: Config, s: Core, tr: Truth, x: Stamped, poll: nat, d: nat)
    requires Coherent(c, s) && ClocksTrue(s, tr, x.at) && HeardRecently(c, s, tr, poll)
    requires Honest(x) && c.maxMeasurementAgeMs + d < WORD
    requires IsPoll(x) ==> poll <= x.at <= poll + d
    ensures HeardRecently(c, Step(c, s, x.event), TruthStep(c, s, tr, x), if IsPoll(x) then x.at else poll)
  {
    if x.event.Tick? && Energised(s.state) {
      SinceExact(x.at, tr.heard);
    }
  }

  lemma TimerStep(c: Config, s: Core, tr: Truth, x: Stamped, poll: nat, d: nat)
    requires Coherent(c, s) && ClocksTrue(s, tr, x.at) && HeardRecently(c, s, tr, poll) && TimerNotDue(c, s, tr)
    requires Honest(x) && c.faultConfirmMs + c.maxMeasurementAgeMs + d < WORD
    requires x.event.Sample? ==> poll <= x.at <= poll + d
    ensures TimerNotDue(c, Step(c, s, x.event), TruthStep(c, s, tr, x))
  {
    if x.event.Sample? {
      SinceExact(x.at, x.at);
      if s.timerActive {
        SinceExact(x.at, tr.overSince);
      }
    }
    hide Since, Wrap, Gt, Le, Fresh;
  }

  lemma LastPollBound(t0: nat, xs: seq<Stamped>, d: nat)
    requires Paced(t0, xs, d)
    ensures LastPoll(t0, xs) <= LastAt(t0, xs)
    ensures NewestTaken(t0, xs) <= NewestAt(t0, xs) <= LastPoll(t0, xs)
    decreases |xs|
  {
    if xs != [] {
      LastPollBound(t0, xs[..|xs| - 1], d);
    }
  }

  /** The silence test is exact in every honest run whose poll gap plus maxAge stays below a turn of the clock. */
  lemma {:induction false} HeardRun(c: Config, t0: nat, xs: seq<Stamped>, d: nat)
    requires Paced(t0, xs, d)
    requires c.maxMeasurementAgeMs + d < WORD
    ensures HeardRecently(c, CoreAfter(c, t0, xs), TruthAfter(c, t0, xs), LastPoll(t0, xs))
    decreases |xs|
  {
    hide Step, TruthStep, ClocksTrue, Coherent, HeardRecently;
    if xs == [] {
      NothingDueAtBegin(c, t0);
    } else {
      var init, x := xs[..|xs| - 1], xs[|xs| - 1];
      var s, tr := CoreAfter(c, t0, init), TruthAfter(c, t0, init);
      HeardRun(c, t0, init, d);
      ClocksTrueRun(c, t0, init, d);
      ClocksTrueLater(s, tr, LastAt(t0, init), x.at);
      CoherentRun(c, Wrap(t0), Events(init));
      LastPollBound(t0, init, d);
      CoreAfterStep(c, t0, xs);
      HeardStep(c, s, tr, x, LastPoll(t0, init), d);
    }
  }

  /** The confirmation test is exact too, if the confirmation time fits into the turn as well. */
  lemma {:induction false} TimerRun(c: Config, t0: nat, xs: seq<Stamped>, d: nat)
    requires Paced(t0, xs, d)
    requires c.faultConfirmMs + c.maxMeasurementAgeMs + d < WORD
    ensures TimerNotDue(c, CoreAfter(c, t0, xs), TruthAfter(c, t0, xs))
    decreases |xs|
  {
    hide Step, TruthStep, ClocksTrue, Coherent, HeardRecently, TimerNotDue;
    if xs == [] {
      NothingDueAtBegin(c, t0);
    } else {
      var init, x := xs[..|xs| - 1], xs[|xs| - 1];
      var s, tr := CoreAfter(c, t0, init), TruthAfter(c, t0, init);
      TimerRun(c, t0, init, d);
      HeardRun(c, t0, init, d);
      ClocksTrueRun(c, t0, init, d);
      ClocksTrueLater(s, tr, LastAt(t0, init), x.at);
      CoherentRun(c, Wrap(t0), Events(init));
      LastPollBound(t0, init, d);
      CoreAfterStep(c, t0, xs);
      TimerStep(c, s, tr, x, LastPoll(t0, init), d);
    }
  }

  lemma NothingDueAtBegin(c: Config, t0: nat)
    ensures HeardRecently(c, CoreAfter(c, t0, []), TruthAfter(c, t0, []), t0)
    ensures TimerNotDue(c, CoreAfter(c, t0, []), TruthAfter(c, t0, []))
  {
  }

  lemma ClocksTrueLater(s: Core, tr: Truth, now: nat, later: nat)
    requires ClocksTrue(s, tr, now) && now <= later
    ensures ClocksTrue(s, tr, later)
  {
  }
}
