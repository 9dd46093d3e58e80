/**
 The simulation build exercises the whole policy: whatever ticks, acknowledgements, resets and
 internal faults are mixed in, the 600 W third of every completed 15 s cycle ends in FAULT.
 */
module SimulationCycle {
  import opened Words
  import opened Measurements
  import opened ProtectionModel
  import opened CoreInvariants
  import opened TrueTime
  import opened TrueTimeBounds

  const C := EXAMPLE_CONFIG

  /**
   A run of the simulation build from begin at t0: each sample is the profile's, taken and
   evaluated at the same time, and at every call the newest sample is at most 1 s old.
   */
  predicate Simulated(t0: nat, xs: seq<Stamped>)
    decreases |xs|
  {
    xs == [] ||
    (var init, x := xs[..|xs| - 1], xs[|xs| - 1];
     && Simulated(t0, init)
     && Honest(x)
     && LastAt(t0, init) <= x.at <= NewestAt(t0, init) + 1000
     && (x.event.Sample? ==> x.taken == x.at && x.event.m == SimulationSample(Wrap(x.at))))
  }

  /** A 15 s cycle of the profile that starts at true time b and is not cut short by the clock's wrap. */
  predicate Cycle(b: nat) {
    Wrap(b) % 15000 == 0 && Wrap(b) + 14999 < WORD
  }

  lemma SimulatedIsPaced(t0: nat, xs: seq<Stamped>)
    requires Simulated(t0, xs)
    ensures Paced(t0, xs, 1000) && Prompt(xs)
    decreases |xs|
  {
    if xs != [] {
      var init := xs[..|xs| - 1];
      SimulatedIsPaced(t0, init);
      LastPollBound(t0, init, 1000);
      forall i | 0 <= i < |xs| && xs[i].event.Sample?
        ensures xs[i].at - xs[i].taken < WORD
      {
        if i < |init| {
          assert xs[i] == init[i];
        }
      }
    }
  }

  lemma CyclePhase(b: nat, t: nat)
    requires Cycle(b) && b <= t <= b + 14999
    ensures Wrap(t) % 15000 == t - b
  {
    var k := b / WORD;
    assert b == k * WORD + Wrap(b) && t == k * WORD + (Wrap(b) + (t - b));
    assert Wrap(t) == Wrap(b) + (t - b);
  }

  /** Inside a cycle the profile's phase is the true time since its start. */
  lemma PhaseInCycle(b: nat, t: nat)
    requires Cycle(b) && b <= t <= b + 14999
    ensures Excessive(C, SimulationSample(Wrap(t))) <==> t >= b + 10000
  {
    CyclePhase(b, t);
    SimulationProfile(Wrap(t));
    hide SimulationSample, Cycle, Wrap;
  }

  /**
   What the mix of calls cannot disturb: the newest sample is the profile's; in INIT the re-arm point
   is no older than it; and once this cycle's overload was sampled, the fault is latched or its timer runs.
   */
  predicate Tracks(s: Core, tr: Truth, newest: nat, t0: nat, b: nat) {
    && (s.haveMeasurement ==> s.last == SimulationSample(Wrap(newest)))
    && (!s.haveMeasurement ==> newest == t0)
    && (s.state == INIT ==> newest <= tr.armed)
    && (newest >= b + 10000 ==> s.haveMeasurement && (s.state == FAULT || (s.timerActive && tr.overSince < b + 11000)))
  }

  lemma TracksSample(s: Core, tr: Truth, x: Stamped, newest: nat, t0: nat, b: nat)
    requires Coherent(C, s) && ClocksTrue(s, tr, x.at) && Tracks(s, tr, newest, t0, b)
    requires Honest(x) && x.event.Sample? && x.event.m == SimulationSample(Wrap(x.at))
    requires newest <= x.at <= newest + 1000 && x.at <= b + 14999 && Cycle(b)
    ensures Tracks(Step(C, s, x.event), TruthStep(C, s, tr, x), x.at, t0, b)
  {
    SimulationProfile(Wrap(x.at));
    SinceExact(x.at, x.at);
    if s.state == INIT {
      PrecedesExact(x.at, tr.armed);
    }
    if x.at >= b + 10000 {
      PhaseInCycle(b, x.at);
      if newest < b + 10000 {
        PhaseInCycle(b, newest);
      }
    }
    hide SimulationSample, Wrap, Since, Precedes, Cycle;
  }

  lemma TracksOther(s: Core, tr: Truth, x: Stamped, newest: nat, t0: nat, b: nat)
    requires Coherent(C, s) && Tracks(s, tr, newest, t0, b)
    requires Honest(x) && !x.event.Sample?
    requires newest <= x.at <= b + 14999 && Cycle(b)
    ensures Tracks(Step(C, s, x.event), TruthStep(C, s, tr, x), newest, t0, b)
  {
    if newest >= b + 10000 {
      PhaseInCycle(b, newest);
    }
    hide SimulationSample, Wrap, Cycle, Since;
  }

  lemma {:induction false} TracksRun(t0: nat, xs: seq<Stamped>, b: nat)
    requires Simulated(t0, xs) && Cycle(b) && t0 < b + 10000 && LastAt(t0, xs) <= b + 14999
    ensures Tracks(CoreAfter(C, t0, xs), TruthAfter(C, t0, xs), NewestAt(t0, xs), t0, b)
    decreases |xs|
  {
    hide Step, TruthStep, ClocksTrue, Coherent, Tracks, Cycle, Honest;
    if xs == [] {
      TracksAtBegin(t0, b);
    } else {
      var init, x := xs[..|xs| - 1], xs[|xs| - 1];
      var s, tr := CoreAfter(C, t0, init), TruthAfter(C, t0, init);
      TracksRun(t0, init, b);
      SimulatedIsPaced(t0, init);
      LastPollBound(t0, init, 1000);
      CoherentRun(C, Wrap(t0), Events(init));
      CoreAfterStep(C, t0, xs);
      if x.event.Sample? {
        ClocksTrueRun(C, t0, init, 1000);
        ClocksTrueLater(s, tr, LastAt(t0, init), x.at);
        TracksSample(s, tr, x, NewestAt(t0, init), t0, b);
      } else {
        TracksOther(s, tr, x, NewestAt(t0, init), t0, b);
      }
    }
  }

  lemma TracksAtBegin(t0: nat, b: nat)
    requires t0 < b + 10000
    ensures Tracks(CoreAfter(C, t0, []), TruthAfter(C, t0, []), t0, t0, b)
  {
  }

  /**
   For every simulated run and every cycle that starts at b, the core is in FAULT at every moment
   from phase 13999 to the cycle's end, as long as the newest sample is still at most 1 s old.
   The run may begin anywhere before the overload phase and cross the clock's wrap any number of times.
   */
  lemma EveryCycleFaults(t0: nat, xs: seq<Stamped>, b: nat, t: nat)
    requires Simulated(t0, xs) && Cycle(b) && t0 < b + 10000
    requires b + 13999 <= t <= b + 14999
    requires LastAt(t0, xs) <= t <= NewestAt(t0, xs) + 1000
    ensures CoreAfter(C, t0, xs).state == FAULT
  {
    TracksRun(t0, xs, b);
    SimulatedIsPaced(t0, xs);
    HeardRun(C, t0, xs, 1000);
    TimerRun(C, t0, xs, 1000);
    RestsOnNewestRun(C, t0, xs, 1000);
    CoherentRun(C, Wrap(t0), Events(xs));
  }

  /** The clock's wrap cuts a cycle short: the phase gets to 2295 and then starts again at 0. */
  lemma WrapRestartsThePhase(t: nat)
    requires Wrap(t) == WORD - 1
    ensures Wrap(t) % 15000 == 2295 && Wrap(t + 1) == 0 && Cycle(t + 1)
  {
  }
}
