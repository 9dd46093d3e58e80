/**
 The promises of the protection policy in true time: how long an overload may stay energised,
 how old the data behind an energised state may be, and when mains returning is noticed.
 */
module TrueTimeBounds {
  import opened Words
  import opened Floats
  import opened Measurements
  import opened ProtectionModel
  import opened CoreInvariants
  import opened TrueTime

  // ---- Overload exposure ----

  /** The relay is on and the newest sample shows an overload. */
  predicate EnergisedOnOverload(c: Config, s: Core) {
    Energised(s.state) && Excessive(c, s.last)
  }

  lemma TimerRunsOnOverload(c: Config, t0: nat, xs: seq<Stamped>)
    ensures var s := CoreAfter(c, t0, xs); EnergisedOnOverload(c, s) <==> s.timerActive
  {
    CoherentRun(c, Wrap(t0), Events(xs));
  }

  lemma PacedPrefix(t0: nat, xs: seq<Stamped>, d: nat, j: nat)
    requires Paced(t0, xs, d) && j <= |xs|
    ensures Paced(t0, xs[..j], d)
    decreases |xs|
  {
    if j < |xs| {
      assert xs[..j] == xs[..|xs| - 1][..j];
      PacedPrefix(t0, xs[..|xs| - 1], d, j);
    } else {
      assert xs[..j] == xs;
    }
  }

  /** A timer that runs without interruption keeps the start it was first seen with. */
  lemma {:induction false} TimerStartKept(c: Config, t0: nat, xs: seq<Stamped>, d: nat, i: nat, j: nat)
    requires Paced(t0, xs, d) && i < j <= |xs|
    requires forall n :: i < n <= j ==> EnergisedOnOverload(c, CoreAfter(c, t0, xs[..n]))
    ensures TruthAfter(c, t0, xs[..j]).overSince == TruthAfter(c, t0, xs[..i + 1]).overSince
    decreases j
  {
    hide Step, Verdict, EnergisedOnOverload, Hears, Paced;
    if j > i + 1 {
      TimerStartKept(c, t0, xs, d, i, j - 1);
      var now, before := xs[..j], xs[..j - 1];
      assert now[..j - 1] == before;
      TimerRunsOnOverload(c, t0, now);
      TimerRunsOnOverload(c, t0, before);
    }
  }

  /** It started no later than the call after which it was first seen, and at that call if it did not run before. */
  lemma TimerStartIs(c: Config, t0: nat, xs: seq<Stamped>, d: nat, i: nat)
    requires Paced(t0, xs, d) && i < |xs| && EnergisedOnOverload(c, CoreAfter(c, t0, xs[..i + 1]))
    ensures TruthAfter(c, t0, xs[..i + 1]).overSince <= xs[i].at
    ensures !EnergisedOnOverload(c, CoreAfter(c, t0, xs[..i])) ==>
              TruthAfter(c, t0, xs[..i + 1]).overSince == xs[i].at
  {
    var now, before := xs[..i + 1], xs[..i];
    assert now[..i] == before;
    PacedPrefix(t0, xs, d, i + 1);
    ClocksTrueRun(c, t0, now, d);
    CoreAfterStep(c, t0, now);
    hide Step, Verdict, EnergisedOnOverload, Hears, Paced, CoreAfter;
    TimerRunsOnOverload(c, t0, now);
    TimerRunsOnOverload(c, t0, before);
  }

  /**
   With polls at most d apart, no overload stays energised longer than the confirmation time plus
   one measurement age: if after every call from i on the relay was on and the newest sample an
   overload, the last poll came less than that after call i. The hypothesis on d only keeps
   the true ages below one turn of the clock; that the wrapped ages are then exact is proved.
   */
  lemma OverloadExposure(c: Config, t0: nat, xs: seq<Stamped>, d: nat, i: nat, j: nat)
    requires Paced(t0, xs, d) && i < j <= |xs|
    requires c.faultConfirmMs + c.maxMeasurementAgeMs + d < WORD
    requires forall n :: i < n <= j ==> EnergisedOnOverload(c, CoreAfter(c, t0, xs[..n]))
    ensures LastPoll(t0, xs[..j]) < xs[i].at + c.faultConfirmMs + c.maxMeasurementAgeMs
  {
    var now := xs[..j];
    PacedPrefix(t0, xs, d, j);
    HeardRun(c, t0, now, d);
    TimerRun(c, t0, now, d);
    TimerStartKept(c, t0, xs, d, i, j);
    TimerStartIs(c, t0, xs, d, i);
    TimerRunsOnOverload(c, t0, now);
  }

  /**
   While an overload is energised, the timer age a snapshot shows at true time `at`, up to one poll gap after the last
   poll, is the true time since the call that began it: the one before which it was not and since which it was.
   */
  lemma SnapshotTimerAge(c: Config, t0: nat, xs: seq<Stamped>, d: nat, i: nat, at: nat)
    requires Paced(t0, xs, d) && i < |xs|
    requires c.faultConfirmMs + c.maxMeasurementAgeMs + d < WORD
    requires !EnergisedOnOverload(c, CoreAfter(c, t0, xs[..i]))
    requires forall n :: i < n <= |xs| ==> EnergisedOnOverload(c, CoreAfter(c, t0, xs[..n]))
    requires LastAt(t0, xs) <= at <= LastPoll(t0, xs) + d
    ensures var sn := SnapshotOf(CoreAfter(c, t0, xs), Wrap(at));
            sn.faultTimerActive && sn.faultTimerAgeMs == at - xs[i].at
  {
    var j := |xs|;
    assert xs[..j] == xs;
    HeardRun(c, t0, xs, d);
    TimerRun(c, t0, xs, d);
    TimerStartKept(c, t0, xs, d, i, j);
    TimerStartIs(c, t0, xs, d, i);
    TimerRunsOnOverload(c, t0, xs);
    ClocksTrueRun(c, t0, xs, d);
    SinceExact(at, xs[i].at);
    hide CoreAfter, TruthAfter, LastPoll, LastAt, Paced, Wrap, Since;
  }

  // ---- Data age ----

  /** No sample spent a whole turn of the clock on its way to the core. */
  predicate Prompt(xs: seq<Stamped>) {
    forall i :: 0 <= i < |xs| && xs[i].event.Sample? ==> xs[i].at - xs[i].taken < WORD
  }

  /** An energised core was last heard when its newest sample was delivered, fresh by true time. */
  predicate RestsOnNewest(c: Config, s: Core, tr: Truth, newestAt: nat, newestTaken: nat) {
    Energised(s.state) ==> tr.heard == newestAt && newestAt - newestTaken <= c.maxMeasurementAgeMs
  }

  lemma RestsOnNewestStep(c: Config, s: Core, tr: Truth, x: Stamped, newestAt: nat, newestTaken: nat)
    requires Coherent(c, s) && Honest(x) && RestsOnNewest(c, s, tr, newestAt, newestTaken)
    requires x.event.Sample? ==> x.at - x.taken < WORD
    ensures var t := Step(c, s, x.event);
            if x.event.Sample? then RestsOnNewest(c, t, TruthStep(c, s, tr, x), x.at, x.taken)
            else RestsOnNewest(c, t, TruthStep(c, s, tr, x), newestAt, newestTaken)
  {
    SinceExact(x.at, x.taken);
    hide Since, Wrap, Gt, Le;
  }

  lemma {:induction false} RestsOnNewestRun(c: Config, t0: nat, xs: seq<Stamped>, d: nat)
    requires Paced(t0, xs, d) && Prompt(xs)
    ensures RestsOnNewest(c, CoreAfter(c, t0, xs), TruthAfter(c, t0, xs), NewestAt(t0, xs), NewestTaken(t0, xs))
    decreases |xs|
  {
    hide Step, TruthStep, Coherent, RestsOnNewest;
    if xs == [] {
      assert RestsOnNewest(c, CoreAfter(c, t0, []), Truth(t0, t0, t0), t0, t0) by { NothingEnergisedAtBegin(c, t0); }
    } else {
      var init, x := xs[..|xs| - 1], xs[|xs| - 1];
      RestsOnNewestRun(c, t0, init, d);
      CoherentRun(c, Wrap(t0), Events(init));
      RestsOnNewestStep(c, CoreAfter(c, t0, init), TruthAfter(c, t0, init), x,
                        NewestAt(t0, init), NewestTaken(t0, init));
      CoreAfterStep(c, t0, xs);
    }
  }

  lemma NothingEnergisedAtBegin(c: Config, t0: nat)
    ensures RestsOnNewest(c, CoreAfter(c, t0, []), Truth(t0, t0, t0), t0, t0)
  {
  }

  /**
   Whenever the relay state is energised, the sample it rests on was taken, in true time, at most
   two measurement ages before the last poll: one age on its way in, one while nothing newer came.
   */
  lemma DataAge(c: Config, t0: nat, xs: seq<Stamped>, d: nat)
    requires Paced(t0, xs, d) && Prompt(xs)
    requires c.maxMeasurementAgeMs + d < WORD
    ensures Energised(CoreAfter(c, t0, xs).state) ==>
              NewestTaken(t0, xs) <= LastPoll(t0, xs) <= NewestTaken(t0, xs) + 2 * c.maxMeasurementAgeMs
  {
    HeardRun(c, t0, xs, d);
    RestsOnNewestRun(c, t0, xs, d);
    LastPollBound(t0, xs, d);
  }

  lemma {:induction false} NewestTimestamp(c: Config, t0: nat, xs: seq<Stamped>, d: nat)
    requires Paced(t0, xs, d)
    ensures var s := CoreAfter(c, t0, xs); s.haveMeasurement ==> s.last.timestamp == Wrap(NewestTaken(t0, xs))
    decreases |xs|
  {
    hide Step, Wrap;
    if xs != [] {
      var init := xs[..|xs| - 1];
      NewestTimestamp(c, t0, init, d);
      CoreAfterStep(c, t0, xs);
      MemoryStep(c, CoreAfter(c, t0, init), xs[|xs| - 1].event);
    }
  }

  /**
   A reset requested at true time `at` is accepted if and only if a fault is latched, there was a sample, and the newest
   one is valid, no overload, and of an age that is modulo 2^32 at most one measurement age; it is refused as stale if
   and only if that age is larger. While a fault is
   latched nothing bounds that age, so only below 2^32 ms is it the true one.
   */
  lemma ResetInterlock(c: Config, t0: nat, xs: seq<Stamped>, d: nat, at: nat)
    requires Paced(t0, xs, d) && LastAt(t0, xs) <= at
    ensures var s := CoreAfter(c, t0, xs);
            var age := at - NewestTaken(t0, xs);
            && (Verdict(c, s, Wrap(at)) == ACCEPTED <==>
                  && s.state == FAULT && s.haveMeasurement
                  && age % WORD <= c.maxMeasurementAgeMs && s.last.valid && !Excessive(c, s.last))
            && (Verdict(c, s, Wrap(at)) == REJECTED_STALE_MEASUREMENT <==>
                  s.state == FAULT && s.haveMeasurement && age % WORD > c.maxMeasurementAgeMs)
            && (Verdict(c, s, Wrap(at)) == ACCEPTED && age < WORD ==> 0 <= age <= c.maxMeasurementAgeMs)
  {
    CoherentRun(c, Wrap(t0), Events(xs));
    NewestTimestamp(c, t0, xs, d);
    LastPollBound(t0, xs, d);
    SinceExact(at, NewestTaken(t0, xs));
  }

  // ---- A reset on data a full turn of the clock old ----

  /** A sample at true time 0, then a tick every second, n times: the sensor has died. */
  function DeadSensor(m: Measurement, n: nat): (xs: seq<Stamped>)
    ensures |xs| == n + 1
  {
    if n == 0 then [Stamped(0, 0, Sample(m, 0))]
    else DeadSensor(m, n - 1) + [Stamped(1000 * n, 0, Tick(Wrap(1000 * n)))]
  }

  /** Still energised or already latched, after n seconds without a sample. */
  predicate Dying(s: Core, m: Measurement, n: nat) {
    && s.haveMeasurement && s.last == m
    && (s.fault.active <==> s.state == FAULT)
    && (s.state == FAULT || (n <= 3 && s.lastSampleMs == 0))
  }

  lemma DyingStep(s: Core, m: Measurement, n: nat)
    requires n > 0 && Dying(s, m, n - 1)
    ensures Dying(Step(EXAMPLE_CONFIG, s, Tick(Wrap(1000 * n))), m, n)
  {
  }

  lemma DyingAtFirst(m: Measurement)
    requires m.timestamp == 0 && m.valid && !NoMains(EXAMPLE_CONFIG, m) && !Excessive(EXAMPLE_CONFIG, m)
    ensures Paced(0, DeadSensor(m, 0), 1000) && LastAt(0, DeadSensor(m, 0)) == LastPoll(0, DeadSensor(m, 0)) == 0
    ensures NewestTaken(0, DeadSensor(m, 0)) == 0
    ensures Dying(CoreAfter(EXAMPLE_CONFIG, 0, DeadSensor(m, 0)), m, 0)
  {
    var x := Stamped(0, 0, Sample(m, 0));
    assert [] + [x] == DeadSensor(m, 0);
    CoreAfterAppend(EXAMPLE_CONFIG, 0, [], x);
    PacedAppend(0, [], x, 1000);
    hide Le, Gt;
  }

  lemma {:induction false} DyingAfter(m: Measurement, n: nat)
    requires m.timestamp == 0 && m.valid && !NoMains(EXAMPLE_CONFIG, m) && !Excessive(EXAMPLE_CONFIG, m)
    ensures var xs := DeadSensor(m, n);
            && Paced(0, xs, 1000) && LastAt(0, xs) == LastPoll(0, xs) == 1000 * n && NewestTaken(0, xs) == 0
            && Dying(CoreAfter(EXAMPLE_CONFIG, 0, xs), m, n)
  {
    if n == 0 {
      DyingAtFirst(m);
    } else {
      var before, x := DeadSensor(m, n - 1), Stamped(1000 * n, 0, Tick(Wrap(1000 * n)));
      assert DeadSensor(m, n) == before + [x];
      hide Dying, Paced, CoreAfter, LastAt, LastPoll, DeadSensor, Step, NoMains, Excessive;
      DyingAfter(m, n - 1);
      PacedAppend(0, before, x, 1000);
      CoreAfterAppend(EXAMPLE_CONFIG, 0, before, x);
      DyingStep(CoreAfter(EXAMPLE_CONFIG, 0, before), m, n);
      assert (before + [x])[..|before|] == before;
    }
  }

  /**
   The failing run behind ResetInterlock, with the shipped constants: one healthy sample, then nothing but a tick every
   second. SENSOR_STALE latches after 3 s; a reset in the 3 s after the clock's next turn is accepted
   on that sample, more than 49 days old.
   */
  lemma StaleResetAccepted(m: Measurement, n: nat, at: nat)
    requires m.timestamp == 0 && m.valid && !NoMains(EXAMPLE_CONFIG, m) && !Excessive(EXAMPLE_CONFIG, m)
    requires 1000 * n <= at < 1000 * n + 1000 && WORD <= at <= WORD + EXAMPLE_CONFIG.maxMeasurementAgeMs
    ensures var xs := DeadSensor(m, n);
            var s := CoreAfter(EXAMPLE_CONFIG, 0, xs);
            && Paced(0, xs, 1000) && LastAt(0, xs) <= at && at - NewestTaken(0, xs) >= WORD
            && s.state == FAULT && Verdict(EXAMPLE_CONFIG, s, Wrap(at)) == ACCEPTED
  {
    var xs := DeadSensor(m, n);
    DyingAfter(m, n);
    assert at - 0 == at;
    hide DeadSensor, Paced, CoreAfter, NoMains, LastAt, LastPoll, NewestTaken, Verdict;
    ResetInterlock(EXAMPLE_CONFIG, 0, xs, 1000, at);
  }

  // ---- Mains return ----

  /** A sample that shows mains present, judged by true time. */
  predicate GoodArrival(c: Config, x: Stamped) {
    && Honest(x) && x.event.Sample?
    && x.at - x.taken <= c.maxMeasurementAgeMs
    && x.event.m.valid && !NoMains(c, x.event.m)
  }

  /** What the policy asks of the first good sample in INIT. */
  function PolicyState(c: Config, m: Measurement): SystemState {
    if Excessive(c, m) then FAULT else if Gt(m.power, c.warningPowerW) then WARNING else NORMAL
  }

  /**
   In INIT, a good sample taken after the last re-arm point (begin or accepted reset, at true time
   `armed`) gets the state the policy asks for if and only if (taken - armed) mod 2^32 < 2^31.
   Otherwise the core ignores it and stays in INIT with the relay off.
   */
  lemma MainsReturn(c: Config, t0: nat, xs: seq<Stamped>, d: nat, x: Stamped)
    requires Paced(t0, xs, d) && CoreAfter(c, t0, xs).state == INIT
    requires GoodArrival(c, x) && TruthAfter(c, t0, xs).armed <= x.taken
    ensures var armed := TruthAfter(c, t0, xs).armed;
            var t := CoreAfter(c, t0, xs + [x]);
            && (t.state == PolicyState(c, x.event.m) <==> (x.taken - armed) % WORD < HALF)
            && (t.state == INIT <==> (x.taken - armed) % WORD >= HALF)
            && (t.state == FAULT ==> t.fault.activeFault == OVERPOWER)
  {
    var s := CoreAfter(c, t0, xs);
    CoreAfterAppend(c, t0, xs, x);
    ClocksTrueRun(c, t0, xs, d);
    CoherentRun(c, Wrap(t0), Events(xs));
    SinceExact(x.at, x.taken);
    SinceExact(x.taken, TruthAfter(c, t0, xs).armed);
    MainsReturnStep(c, s, x.event.m, x.event.now);
  }

  lemma MainsReturnStep(c: Config, s: Core, m: Measurement, now: Word)
    requires Coherent(c, s) && s.state == INIT
    requires m.valid && !NoMains(c, m) && Fresh(c, m, now)
    ensures var t := Updated(c, s, m, now);
            t.state == if Precedes(m.timestamp, s.rearmMs) then INIT else PolicyState(c, m)
    ensures Updated(c, s, m, now).state == FAULT ==> Updated(c, s, m, now).fault.activeFault == OVERPOWER
  {
  }

  /** Within 2^31 ms of the last re-arm point the policy is always met. */
  lemma MainsReturnWithinHorizon(c: Config, t0: nat, xs: seq<Stamped>, d: nat, x: Stamped)
    requires Paced(t0, xs, d) && CoreAfter(c, t0, xs).state == INIT
    requires GoodArrival(c, x)
    requires TruthAfter(c, t0, xs).armed <= x.taken && x.at < TruthAfter(c, t0, xs).armed + HALF
    ensures CoreAfter(c, t0, xs + [x]).state == PolicyState(c, x.event.m)
  {
    MainsReturn(c, t0, xs, d, x);
  }

  // ---- The horizon is tight ----

  /** A validated sample taken on arrival at true time t, showing no mains. */
  function OutageSample(t: nat): Stamped {
    var m := ZERO_MEASUREMENT.(valid := true, status := OK, timestamp := Wrap(t));
    Stamped(t, t, Sample(m, Wrap(t)))
  }

  /** One such sample a second, n times. */
  function Outage(n: nat): (xs: seq<Stamped>)
    ensures |xs| == n
  {
    if n == 0 then [] else Outage(n - 1) + [OutageSample(1000 * n)]
  }

  /** What the core looks like t ms into an outage that began with begin at 0. */
  predicate Waiting(s: Core, t: Word) {
    && s.state == INIT && s.awaitingFirstSample && !s.fault.active
    && s.lastSampleMs == t && s.rearmMs == 0
  }

  lemma WaitingStep(s: Core, before: Word, t: nat)
    requires Waiting(s, before) && t < HALF
    ensures Waiting(Step(EXAMPLE_CONFIG, s, OutageSample(t).event), t)
  {
  }

  lemma WaitingAtBegin()
    ensures Waiting(CoreAfter(EXAMPLE_CONFIG, 0, []), 0)
  {
  }

  lemma OutageSampleArrives(t: nat)
    ensures var x := OutageSample(t); Honest(x) && IsPoll(x) && x.at == t
  {
  }

  lemma PacedAppend(t0: nat, xs: seq<Stamped>, x: Stamped, d: nat)
    requires Paced(t0, xs, d) && Honest(x) && IsPoll(x)
    requires LastAt(t0, xs) <= x.at <= LastPoll(t0, xs) + d
    ensures Paced(t0, xs + [x], d) && LastAt(t0, xs + [x]) == LastPoll(t0, xs + [x]) == x.at
  {
    assert (xs + [x])[..|xs|] == xs;
  }

  lemma CoreAfterAppend(c: Config, t0: nat, xs: seq<Stamped>, x: Stamped)
    ensures CoreAfter(c, t0, xs + [x]) == Step(c, CoreAfter(c, t0, xs), x.event)
  {
    assert (xs + [x])[..|xs|] == xs;
    CoreAfterStep(c, t0, xs + [x]);
  }

  /** Through a mains outage of any length below the horizon the core waits in INIT. */
  lemma {:induction false} OutageWaits(n: nat)
    requires 1000 * n < HALF
    ensures Paced(0, Outage(n), 1000) && LastAt(0, Outage(n)) == LastPoll(0, Outage(n)) == 1000 * n
    ensures Waiting(CoreAfter(EXAMPLE_CONFIG, 0, Outage(n)), 1000 * n)
  {
    if n == 0 {
      WaitingAtBegin();
    } else {
      var before, x := Outage(n - 1), OutageSample(1000 * n);
      assert Outage(n) == before + [x];
      OutageSampleArrives(1000 * n);
      hide Step, Waiting, Paced, CoreAfter, LastAt, LastPoll, OutageSample, Honest, IsPoll, Outage;
      OutageWaits(n - 1);
      PacedAppend(0, before, x, 1000);
      CoreAfterAppend(EXAMPLE_CONFIG, 0, before, x);
      WaitingStep(CoreAfter(EXAMPLE_CONFIG, 0, before), 1000 * (n - 1), 1000 * n);
    }
  }

  /** A healthy load of 500 W at 230 V, measured at true time t and evaluated on arrival. */
  function HealthyReturn(t: nat): Stamped {
    Stamped(t, t, Sample(BuildMeasurement(SimulatedReading(5000), PZEM, Wrap(t), DEFAULT_LIMITS), Wrap(t)))
  }

  /** The outage, then k healthy samples, still one a second. */
  function OutageEnds(n: nat, k: nat): (xs: seq<Stamped>)
    ensures |xs| == n + k
  {
    if k == 0 then Outage(n) else OutageEnds(n, k - 1) + [HealthyReturn(1000 * (n + k))]
  }

  lemma HealthyReturnArrives(t: nat)
    ensures var x := HealthyReturn(t);
            && GoodArrival(EXAMPLE_CONFIG, x) && PolicyState(EXAMPLE_CONFIG, x.event.m) == WARNING
            && IsPoll(x) && x.at == t && x.event.m.timestamp == Wrap(t)
  {
    var raw := SimulatedReading(5000);
    BuildMeasurementMeaning(raw, PZEM, Wrap(t));
    assert raw.power.v <= 1.1 * (raw.voltage.v * raw.current.v) + 2.0;
    hide BuildMeasurement, Wrap;
  }

  /** An ignored sample leaves the core as it was, but for the sample remembered. */
  lemma IgnoredStep(s: Core, last: Word, x: Stamped)
    requires Waiting(s, last) && x.event.Sample? && Precedes(x.event.m.timestamp, 0)
    ensures Waiting(Step(EXAMPLE_CONFIG, s, x.event), last)
  {
  }

  lemma {:induction false} ReturnsIgnored(n: nat, k: nat)
    requires 1000 * n < HALF <= 1000 * n + 1000 && k <= 3
    ensures var xs := OutageEnds(n, k);
            && Paced(0, xs, 1000) && LastAt(0, xs) == LastPoll(0, xs) == 1000 * (n + k)
            && Waiting(CoreAfter(EXAMPLE_CONFIG, 0, xs), 1000 * n)
  {
    hide Step, Waiting, Paced, CoreAfter, LastAt, LastPoll, Outage, HealthyReturn, GoodArrival, PolicyState, IsPoll;
    if k == 0 {
      OutageWaits(n);
    } else {
      var before, x := OutageEnds(n, k - 1), HealthyReturn(1000 * (n + k));
      ReturnsIgnored(n, k - 1);
      HealthyReturnArrives(1000 * (n + k));
      assert Honest(x) && x.event.Sample? && x.event.m.timestamp == 1000 * (n + k) by { ArrivesHonest(1000 * (n + k)); }
      PacedAppend(0, before, x, 1000);
      CoreAfterAppend(EXAMPLE_CONFIG, 0, before, x);
      IgnoredStep(CoreAfter(EXAMPLE_CONFIG, 0, before), 1000 * n, x);
    }
  }

  lemma ArrivesHonest(t: nat)
    requires t < WORD
    ensures var x := HealthyReturn(t); Honest(x) && x.event.Sample? && x.event.m.timestamp == t
  {
    HealthyReturnArrives(t);
    hide BuildMeasurement;
  }

  /** Still in INIT, and in FAULT for SENSOR_STALE after a tick at true time `now`. */
  predicate LatchesStale(s: Core, now: nat) {
    var t := Step(EXAMPLE_CONFIG, s, Tick(Wrap(now)));
    s.state == INIT && t.state == FAULT && t.fault.activeFault == SENSOR_STALE
  }

  lemma WaitingTooLong(s: Core, last: Word, now: nat)
    requires Waiting(s, last) && last + 3000 < now < WORD
    ensures LatchesStale(s, now)
  {
  }

  /** x is the healthy sample of true time t, good by true time, and the policy asks for WARNING. */
  predicate HealthyAt(x: Stamped, t: nat) {
    x == HealthyReturn(t) && GoodArrival(EXAMPLE_CONFIG, x) && PolicyState(EXAMPLE_CONFIG, x.event.m) == WARNING
  }

  /** From the n-th on, the calls are such samples, one a second. */
  predicate HealthyFrom(xs: seq<Stamped>, n: nat) {
    forall i :: n <= i < |xs| ==> HealthyAt(xs[i], 1000 * (i + 1))
  }

  lemma {:induction false} ReturnsAreHealthy(n: nat, k: nat)
    ensures HealthyFrom(OutageEnds(n, k), n)
  {
    hide HealthyReturn, GoodArrival, PolicyState, Outage;
    if k > 0 {
      ReturnsAreHealthy(n, k - 1);
      HealthyReturnArrives(1000 * (n + k));
    }
  }

  /**
   A run with the shipped constants that shows 2^31 ms is the limit: mains is away for n = 2 147 483 seconds, sampled
   once a second, and then back with a healthy 500 W, sampled once a second as before. The core ignores each of
   those samples and latches SENSOR_STALE at the next tick, one millisecond after the third.
   */
  lemma HorizonIsTight(n: nat)
    requires 1000 * n < HALF <= 1000 * n + 1000
    ensures Paced(0, OutageEnds(n, 3), 1000) && LastAt(0, OutageEnds(n, 3)) == 1000 * (n + 3)
    ensures HealthyFrom(OutageEnds(n, 3), n)
    ensures LatchesStale(CoreAfter(EXAMPLE_CONFIG, 0, OutageEnds(n, 3)), 1000 * (n + 3) + 1)
  {
    assert 1000 * n + 4000 < WORD == 0x1_0000_0000;
    hide *;
    ReturnsIgnored(n, 3);
    ReturnsAreHealthy(n, 3);
    WaitingTooLong(CoreAfter(EXAMPLE_CONFIG, 0, OutageEnds(n, 3)), 1000 * n, 1000 * (n + 3) + 1);
  }
}
