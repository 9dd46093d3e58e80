/**
 Theorems about pairs of runs: shifting the clock changes nothing an observer sees, and
 deleting acknowledgements and refused resets changes nothing that matters.
 */
module TwoRuns {
  import opened Words
  import opened Floats
  import opened Measurements
  import opened ProtectionModel

  // ---- Clock translation ----

  function ShiftSample(m: Measurement, k: int): Measurement {
    m.(timestamp := Shift(m.timestamp, k))
  }

  function ShiftEvent(e: Event, k: int): Event {
    match e
    case Sample(m, now) => Sample(ShiftSample(m, k), Shift(now, k))
    case Tick(now) => Tick(Shift(now, k))
    case Reset(now) => Reset(Shift(now, k))
    case Ack => Ack
    case Internal(now) => Internal(Shift(now, k))
  }

  function ShiftAll(es: seq<Event>, k: int): (r: seq<Event>)
    ensures |r| == |es|
    ensures forall i :: 0 <= i < |es| ==> r[i] == ShiftEvent(es[i], k)
  {
    seq(|es|, i requires 0 <= i < |es| => ShiftEvent(es[i], k))
  }

  /**
   t is s with the clock moved by k. A word that is not live is not constrained: the timer start
   while the timer is off, the fault time while none is latched, the newest sample before there is one.
   */
  ghost predicate Shifted(s: Core, t: Core, k: int) {
    && t.state == s.state
    && t.timerActive == s.timerActive
    && (s.timerActive ==> t.timerStart == Shift(s.timerStart, k))
    && t.haveMeasurement == s.haveMeasurement
    && (s.haveMeasurement ==> t.last == ShiftSample(s.last, k))
    && t.lastSampleMs == Shift(s.lastSampleMs, k)
    && t.awaitingFirstSample == s.awaitingFirstSample
    && t.rearmMs == Shift(s.rearmMs, k)
    && t.lastReset == s.lastReset
    && t.fault.activeFault == s.fault.activeFault
    && t.fault.lastFault == s.fault.lastFault
    && t.fault.totalFaults == s.fault.totalFaults
    && t.fault.active == s.fault.active
    && t.fault.acknowledged == s.fault.acknowledged
    && (s.fault.active ==> t.fault.activeSince == Shift(s.fault.activeSince, k))
    && (s.fault.lastFault != NO_FAULT ==> t.fault.lastFaultTime == Shift(s.fault.lastFaultTime, k))
  }

  lemma ShiftedRaise(c: Core, d: Core, code: FaultCode, now: Word, k: int)
    requires Shifted(c, d, k)
    ensures Shifted(Raise(c, code, now), Raise(d, code, Shift(now, k)), k)
  {
  }

  lemma ShiftedFresh(c: Config, m: Measurement, now: Word, k: int)
    ensures Fresh(c, ShiftSample(m, k), Shift(now, k)) == Fresh(c, m, now)
  {
    SinceShift(now, m.timestamp, k);
  }

  lemma ShiftedEvaluate(c: Config, s: Core, t: Core, m: Measurement, now: Word, k: int)
    requires Shifted(s, t, k)
    ensures Shifted(Evaluate(c, s, m, now), Evaluate(c, t, ShiftSample(m, k), Shift(now, k)), k)
  {
    ShiftedFresh(c, m, now, k);
    SinceShift(now, s.timerStart, k);
    SinceShift(now, now, k);
    hide Since, Shift, Raise, Fresh, Gt, Le;
    if !Fresh(c, m, now) {
      ShiftedRaise(s, t, SENSOR_STALE, now, k);
    } else if !m.valid {
      ShiftedRaise(s, t, SENSOR_INVALID, now, k);
    } else if !NoMains(c, m) && Excessive(c, m) {
      ShiftedRaise(s, t, OVERPOWER, now, k);
      ShiftedRaise(s.(timerActive := true, timerStart := now),
                   t.(timerActive := true, timerStart := Shift(now, k)), OVERPOWER, now, k);
    }
  }

  lemma ShiftedUpdate(c: Config, s: Core, t: Core, m: Measurement, now: Word, k: int)
    requires Shifted(s, t, k)
    ensures Shifted(Updated(c, s, m, now), Updated(c, t, ShiftSample(m, k), Shift(now, k)), k)
  {
    SinceShift(m.timestamp, s.rearmMs, k);
    hide Since, Shift, Evaluate;
    ShiftedEvaluate(c, s.(last := m, haveMeasurement := true, lastSampleMs := now),
                    t.(last := ShiftSample(m, k), haveMeasurement := true, lastSampleMs := Shift(now, k)), m, now, k);
  }

  lemma ShiftedTick(c: Config, s: Core, t: Core, now: Word, k: int)
    requires Shifted(s, t, k)
    ensures Shifted(Ticked(c, s, now), Ticked(c, t, Shift(now, k)), k)
  {
    SinceShift(now, s.lastSampleMs, k);
    hide Since, Shift, Raise;
    ShiftedRaise(s, t, SENSOR_STALE, now, k);
  }

  lemma ShiftedReset(c: Config, s: Core, t: Core, now: Word, k: int)
    requires Shifted(s, t, k)
    ensures Verdict(c, t, Shift(now, k)) == Verdict(c, s, now)
    ensures Shifted(ResetRequested(c, s, now), ResetRequested(c, t, Shift(now, k)), k)
  {
    ShiftedFresh(c, s.last, now, k);
    hide Since, Shift, Fresh, Gt;
  }

  lemma ShiftedStep(c: Config, s: Core, t: Core, e: Event, k: int)
    requires Shifted(s, t, k)
    ensures Shifted(Step(c, s, e), Step(c, t, ShiftEvent(e, k)), k)
    ensures OutcomeOf(c, t, ShiftEvent(e, k)) == OutcomeOf(c, s, e)
  {
    hide Shift, Updated, Ticked, ResetRequested, Verdict, Raise;
    match e
    case Sample(m, now) => ShiftedUpdate(c, s, t, m, now, k);
    case Tick(now) => ShiftedTick(c, s, t, now, k);
    case Reset(now) => ShiftedReset(c, s, t, now, k);
    case Ack =>
    case Internal(now) => ShiftedRaise(s, t, PROTECTION_INTERNAL, now, k);
  }

  /**
   Adding any constant to the clock, at every call and in every sample's timestamp, changes no
   returned result, state, fault code, reset verdict or timer age of any run: nothing depends
   on where in its 2^32 ms turn the clock stands.
   */
  lemma {:induction false} ClockTranslation(c: Config, t0: Word, es: seq<Event>, k: int)
    ensures var s := Run(c, Begun(t0), es);
            var t := Run(c, Begun(Shift(t0, k)), ShiftAll(es, k));
            && Shifted(s, t, k)
            && Outcomes(c, Begun(Shift(t0, k)), ShiftAll(es, k)) == Outcomes(c, Begun(t0), es)
            && forall now: Word ::
                 SnapshotOf(t, Shift(now, k)).faultTimerAgeMs == SnapshotOf(s, now).faultTimerAgeMs
    decreases |es|
  {
    hide Step, OutcomeOf, ShiftEvent;
    if es != [] {
      var init, e := es[..|es| - 1], es[|es| - 1];
      ClockTranslation(c, t0, init, k);
      assert ShiftAll(es, k)[..|es| - 1] == ShiftAll(init, k);
      ShiftedStep(c, Run(c, Begun(t0), init), Run(c, Begun(Shift(t0, k)), ShiftAll(init, k)), e, k);
    }
    var s := Run(c, Begun(t0), es);
    forall now: Word
      ensures SnapshotOf(Run(c, Begun(Shift(t0, k)), ShiftAll(es, k)), Shift(now, k)).faultTimerAgeMs
           == SnapshotOf(s, now).faultTimerAgeMs
    {
      SinceShift(now, s.timerStart, k);
    }
  }

  // ---- Erasure of operator noise ----

  /** An acknowledgement, or a reset the interlock refuses. */
  predicate IsNoise(c: Config, s: Core, e: Event) {
    e.Ack? || (e.Reset? && Verdict(c, s, e.now) != ACCEPTED)
  }

  /** The run without its acknowledgements and refused resets. */
  function Erase(c: Config, s: Core, es: seq<Event>): seq<Event>
    decreases |es|
  {
    if es == [] then []
    else
      var init, e := es[..|es| - 1], es[|es| - 1];
      Erase(c, s, init) + if IsNoise(c, Run(c, s, init), e) then [] else [e]
  }

  /** The outcomes of the calls that are kept. */
  function KeptOutcomes(c: Config, s: Core, es: seq<Event>): seq<Outcome>
    decreases |es|
  {
    if es == [] then []
    else
      var init, e := es[..|es| - 1], es[|es| - 1];
      KeptOutcomes(c, s, init) + if IsNoise(c, Run(c, s, init), e) then [] else [OutcomeOf(c, Run(c, s, init), e)]
  }

  /** The core apart from the acknowledged flag and the last reset result. */
  function Essence(s: Core): Core {
    s.(lastReset := NOT_REQUESTED, fault := s.fault.(acknowledged := false))
  }

  lemma EssenceRaise(s: Core, t: Core, code: FaultCode, now: Word)
    requires Essence(s) == Essence(t)
    ensures Essence(Raise(s, code, now)) == Essence(Raise(t, code, now))
  {
  }

  lemma EssenceEvaluate(c: Config, s: Core, t: Core, m: Measurement, now: Word)
    requires Essence(s) == Essence(t)
    ensures Essence(Evaluate(c, s, m, now)) == Essence(Evaluate(c, t, m, now))
  {
    hide Since, Raise, Fresh, Gt, Le;
    if !Fresh(c, m, now) {
      EssenceRaise(s, t, SENSOR_STALE, now);
    } else if !m.valid {
      EssenceRaise(s, t, SENSOR_INVALID, now);
    } else if !NoMains(c, m) && Excessive(c, m) {
      EssenceRaise(s, t, OVERPOWER, now);
      EssenceRaise(s.(timerActive := true, timerStart := now),
                   t.(timerActive := true, timerStart := now), OVERPOWER, now);
    }
  }

  lemma EssenceUpdate(c: Config, s: Core, t: Core, m: Measurement, now: Word)
    requires Essence(s) == Essence(t)
    ensures Essence(Updated(c, s, m, now)) == Essence(Updated(c, t, m, now))
  {
    hide Since, Evaluate;
    EssenceEvaluate(c, s.(last := m, haveMeasurement := true, lastSampleMs := now),
                    t.(last := m, haveMeasurement := true, lastSampleMs := now), m, now);
  }

  lemma EssenceStep(c: Config, s: Core, t: Core, e: Event)
    requires Essence(s) == Essence(t)
    ensures IsNoise(c, s, e) ==> Essence(Step(c, s, e)) == Essence(s)
    ensures !IsNoise(c, s, e) ==>
              Essence(Step(c, s, e)) == Essence(Step(c, t, e)) && OutcomeOf(c, s, e) == OutcomeOf(c, t, e)
  {
    hide Updated, Since, Gt;
    if e.Sample? {
      EssenceUpdate(c, s, t, e.m, e.now);
    }
  }

  /**
   Deleting every acknowledgement and every refused reset from any run leaves the outcome of every
   other call as it was, and the final state up to `acknowledged` and the last reset result.
   */
  lemma {:induction false} OperatorNoiseErasure(c: Config, t0: Word, es: seq<Event>)
    ensures Outcomes(c, Begun(t0), Erase(c, Begun(t0), es)) == KeptOutcomes(c, Begun(t0), es)
    ensures Essence(Run(c, Begun(t0), Erase(c, Begun(t0), es))) == Essence(Run(c, Begun(t0), es))
    decreases |es|
  {
    hide Step, OutcomeOf, IsNoise, Essence;
    if es != [] {
      var b := Begun(t0);
      var init, e := es[..|es| - 1], es[|es| - 1];
      var kept := Erase(c, b, init);
      OperatorNoiseErasure(c, t0, init);
      EssenceStep(c, Run(c, b, init), Run(c, b, kept), e);
      if IsNoise(c, Run(c, b, init), e) {
        assert Erase(c, b, es) == kept;
        assert KeptOutcomes(c, b, es) == KeptOutcomes(c, b, init);
      } else {
        assert (kept + [e])[..|kept|] == kept;
      }
    }
  }
}
