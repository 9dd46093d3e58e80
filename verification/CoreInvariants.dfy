/**
 What every run of the core keeps: the cross-field invariant the code relies on without
 stating it, the latch, the fault count, and the ban on energising onto a hazard.
 */
module CoreInvariants {
  import opened Words
  import opened Floats
  import opened Measurements
  import opened ProtectionModel

  /** The core after the first i calls since begin(t0). */
  function At(c: Config, t0: Word, es: seq<Event>, i: nat): Core
    requires i <= |es|
  {
    Run(c, Begun(t0), es[..i])
  }

  /**
   The state, the latch, the timer and the re-arm flag always agree with each other, and in an
   energised state the newest sample alone decides which state it is.
   */
  ghost predicate Coherent(c: Config, s: Core) {
    && (s.state == FAULT <==> s.fault.active)
    && (s.fault.active <==> s.fault.activeFault != NO_FAULT)
    && (s.fault.active ==> s.fault.lastFault == s.fault.activeFault && s.fault.lastFaultTime == s.fault.activeSince)
    && (!s.fault.active ==> s.fault.activeSince == 0)
    && (s.state == INIT ==> s.awaitingFirstSample)
    && (s.timerActive <==> s.state == WARNING && Excessive(c, s.last))
    && (Energised(s.state) ==>
          && !s.awaitingFirstSample && s.haveMeasurement
          && s.last.valid && !NoMains(c, s.last)
          && (s.state == WARNING <==> Excessive(c, s.last) || Gt(s.last.power, c.warningPowerW)))
  }

  lemma CoherentStep(c: Config, s: Core, e: Event)
    requires Coherent(c, s)
    ensures Coherent(c, Step(c, s, e))
  {
  }

  lemma {:induction false} CoherentRun(c: Config, t0: Word, es: seq<Event>)
    ensures Coherent(c, Run(c, Begun(t0), es))
    decreases |es|
  {
    if es != [] {
      var init := es[..|es| - 1];
      CoherentRun(c, t0, init);
      CoherentStep(c, Run(c, Begun(t0), init), es[|es| - 1]);
    }
  }

  // ---- The latch ----

  /** Nothing but an accepted reset touches a latched fault, beyond its acknowledged flag. */
  ghost predicate SameLatch(s: Core, t: Core) {
    s.state == t.state == FAULT && t.fault == s.fault.(acknowledged := t.fault.acknowledged)
  }

  lemma LatchStep(c: Config, s: Core, e: Event)
    requires Coherent(c, s) && s.state == FAULT
    ensures IsAcceptedReset(c, s, e) ==> Step(c, s, e).state == INIT
    ensures !IsAcceptedReset(c, s, e) ==> SameLatch(s, Step(c, s, e))
  {
  }

  lemma {:induction false} LatchPersists(c: Config, t0: Word, es: seq<Event>, i: nat, j: nat)
    requires i <= j <= |es| && At(c, t0, es, i).state == FAULT
    requires forall k :: i <= k < j ==> !IsAcceptedReset(c, At(c, t0, es, k), es[k])
    ensures SameLatch(At(c, t0, es, i), At(c, t0, es, j))
    decreases j - i
  {
    hide Step, Verdict, Coherent;
    if i < j {
      LatchPersists(c, t0, es, i, j - 1);
      CoherentRun(c, t0, es[..j - 1]);
      LatchStep(c, At(c, t0, es, j - 1), es[j - 1]);
      RunStep(c, Begun(t0), es, j - 1);
    }
  }

  function Latched(s: Core): nat {
    if s.fault.active then 1 else 0
  }

  lemma AccountingStep(c: Config, s: Core, e: Event)
    requires Coherent(c, s)
    ensures OutcomeOf(c, s, e) == Answer(ACCEPTED) <==> IsAcceptedReset(c, s, e)
    ensures var t := Step(c, s, e);
            t.fault.totalFaults
            == Wrap(s.fault.totalFaults + (Latched(t) - Latched(s) + (if IsAcceptedReset(c, s, e) then 1 else 0)))
  {
  }

  /** How many of these calls were answered with an accepted reset. */
  function AcceptedResets(os: seq<Outcome>): nat {
    multiset(os)[Answer(ACCEPTED)]
  }

  lemma AcceptedNone(t0: Word)
    ensures AcceptedResets([]) == 0 && Latched(Begun(t0)) == 0
  {
  }

  lemma WrapSum(n: int, d: int)
    ensures Wrap(Wrap(n) + d) == Wrap(n + d)
  {
  }

  lemma AcceptedResetsAppend(os: seq<Outcome>, o: Outcome)
    ensures AcceptedResets(os + [o]) == AcceptedResets(os) + if o == Answer(ACCEPTED) then 1 else 0
  {
  }

  /**
   Over any run the fault counter is, modulo 2^32, the number of resets the caller saw accepted,
   plus one while a fault is latched.
   */
  lemma {:induction false} FaultAccounting(c: Config, t0: Word, es: seq<Event>)
    ensures var s := Run(c, Begun(t0), es);
            s.fault.totalFaults == Wrap(AcceptedResets(Outcomes(c, Begun(t0), es)) + Latched(s))
    decreases |es|
  {
    hide Step, Verdict, OutcomeOf, Coherent, AcceptedResets, Latched;
    if es == [] {
      AcceptedNone(t0);
    } else {
      var init, e := es[..|es| - 1], es[|es| - 1];
      var s := Run(c, Begun(t0), init);
      FaultAccounting(c, t0, init);
      CoherentRun(c, t0, init);
      AccountingStep(c, s, e);
      AcceptedResetsAppend(Outcomes(c, Begun(t0), init), OutcomeOf(c, s, e));
      hide Wrap;
      WrapSum(AcceptedResets(Outcomes(c, Begun(t0), init)) + Latched(s),
              Latched(Step(c, s, e)) - Latched(s) + (if IsAcceptedReset(c, s, e) then 1 else 0));
    }
  }

  /** The answer to the newest reset request; NOT_REQUESTED before there is one. */
  function LastAnswer(os: seq<Outcome>): ResetResult
    decreases |os|
  {
    if os == [] then NOT_REQUESTED
    else if os[|os| - 1].Answer? then os[|os| - 1].v
    else LastAnswer(os[..|os| - 1])
  }

  /** An acknowledgement was granted since the last accepted reset. */
  predicate AckSeen(os: seq<Outcome>)
    decreases |os|
  {
    os != [] &&
    (os[|os| - 1] == Seen(true) || (os[|os| - 1] != Answer(ACCEPTED) && AckSeen(os[..|os| - 1])))
  }

  lemma RecordStep(c: Config, s: Core, e: Event, os: seq<Outcome>)
    requires Coherent(c, s)
    requires s.lastReset == LastAnswer(os)
    requires (s.fault.acknowledged <==> AckSeen(os)) && (AckSeen(os) ==> s.fault.active)
    ensures var t, all := Step(c, s, e), os + [OutcomeOf(c, s, e)];
            && t.lastReset == LastAnswer(all)
            && (t.fault.acknowledged <==> AckSeen(all)) && (AckSeen(all) ==> t.fault.active)
  {
    hide Evaluate;
    var o := OutcomeOf(c, s, e);
    assert (os + [o])[..|os|] == os;
    if e.Sample? {
      EvaluateKeepsRecord(c, s.(last := e.m, haveMeasurement := true, lastSampleMs := e.now), e.m, e.now);
    }
  }

  lemma EvaluateKeepsRecord(c: Config, s: Core, m: Measurement, now: Word)
    ensures var t := Evaluate(c, s, m, now);
            && t.lastReset == s.lastReset
            && (s.fault.active ==> t.fault == s.fault)
            && (!s.fault.active ==> t.fault.acknowledged == (s.fault.acknowledged && t.fault == s.fault))
  {
  }

  /**
   The published operator record is true of every run: the last reset result is the last answer given, and a fault
   shows as acknowledged exactly if an acknowledgement was granted since the last accepted reset.
   */
  lemma {:induction false} OperatorRecord(c: Config, t0: Word, es: seq<Event>)
    ensures var s, os := Run(c, Begun(t0), es), Outcomes(c, Begun(t0), es);
            s.lastReset == LastAnswer(os) && (s.fault.acknowledged <==> AckSeen(os)) && (AckSeen(os) ==> s.fault.active)
    decreases |es|
  {
    hide Step, OutcomeOf, Coherent, LastAnswer, AckSeen;
    if es == [] {
      NothingRecorded();
    } else {
      var init := es[..|es| - 1];
      OperatorRecord(c, t0, init);
      CoherentRun(c, t0, init);
      RecordStep(c, Run(c, Begun(t0), init), es[|es| - 1], Outcomes(c, Begun(t0), init));
    }
  }

  lemma NothingRecorded()
    ensures LastAnswer([]) == NOT_REQUESTED && !AckSeen([])
  {
  }

  // ---- The policy table ----

  /** The sample and the thresholds are numbers, not NaN or infinities. */
  predicate Numeric(c: Config, m: Measurement) {
    && m.voltage.Finite? && m.power.Finite?
    && c.minOperatingVoltageV.Finite? && c.warningPowerW.Finite? && c.faultPowerW.Finite?
  }

  /** The state and the fault after an update, outside FAULT and past the re-arm gate, in plain numbers. */
  ghost predicate TableHolds(c: Config, s: Core, m: Measurement, now: Word, t: Core)
    requires Numeric(c, m)
  {
    var stale := (now - m.timestamp) % WORD > c.maxMeasurementAgeMs;
    var volts, watts := m.voltage.v, m.power.v;
    var usable := !stale && m.valid && volts > c.minOperatingVoltageV.v;
    var over := usable && watts > c.faultPowerW.v;
    var elapsed := if s.timerActive then (now - s.timerStart) % WORD else 0;
    && (t.fault.activeFault == SENSOR_STALE <==> stale)
    && (t.fault.activeFault == SENSOR_INVALID <==> !stale && !m.valid)
    && (t.fault.activeFault == OVERPOWER <==> over && (s.state == INIT || elapsed >= c.faultConfirmMs))
    && (t.state == FAULT <==> t.fault.activeFault != NO_FAULT)
    && (t.state == INIT <==> !stale && m.valid && volts <= c.minOperatingVoltageV.v)
    && (t.state == NORMAL <==> usable && watts <= c.faultPowerW.v && watts <= c.warningPowerW.v)
    && (t.state == WARNING <==>
          || (usable && watts <= c.faultPowerW.v && watts > c.warningPowerW.v)
          || (over && s.state != INIT && elapsed < c.faultConfirmMs))
  }

  lemma TableStep(c: Config, s: Core, m: Measurement, now: Word)
    requires Coherent(c, s) && s.state != FAULT && !Skipped(s, m) && Numeric(c, m)
    ensures TableHolds(c, s, m, now, Updated(c, s, m, now))
  {
    assert Since(now, now) == 0;
    hide Precedes;
  }

  /**
   In every run, an update outside FAULT that is not turned away by the re-arm gate moves the core as the documented
   policy table says: every comparison is strict where the table's is, at each of the three thresholds.
   */
  lemma PolicyTable(c: Config, t0: Word, es: seq<Event>, m: Measurement, now: Word)
    requires Numeric(c, m) && Run(c, Begun(t0), es).state != FAULT && !Skipped(Run(c, Begun(t0), es), m)
    ensures TableHolds(c, Run(c, Begun(t0), es), m, now, Run(c, Begun(t0), es + [Sample(m, now)]))
  {
    CoherentRun(c, t0, es);
    RunAppend(c, Begun(t0), es, Sample(m, now));
    hide Coherent, Numeric, Skipped, TableHolds, Updated, Run;
    TableStep(c, Run(c, Begun(t0), es), m, now);
  }

  // ---- What a caller can tell from the answers ----

  /** The state and the fault the caller was last told: by a report, or by an accepted reset. */
  function ToldState(os: seq<Outcome>): SystemState
    decreases |os|
  {
    if os == [] then INIT
    else if os[|os| - 1].Result? then os[|os| - 1].r.state
    else if os[|os| - 1] == Answer(ACCEPTED) then INIT
    else ToldState(os[..|os| - 1])
  }

  function ToldFault(os: seq<Outcome>): FaultCode
    decreases |os|
  {
    if os == [] then NO_FAULT
    else if os[|os| - 1].Result? then os[|os| - 1].r.fault
    else if os[|os| - 1] == Answer(ACCEPTED) then NO_FAULT
    else ToldFault(os[..|os| - 1])
  }

  /** The report announces a fault that was not there before. */
  predicate Announces(o: Outcome) {
    o.Result? && o.r.faultChanged && o.r.fault != NO_FAULT
  }

  /** The newest fault announced so far and the time of the call announcing it; NO_FAULT and 0 before there is one. */
  function Announced(es: seq<Event>, os: seq<Outcome>): (FaultCode, Word)
    requires |es| == |os|
    decreases |os|
  {
    if os == [] then (NO_FAULT, 0)
    else
      var n := |os| - 1;
      if Announces(os[n]) && !es[n].Ack? then (os[n].r.fault, es[n].now) else Announced(es[..n], os[..n])
  }

  /** The caller, who sees only what the calls return, knows the state, the fault and the newest fault's record. */
  ghost predicate Informed(s: Core, es: seq<Event>, os: seq<Outcome>)
    requires |es| == |os|
  {
    && s.state == ToldState(os) && s.fault.activeFault == ToldFault(os)
    && (s.fault.lastFault, s.fault.lastFaultTime) == Announced(es, os)
    && forall i :: 0 <= i < |os| && os[i].Result? ==>
                     Reports(os[i].r, ToldState(os[..i]), ToldFault(os[..i]), os[i].r.state, os[i].r.fault)
  }

  lemma InformedStep(c: Config, s: Core, es: seq<Event>, os: seq<Outcome>, e: Event)
    requires |es| == |os| && Coherent(c, s) && Informed(s, es, os)
    ensures Informed(Step(c, s, e), es + [e], os + [OutcomeOf(c, s, e)])
  {
    var o := OutcomeOf(c, s, e);
    var all := os + [o];
    ReportStep(c, s, e);
    assert all[..|os|] == os && (es + [e])[..|es|] == es;
    hide Step, OutcomeOf, Coherent;
    forall i | 0 <= i < |all| && all[i].Result?
      ensures Reports(all[i].r, ToldState(all[..i]), ToldFault(all[..i]), all[i].r.state, all[i].r.fault)
    {
      if i < |os| {
        assert all[..i] == os[..i];
      }
    }
  }

  lemma ReportStep(c: Config, s: Core, e: Event)
    requires Coherent(c, s)
    ensures var t, o := Step(c, s, e), OutcomeOf(c, s, e);
            && (o.Result? ==> !e.Ack? && Reports(o.r, s.state, s.fault.activeFault, t.state, t.fault.activeFault))
            && (o == Answer(ACCEPTED) ==> t.state == INIT && t.fault.activeFault == NO_FAULT)
            && (!o.Result? && o != Answer(ACCEPTED) ==>
                  t.state == s.state && t.fault.activeFault == s.fault.activeFault)
            && (t.fault.lastFault, t.fault.lastFaultTime) ==
               if Announces(o) then (t.fault.activeFault, e.now) else (s.fault.lastFault, s.fault.lastFaultTime)
  {
  }

  /**
   The reports of every run chain up: each starts from the state and the fault that the answers before it tell,
   and its flags say exactly whether they changed. From the answers alone the caller knows the core's state, its
   active fault, and the newest fault with its time, which accepted resets do not erase.
   */
  lemma {:induction false} ReportsTellAll(c: Config, t0: Word, es: seq<Event>)
    ensures Informed(Run(c, Begun(t0), es), es, Outcomes(c, Begun(t0), es))
    decreases |es|
  {
    hide Step, OutcomeOf, Informed, Coherent;
    if es == [] {
      InformedAtBegin(c, t0);
    } else {
      var init, e := es[..|es| - 1], es[|es| - 1];
      ReportsTellAll(c, t0, init);
      CoherentRun(c, t0, init);
      InformedStep(c, Run(c, Begun(t0), init), init, Outcomes(c, Begun(t0), init), e);
      assert init + [e] == es;
    }
  }

  lemma InformedAtBegin(c: Config, t0: Word)
    ensures Informed(Begun(t0), [], Outcomes(c, Begun(t0), []))
  {
  }

  // ---- Energising ----

  /** A sample fit to close the relay on: valid, fresh, past the re-arm point, mains present, no overload. */
  ghost predicate Permits(c: Config, s: Core, e: Event) {
    && e.Sample?
    && e.m.valid
    && Fresh(c, e.m, e.now)
    && !Precedes(e.m.timestamp, s.rearmMs)
    && !NoMains(c, e.m)
    && !Excessive(c, e.m)
  }

  /** The relay goes from off to on in INIT on a permitting sample, and under no other circumstances. */
  lemma EnergisingStep(c: Config, s: Core, e: Event)
    requires Coherent(c, s) && !Energised(s.state)
    ensures Energised(Step(c, s, e).state) <==> s.state == INIT && Permits(c, s, e)
  {
  }

  lemma RearmStep(c: Config, s: Core, e: Event)
    ensures Step(c, s, e).rearmMs == if IsAcceptedReset(c, s, e) then e.now else s.rearmMs
  {
  }

  /** The re-arm point of a core that has left FAULT is the accepted reset that let it out. */
  lemma {:induction false} LastAcceptedReset(c: Config, t0: Word, es: seq<Event>, i: nat, l: nat) returns (k: nat)
    requires i < l <= |es|
    requires At(c, t0, es, i).state == FAULT && At(c, t0, es, l).state != FAULT
    ensures i <= k < l && IsAcceptedReset(c, At(c, t0, es, k), es[k])
    ensures At(c, t0, es, l).rearmMs == es[k].now
    decreases l
  {
    hide Step, Verdict, Coherent;
    var s := At(c, t0, es, l - 1);
    RunStep(c, Begun(t0), es, l - 1);
    RearmStep(c, s, es[l - 1]);
    if IsAcceptedReset(c, s, es[l - 1]) {
      k := l - 1;
    } else {
      CoherentRun(c, t0, es[..l - 1]);
      if s.state == FAULT {
        LatchStep(c, s, es[l - 1]);
        assert false;
      }
      k := LastAcceptedReset(c, t0, es, i, l - 1);
    }
  }

  /**
   If the relay is on some time after a fault, then after the fault a reset was accepted (k) and
   after that a sample permitted closing (l); the relay stayed off until then, and the
   sample is not older than that reset.
   */
  lemma {:induction false} NoReenergisingOntoHazard(c: Config, t0: Word, es: seq<Event>, i: nat, j: nat)
    returns (k: nat, l: nat)
    requires i < j <= |es|
    requires At(c, t0, es, i).state == FAULT && Energised(At(c, t0, es, j).state)
    ensures i <= k < l < j
    ensures IsAcceptedReset(c, At(c, t0, es, k), es[k])
    ensures Permits(c, At(c, t0, es, l), es[l])
    ensures At(c, t0, es, l).rearmMs == es[k].now
    ensures forall n :: i <= n <= l ==> !Energised(At(c, t0, es, n).state)
    decreases j
  {
    hide Step, Verdict, Coherent, Permits;
    if m :| i < m < j && Energised(At(c, t0, es, m).state) {
      k, l := NoReenergisingOntoHazard(c, t0, es, i, m);
    } else {
      l := j - 1;
      RunStep(c, Begun(t0), es, l);
      CoherentRun(c, t0, es[..l]);
      EnergisingStep(c, At(c, t0, es, l), es[l]);
      k := LastAcceptedReset(c, t0, es, i, l);
    }
  }

  // ---- Validation ----

  /** Every sample of the run came out of BuildMeasurement, whatever the meter answered. */
  ghost predicate Validated(es: seq<Event>) {
    forall i :: 0 <= i < |es| && es[i].Sample? ==> Built(es[i].m)
  }

  ghost predicate Built(m: Measurement) {
    exists raw :: m == BuildMeasurement(raw, m.source, m.timestamp, DEFAULT_LIMITS)
  }

  /** Every sample, and nothing else, becomes the newest measurement. */
  lemma MemoryStep(c: Config, s: Core, e: Event)
    ensures var t := Step(c, s, e);
            && t.haveMeasurement == (s.haveMeasurement || e.Sample?)
            && t.last == (if e.Sample? then e.m else s.last)
  {
  }

  lemma {:induction false} LastIsBuilt(c: Config, t0: Word, es: seq<Event>)
    requires Validated(es)
    ensures var s := Run(c, Begun(t0), es); s.haveMeasurement ==> Built(s.last)
    decreases |es|
  {
    hide Step, Built;
    if es != [] {
      LastIsBuilt(c, t0, es[..|es| - 1]);
      MemoryStep(c, Run(c, Begun(t0), es[..|es| - 1]), es[|es| - 1]);
    }
  }

  /**
   Behind validation, an energised core always rests on a physically plausible sample: finite,
   in range, mains present, and either within the fault threshold or under a running timer. It is in NORMAL if and
   only if the power is at most both thresholds.
   */
  lemma ValidationClosesNaNHole(c: Config, t0: Word, es: seq<Event>)
    requires Validated(es) && c.minOperatingVoltageV.Finite? && c.faultPowerW.Finite?
    ensures var s := Run(c, Begun(t0), es);
            Energised(s.state) ==>
              && Plausible(s.last)
              && s.last.voltage.v > c.minOperatingVoltageV.v
              && (s.timerActive <==> s.last.power.v > c.faultPowerW.v)
              && (c.warningPowerW.Finite? ==>
                    (s.state == NORMAL <==> s.last.power.v <= c.warningPowerW.v && s.last.power.v <= c.faultPowerW.v))
  {
    var s := Run(c, Begun(t0), es);
    CoherentRun(c, t0, es);
    LastIsBuilt(c, t0, es);
    if Energised(s.state) {
      var raw :| s.last == BuildMeasurement(raw, s.last.source, s.last.timestamp, DEFAULT_LIMITS);
      BuildMeasurementMeaning(raw, s.last.source, s.last.timestamp);
    }
  }

  /** The core alone does not close the hole: a NaN marked valid falls through every test to NORMAL. */
  lemma NaNAloneWouldEnergise(c: Config, t0: Word)
    ensures var m := ZERO_MEASUREMENT.(voltage := NaN, power := NaN, valid := true, timestamp := t0);
            Run(c, Begun(t0), [Sample(m, t0)]).state == NORMAL
  {
    var m := ZERO_MEASUREMENT.(voltage := NaN, power := NaN, valid := true, timestamp := t0);
    var es := [Sample(m, t0)];
    assert es[..0] == [];
    RunStep(c, Begun(t0), es, 0);
    assert es[..1] == es;
    assert Run(c, Begun(t0), []) == Begun(t0);
  }
}
