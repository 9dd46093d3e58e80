/**
 The core's state as a function of everything that happened to it. Nothing below mentions the
 core's fields: the verdict is read off the list of calls. `HistoryRefinement` proves that the
 machine, which remembers only a handful of words, always agrees with it.

 A history splits into segments, each opened by begin or by an accepted reset. Inside a segment:
 - the samples that reach evaluation are those not turned away by the re-arm gate;
 - the machine awaits a first sample while none was evaluated, or the last one showed no mains;
 - an overload run is the longest run of overload samples ending at the newest one;
 - a call latches a fault if it is an internal failure, a tick after too long a silence, or an
   evaluated sample that is stale, invalid, an overload while awaiting, or an overload that
   lasted the confirmation time;
 - the segment is in FAULT as soon as one of its calls latches, and the earliest is the cause.
 */
module History {
  import opened Words
  import opened Floats
  import opened Measurements
  import opened ProtectionModel
  import opened CoreInvariants

  datatype Reading = Reading(m: Measurement, now: Word)

  predicate Overload(c: Config, m: Measurement) {
    !NoMains(c, m) && Excessive(c, m)
  }

  predicate Awaiting(c: Config, rs: seq<Reading>) {
    rs == [] || NoMains(c, rs[|rs| - 1].m)
  }

  predicate TurnedAway(c: Config, arm: Word, rs: seq<Reading>, m: Measurement) {
    Awaiting(c, rs) && Precedes(m.timestamp, arm)
  }

  /** The samples of a segment armed at `arm` that reach evaluation, in order. */
  function Evaluated(c: Config, arm: Word, seg: seq<Event>): seq<Reading>
    decreases |seg|
  {
    if seg == [] then []
    else
      var before := Evaluated(c, arm, seg[..|seg| - 1]);
      match seg[|seg| - 1]
      case Sample(m, now) => if TurnedAway(c, arm, before, m) then before else before + [Reading(m, now)]
      case _ => before
  }

  /** Where the overload run that ends the readings begins; |rs| if the newest is no overload. */
  function RunStart(c: Config, rs: seq<Reading>): (k: nat)
    ensures k <= |rs|
    ensures forall i :: k <= i < |rs| ==> Overload(c, rs[i].m)
    ensures k > 0 ==> !Overload(c, rs[k - 1].m)
    decreases |rs|
  {
    if rs == [] || !Overload(c, rs[|rs| - 1].m) then |rs| else RunStart(c, rs[..|rs| - 1])
  }

  /** The last time the segment was heard from. */
  function LastHeard(arm: Word, rs: seq<Reading>): Word {
    if rs == [] then arm else rs[|rs| - 1].now
  }

  /** The fault the next call would latch after these readings; NO_FAULT if none. */
  function Cause(c: Config, arm: Word, rs: seq<Reading>, e: Event): FaultCode {
    match e
    case Internal(_) => PROTECTION_INTERNAL
    case Tick(now) => if Since(now, LastHeard(arm, rs)) > c.maxMeasurementAgeMs then SENSOR_STALE else NO_FAULT
    case Sample(m, now) =>
      if TurnedAway(c, arm, rs, m) then NO_FAULT
      else if !Fresh(c, m, now) then SENSOR_STALE
      else if !m.valid then SENSOR_INVALID
      else if !Overload(c, m) then NO_FAULT
      else if Awaiting(c, rs) then OVERPOWER
      else
        var all := rs + [Reading(m, now)];
        var k := RunStart(c, all);
        if k < |all| && Since(now, all[k].now) >= c.faultConfirmMs then OVERPOWER else NO_FAULT
    case _ => NO_FAULT
  }

  /** What the i-th call of a segment would latch, had nothing latched before it. */
  function CauseAt(c: Config, arm: Word, seg: seq<Event>, i: nat): FaultCode
    requires i < |seg|
  {
    Cause(c, arm, Evaluated(c, arm, seg[..i]), seg[i])
  }

  ghost predicate Faulted(c: Config, arm: Word, seg: seq<Event>) {
    exists i :: 0 <= i < |seg| && CauseAt(c, arm, seg, i) != NO_FAULT
  }

  ghost predicate IsFirstCause(c: Config, arm: Word, seg: seq<Event>, i: int) {
    && 0 <= i < |seg| && CauseAt(c, arm, seg, i) != NO_FAULT
    && forall j :: 0 <= j < i ==> CauseAt(c, arm, seg, j) == NO_FAULT
  }

  /** The newest sample delivered at any time, evaluated or not. */
  function Newest(h: seq<Event>): seq<Measurement>
    decreases |h|
  {
    if h == [] then []
    else if h[|h| - 1].Sample? then [h[|h| - 1].m]
    else Newest(h[..|h| - 1])
  }

  /** A reset at `now` is granted: a fault is latched and the newest sample is fresh, valid and no overload. */
  ghost predicate Grants(c: Config, arm: Word, seg: seq<Event>, h: seq<Event>, now: Word) {
    var n := Newest(h);
    && Faulted(c, arm, seg)
    && n != [] && Fresh(c, n[0], now) && n[0].valid && !Excessive(c, n[0])
  }

  datatype Segment = Segment(start: nat, arm: Word)

  /** The segment a history since begin(t0) ends in: where it starts and the word it was armed at. */
  ghost function Current(c: Config, t0: Word, h: seq<Event>): (g: Segment)
    ensures g.start <= |h|
    decreases |h|
  {
    if h == [] then Segment(0, t0)
    else
      var init, e := h[..|h| - 1], h[|h| - 1];
      var g := Current(c, t0, init);
      if e.Reset? && Grants(c, g.arm, init[g.start..], init, e.now) then Segment(|h|, e.now) else g
  }

  function Classify(c: Config, rs: seq<Reading>): SystemState {
    if Awaiting(c, rs) then INIT
    else
      var m := rs[|rs| - 1].m;
      if Excessive(c, m) || Gt(m.power, c.warningPowerW) then WARNING else NORMAL
  }

  /** The clock word of a call that carries one. */
  function TimeOf(e: Event): Word {
    if e.Ack? then 0 else e.now
  }

  /** Outside FAULT: state, re-arm flag, silence clock and timer are those of the evaluated readings. */
  ghost predicate Live(c: Config, s: Core, arm: Word, rs: seq<Reading>) {
    && s.state != FAULT
    && s.state == Classify(c, rs)
    && !s.fault.active && s.fault.activeFault == NO_FAULT
    && s.rearmMs == arm
    && s.awaitingFirstSample == Awaiting(c, rs)
    && s.lastSampleMs == LastHeard(arm, rs)
    && s.timerActive == (RunStart(c, rs) < |rs|)
    && (s.timerActive ==> s.timerStart == rs[RunStart(c, rs)].now)
  }

  /** The machine's state is what the history h, in segment seg, says it is. */
  ghost predicate Agrees(c: Config, s: Core, arm: Word, seg: seq<Event>, h: seq<Event>) {
    && (s.state == FAULT <==> Faulted(c, arm, seg))
    && (s.fault.active <==> s.state == FAULT)
    && (forall i :: IsFirstCause(c, arm, seg, i) ==>
          s.fault.activeFault == CauseAt(c, arm, seg, i) && s.fault.activeSince == TimeOf(seg[i]))
    && (s.haveMeasurement <==> Newest(h) != [])
    && (s.haveMeasurement ==> s.last == Newest(h)[0])
    && s.rearmMs == arm
    && (s.state != FAULT ==> Live(c, s, arm, Evaluated(c, arm, seg)))
  }

  // ---- One more call ----

  lemma RunStartAppend(c: Config, rs: seq<Reading>, r: Reading)
    ensures RunStart(c, rs + [r]) == if Overload(c, r.m) then RunStart(c, rs) else |rs| + 1
  {
    assert (rs + [r])[..|rs|] == rs;
  }

  lemma EvaluatedAppend(c: Config, arm: Word, seg: seq<Event>, e: Event)
    ensures Evaluated(c, arm, seg + [e]) ==
            var rs := Evaluated(c, arm, seg);
            if e.Sample? && !TurnedAway(c, arm, rs, e.m) then rs + [Reading(e.m, e.now)] else rs
  {
    assert (seg + [e])[..|seg|] == seg;
  }

  lemma CausesAppend(c: Config, arm: Word, seg: seq<Event>, e: Event)
    ensures forall i :: 0 <= i < |seg| ==> CauseAt(c, arm, seg + [e], i) == CauseAt(c, arm, seg, i)
    ensures CauseAt(c, arm, seg + [e], |seg|) == Cause(c, arm, Evaluated(c, arm, seg), e)
    ensures Faulted(c, arm, seg + [e]) <==>
            Faulted(c, arm, seg) || Cause(c, arm, Evaluated(c, arm, seg), e) != NO_FAULT
  {
    var all := seg + [e];
    assert all[..|seg|] == seg;
    forall i | 0 <= i < |seg|
      ensures CauseAt(c, arm, all, i) == CauseAt(c, arm, seg, i)
    {
      assert all[..i] == seg[..i];
    }
    if Faulted(c, arm, seg) {
      var i :| 0 <= i < |seg| && CauseAt(c, arm, seg, i) != NO_FAULT;
      assert CauseAt(c, arm, all, i) != NO_FAULT;
    }
  }

  /** A call on a core that is not in FAULT latches exactly the history's cause, or re-classifies. */
  ghost predicate LiveStep(c: Config, e: Event, t: Core, arm: Word, rs: seq<Reading>, next: seq<Reading>) {
    var cause := Cause(c, arm, rs, e);
    if cause == NO_FAULT then Live(c, t, arm, next)
    else t.state == FAULT && t.fault.active && t.fault.activeFault == cause && t.fault.activeSince == TimeOf(e)
  }

  lemma LiveSample(c: Config, s: Core, arm: Word, rs: seq<Reading>, m: Measurement, now: Word)
    requires Live(c, s, arm, rs)
    ensures LiveStep(c, Sample(m, now), Updated(c, s, m, now), arm, rs,
                     if TurnedAway(c, arm, rs, m) then rs else rs + [Reading(m, now)])
  {
    RunStartAppend(c, rs, Reading(m, now));
    hide Since, Gt, Le, Precedes;
  }

  lemma LiveAny(c: Config, s: Core, arm: Word, seg: seq<Event>, e: Event)
    requires Live(c, s, arm, Evaluated(c, arm, seg))
    requires !IsAcceptedReset(c, s, e)
    ensures LiveStep(c, e, Step(c, s, e), arm, Evaluated(c, arm, seg), Evaluated(c, arm, seg + [e]))
  {
    EvaluatedAppend(c, arm, seg, e);
    if e.Sample? {
      LiveSample(c, s, arm, Evaluated(c, arm, seg), e.m, e.now);
    }
  }

  lemma NewestAppend(h: seq<Event>, e: Event)
    ensures Newest(h + [e]) == if e.Sample? then [e.m] else Newest(h)
  {
    assert (h + [e])[..|h|] == h;
  }

  /** Every call keeps the newest sample, and only a granted reset moves the re-arm point. */
  lemma AgreeingMemory(c: Config, s: Core, arm: Word, seg: seq<Event>, h: seq<Event>, e: Event)
    requires Agrees(c, s, arm, seg, h)
    ensures var t := Step(c, s, e);
            && (t.haveMeasurement <==> Newest(h + [e]) != [])
            && (t.haveMeasurement ==> t.last == Newest(h + [e])[0])
            && (IsAcceptedReset(c, s, e) <==> e.Reset? && Grants(c, arm, seg, h, e.now))
            && t.rearmMs == if IsAcceptedReset(c, s, e) then e.now else arm
  {
    hide Faulted, Evaluated, RunStart, Classify, CauseAt, Live, Step, Newest, IsFirstCause, Fresh, Gt;
    NewestAppend(h, e);
    MemoryStep(c, s, e);
    RearmStep(c, s, e);
  }

  lemma AgreesWithinSegment(c: Config, s: Core, arm: Word, seg: seq<Event>, h: seq<Event>, e: Event)
    requires Agrees(c, s, arm, seg, h) && !IsAcceptedReset(c, s, e)
    ensures Agrees(c, Step(c, s, e), arm, seg + [e], h + [e])
  {
    hide Evaluated, Classify, RunStart, LastHeard, Awaiting, Cause, Step, Verdict, Grants, Newest, Faulted;
    AgreeingMemory(c, s, arm, seg, h, e);
    CausesAppend(c, arm, seg, e);
    var t := Step(c, s, e);
    if s.state == FAULT {
      LatchedStep(c, s, e);
      FirstCausesKept(c, arm, seg, e);
    } else {
      LiveAny(c, s, arm, seg, e);
      NoEarlierCause(c, arm, seg, e);
    }
  }

  lemma LatchedStep(c: Config, s: Core, e: Event)
    requires s.state == FAULT && s.fault.active && !IsAcceptedReset(c, s, e)
    ensures var t := Step(c, s, e);
            t.state == FAULT && t.fault.active
            && t.fault.activeFault == s.fault.activeFault && t.fault.activeSince == s.fault.activeSince
  {
  }

  /** Once a segment has a cause, later calls do not change which is first. */
  lemma FirstCausesKept(c: Config, arm: Word, seg: seq<Event>, e: Event)
    requires Faulted(c, arm, seg)
    ensures forall i :: IsFirstCause(c, arm, seg + [e], i) ==>
                          IsFirstCause(c, arm, seg, i) && CauseAt(c, arm, seg + [e], i) == CauseAt(c, arm, seg, i)
  {
    CausesAppend(c, arm, seg, e);
    var k :| 0 <= k < |seg| && CauseAt(c, arm, seg, k) != NO_FAULT;
    forall i | IsFirstCause(c, arm, seg + [e], i)
      ensures IsFirstCause(c, arm, seg, i) && CauseAt(c, arm, seg + [e], i) == CauseAt(c, arm, seg, i)
    {
      assert CauseAt(c, arm, seg + [e], k) != NO_FAULT;
      assert i <= k;
      forall j | 0 <= j < i
        ensures CauseAt(c, arm, seg, j) == NO_FAULT
      {
        assert CauseAt(c, arm, seg + [e], j) == NO_FAULT;
      }
    }
  }

  /** In a segment without a cause, only the newest call can be the first. */
  lemma NoEarlierCause(c: Config, arm: Word, seg: seq<Event>, e: Event)
    requires !Faulted(c, arm, seg)
    ensures forall i :: IsFirstCause(c, arm, seg + [e], i) ==> i == |seg|
  {
    CausesAppend(c, arm, seg, e);
    forall i | IsFirstCause(c, arm, seg + [e], i)
      ensures i == |seg|
    {
      if i < |seg| {
        assert false;
      }
    }
  }

  lemma AgreesAfterReset(c: Config, s: Core, arm: Word, seg: seq<Event>, h: seq<Event>, e: Event)
    requires Agrees(c, s, arm, seg, h) && IsAcceptedReset(c, s, e)
    ensures Agrees(c, Step(c, s, e), e.now, [], h + [e])
  {
    hide Newest, Grants, CauseAt;
    AgreeingMemory(c, s, arm, seg, h, e);
  }

  /**
   For every sequence of calls since begin(t0), the machine's state, active fault, fault time,
   confirmation timer, re-arm flag and silence clock are the ones the whole history determines.
   */
  lemma {:induction false} HistoryRefinement(c: Config, t0: Word, h: seq<Event>)
    ensures var g := Current(c, t0, h);
            Agrees(c, Run(c, Begun(t0), h), g.arm, h[g.start..], h)
    decreases |h|
  {
    hide Agrees, Grants, Faulted, Step, Verdict;
    if h == [] {
      AgreesAtBegin(c, t0);
    } else {
      var init, e := h[..|h| - 1], h[|h| - 1];
      var g := Current(c, t0, init);
      var s := Run(c, Begun(t0), init);
      HistoryRefinement(c, t0, init);
      assert init + [e] == h;
      AgreeingMemory(c, s, g.arm, init[g.start..], init, e);
      if IsAcceptedReset(c, s, e) {
        AgreesAfterReset(c, s, g.arm, init[g.start..], init, e);
        assert h[|h|..] == [];
      } else {
        AgreesWithinSegment(c, s, g.arm, init[g.start..], init, e);
        assert h[g.start..] == init[g.start..] + [e];
      }
    }
  }

  lemma AgreesAtBegin(c: Config, t0: Word)
    ensures Agrees(c, Begun(t0), t0, [], [])
  {
  }

  // ---- What the history decides beyond the state ----

  /**
   The answer to a reset at `now` is read off the history: which of the six it is depends on whether a fault is latched
   and on the newest sample, and the reasons are tried in this order.
   */
  ghost predicate AnswerFits(c: Config, arm: Word, seg: seq<Event>, h: seq<Event>, now: Word, v: ResetResult) {
    var faulted, n := Faulted(c, arm, seg), Newest(h);
    && (v == REJECTED_NO_ACTIVE_FAULT <==> !faulted)
    && (v == REJECTED_NO_MEASUREMENT <==> faulted && n == [])
    && (v == REJECTED_STALE_MEASUREMENT <==>
          faulted && n != [] && (now - n[0].timestamp) % WORD > c.maxMeasurementAgeMs)
    && (v == REJECTED_INVALID_MEASUREMENT <==>
          faulted && n != [] && (now - n[0].timestamp) % WORD <= c.maxMeasurementAgeMs && !n[0].valid)
    && (v == REJECTED_UNSAFE_CONDITION <==>
          && faulted && n != [] && (now - n[0].timestamp) % WORD <= c.maxMeasurementAgeMs && n[0].valid
          && Gt(n[0].power, c.faultPowerW))
    && (v == ACCEPTED <==>
          && faulted && n != [] && (now - n[0].timestamp) % WORD <= c.maxMeasurementAgeMs && n[0].valid
          && !Gt(n[0].power, c.faultPowerW))
    && v != NOT_REQUESTED && v != REJECTED_BUSY
  }

  lemma AgreeingAnswer(c: Config, s: Core, arm: Word, seg: seq<Event>, h: seq<Event>, now: Word)
    requires Agrees(c, s, arm, seg, h)
    ensures AnswerFits(c, arm, seg, h, now, Verdict(c, s, now))
  {
    hide Faulted, Evaluated, RunStart, Classify, CauseAt, Live, Newest, IsFirstCause, Gt;
  }

  /** For every history, a reset request gets the answer the history calls for. */
  lemma ResetAnswers(c: Config, t0: Word, h: seq<Event>, now: Word)
    ensures var g := Current(c, t0, h);
            exists v :: Outcomes(c, Begun(t0), h + [Reset(now)])[|h|] == Answer(v)
                        && AnswerFits(c, g.arm, h[g.start..], h, now, v)
  {
    HistoryRefinement(c, t0, h);
    var g, s := Current(c, t0, h), Run(c, Begun(t0), h);
    assert (h + [Reset(now)])[..|h|] == h;
    assert Outcomes(c, Begun(t0), h + [Reset(now)])[|h|] == Answer(Verdict(c, s, now));
    hide Agrees, AnswerFits, Verdict, Outcomes, Current;
    AgreeingAnswer(c, s, g.arm, h[g.start..], h, now);
  }

  /** The snapshot shows what the history of the segment, and the answers given, say. */
  ghost predicate Shows(c: Config, sn: Snapshot, arm: Word, seg: seq<Event>, now: Word) {
    var faulted, rs := Faulted(c, arm, seg), Evaluated(c, arm, seg);
    var k := RunStart(c, rs);
    && sn.state == (if faulted then FAULT else Classify(c, rs))
    && (sn.fault.active <==> faulted)
    && (!faulted ==> sn.fault.activeFault == NO_FAULT)
    && (forall i :: IsFirstCause(c, arm, seg, i) ==>
          sn.fault.activeFault == CauseAt(c, arm, seg, i) && sn.fault.activeSince == TimeOf(seg[i]))
    && (sn.faultTimerActive <==> !faulted && k < |rs|)
    && sn.faultTimerAgeMs == (if !faulted && k < |rs| then (now - rs[k].now) % WORD else 0)
  }

  lemma AgreeingSnapshot(c: Config, s: Core, arm: Word, seg: seq<Event>, h: seq<Event>, now: Word)
    requires Coherent(c, s) && Agrees(c, s, arm, seg, h)
    ensures Shows(c, SnapshotOf(s, now), arm, seg, now)
  {
    hide Faulted, Evaluated, RunStart, Classify, CauseAt, Newest, IsFirstCause, Gt, Le, TimeOf;
  }

  /**
   For every history, the published snapshot is the one it calls for: its state and cause, the age of a running timer
   counted from the first sample of the final overload run, and the record that the answers to the calls leave.
   */
  lemma SnapshotTells(c: Config, t0: Word, h: seq<Event>, now: Word)
    ensures var g, sn, os := Current(c, t0, h), SnapshotOf(Run(c, Begun(t0), h), now), Outcomes(c, Begun(t0), h);
            && Shows(c, sn, g.arm, h[g.start..], now)
            && sn.lastResetResult == LastAnswer(os)
            && (sn.fault.acknowledged <==> AckSeen(os))
            && (sn.fault.lastFault, sn.fault.lastFaultTime) == Announced(h, os)
            && sn.fault.totalFaults == Wrap(AcceptedResets(os) + if sn.fault.active then 1 else 0)
  {
    var g, s := Current(c, t0, h), Run(c, Begun(t0), h);
    HistoryRefinement(c, t0, h);
    CoherentRun(c, t0, h);
    OperatorRecord(c, t0, h);
    ReportsTellAll(c, t0, h);
    FaultAccounting(c, t0, h);
    hide Agrees, Coherent, Shows, LastAnswer, AckSeen, Announced, AcceptedResets, Outcomes, Current, Run, Wrap;
    AgreeingSnapshot(c, s, g.arm, h[g.start..], h, now);
  }
}
