/**
 The protection state machine as values: what each call of
 lib/energy_core/src/protection_core.cpp does to the machine's state and what it returns,
 and runs of such calls. The class in ProtectionCore.dfy is proved against these functions.
 */
module ProtectionModel {
  import opened Words
  import opened Floats
  import opened Measurements

  datatype SystemState = INIT | NORMAL | WARNING | FAULT

  datatype FaultCode = NO_FAULT | SENSOR_INVALID | OVERPOWER | SENSOR_STALE | PROTECTION_INTERNAL

  datatype ResetResult =
    | NOT_REQUESTED
    | ACCEPTED
    | REJECTED_NO_ACTIVE_FAULT
    | REJECTED_NO_MEASUREMENT
    | REJECTED_STALE_MEASUREMENT
    | REJECTED_INVALID_MEASUREMENT
    | REJECTED_UNSAFE_CONDITION
    | REJECTED_BUSY

  datatype Config = Config(
    warningPowerW: Float,
    faultPowerW: Float,
    minOperatingVoltageV: Float,
    faultConfirmMs: Word,
    maxMeasurementAgeMs: Word)

  /** The values of src/config.example.h. */
  const EXAMPLE_CONFIG := Config(Finite(485.0), Finite(550.0), Finite(10.0), 2000, 3000)

  datatype FaultManager = FaultManager(
    activeFault: FaultCode,
    lastFault: FaultCode,
    activeSince: Word,
    lastFaultTime: Word,
    totalFaults: Word,
    active: bool,
    acknowledged: bool)

  const CLEAR_FAULTS := FaultManager(NO_FAULT, NO_FAULT, 0, 0, 0, false, false)

  datatype ProtectionResult = ProtectionResult(
    stateChanged: bool,
    faultChanged: bool,
    previousState: SystemState,
    state: SystemState,
    previousFault: FaultCode,
    fault: FaultCode,
    synchronizationFailed: bool)

  datatype Snapshot = Snapshot(
    state: SystemState,
    fault: FaultManager,
    faultTimerActive: bool,
    faultTimerAgeMs: Word,
    lastResetResult: ResetResult)

  /** The private fields of ProtectionCore, without its constant configuration. */
  datatype Core = Core(
    state: SystemState,
    fault: FaultManager,
    timerActive: bool,
    timerStart: Word,
    haveMeasurement: bool,
    last: Measurement,
    lastSampleMs: Word,
    awaitingFirstSample: bool,
    rearmMs: Word,
    lastReset: ResetResult)

  /** The state begin(now) establishes, whatever the object held before. */
  function Begun(now: Word): Core {
    Core(INIT, CLEAR_FAULTS, false, 0, false, ZERO_MEASUREMENT, now, true, now, NOT_REQUESTED)
  }

  function Raise(s: Core, code: FaultCode, now: Word): Core {
    if code == NO_FAULT then s
    else
      var fault :=
        if s.fault.active then s.fault
        else FaultManager(code, code, now, now, Increment(s.fault.totalFaults), true, false);
      s.(fault := fault, timerActive := false, state := FAULT)
  }

  predicate NoMains(c: Config, m: Measurement) {
    Le(m.voltage, c.minOperatingVoltageV)
  }

  predicate Excessive(c: Config, m: Measurement) {
    Gt(m.power, c.faultPowerW)
  }

  predicate Fresh(c: Config, m: Measurement, now: Word) {
    Since(now, m.timestamp) <= c.maxMeasurementAgeMs
  }

  function Evaluate(c: Config, s: Core, m: Measurement, now: Word): Core {
    if !Fresh(c, m, now) then Raise(s, SENSOR_STALE, now)
    else if !m.valid then Raise(s, SENSOR_INVALID, now)
    else if NoMains(c, m) then s.(timerActive := false, state := INIT, awaitingFirstSample := true)
    else if Excessive(c, m) then
      if s.awaitingFirstSample then Raise(s, OVERPOWER, now).(awaitingFirstSample := false)
      else
        var t := if s.timerActive then s else s.(timerActive := true, timerStart := now);
        if Since(now, t.timerStart) >= c.faultConfirmMs then Raise(t, OVERPOWER, now)
        else t.(state := WARNING)
    else
      s.(timerActive := false, awaitingFirstSample := false,
         state := if Gt(m.power, c.warningPowerW) then WARNING else NORMAL)
  }

  /** The re-arm gate: a sample from before the re-arm point is ignored while one is awaited. */
  predicate Skipped(s: Core, m: Measurement) {
    s.awaitingFirstSample && Precedes(m.timestamp, s.rearmMs)
  }

  function Updated(c: Config, s: Core, m: Measurement, now: Word): Core {
    var t := s.(last := m, haveMeasurement := true);
    if s.state == FAULT then t.(lastSampleMs := now)
    else if Skipped(s, m) then t
    else Evaluate(c, t.(lastSampleMs := now), m, now)
  }

  function Ticked(c: Config, s: Core, now: Word): Core {
    if s.state != FAULT && Since(now, s.lastSampleMs) > c.maxMeasurementAgeMs
    then Raise(s, SENSOR_STALE, now)
    else s
  }

  /** The interlock's answer to a reset request. */
  function Verdict(c: Config, s: Core, now: Word): ResetResult {
    if !s.fault.active then REJECTED_NO_ACTIVE_FAULT
    else if !s.haveMeasurement then REJECTED_NO_MEASUREMENT
    else if !Fresh(c, s.last, now) then REJECTED_STALE_MEASUREMENT
    else if !s.last.valid then REJECTED_INVALID_MEASUREMENT
    else if Excessive(c, s.last) then REJECTED_UNSAFE_CONDITION
    else ACCEPTED
  }

  function ResetRequested(c: Config, s: Core, now: Word): Core {
    var t := s.(lastReset := Verdict(c, s, now));
    if t.lastReset != ACCEPTED then t
    else
      t.(fault := s.fault.(activeFault := NO_FAULT, active := false, acknowledged := false, activeSince := 0),
         timerActive := false, timerStart := 0, state := INIT,
         awaitingFirstSample := true, rearmMs := now, lastSampleMs := now)
  }

  function Acknowledged(s: Core): Core {
    if s.fault.active then s.(fault := s.fault.(acknowledged := true)) else s
  }

  function Finish(prev: Core, next: Core): ProtectionResult {
    ProtectionResult(next.state != prev.state, next.fault.activeFault != prev.fault.activeFault,
                     prev.state, next.state, prev.fault.activeFault, next.fault.activeFault, false)
  }

  /** r says where the call started, where it ended, and exactly which of the two things changed. */
  predicate Reports(r: ProtectionResult, fromState: SystemState, fromFault: FaultCode,
                    toState: SystemState, toFault: FaultCode) {
    && r.previousState == fromState && r.previousFault == fromFault
    && r.state == toState && r.fault == toFault
    && (r.stateChanged <==> fromState != toState)
    && (r.faultChanged <==> fromFault != toFault)
    && !r.synchronizationFailed
  }

  const LOCK_FAILURE_RESULT := ProtectionResult(true, true, FAULT, FAULT, NO_FAULT, PROTECTION_INTERNAL, true)

  function SnapshotOf(s: Core, now: Word): Snapshot {
    Snapshot(s.state, s.fault, s.timerActive, if s.timerActive then Since(now, s.timerStart) else 0, s.lastReset)
  }

  // ---- Runs ----

  /** One call on the core, with the clock word it was made at. */
  datatype Event =
    | Sample(m: Measurement, now: Word)
    | Tick(now: Word)
    | Reset(now: Word)
    | Ack
    | Internal(now: Word)

  /** What the caller gets back. */
  datatype Outcome = Result(r: ProtectionResult) | Answer(v: ResetResult) | Seen(ok: bool)

  function Step(c: Config, s: Core, e: Event): Core {
    match e
    case Sample(m, now) => Updated(c, s, m, now)
    case Tick(now) => Ticked(c, s, now)
    case Reset(now) => ResetRequested(c, s, now)
    case Ack => Acknowledged(s)
    case Internal(now) => Raise(s, PROTECTION_INTERNAL, now)
  }

  function OutcomeOf(c: Config, s: Core, e: Event): Outcome {
    match e
    case Reset(now) => Answer(Verdict(c, s, now))
    case Ack => Seen(s.fault.active)
    case _ => Result(Finish(s, Step(c, s, e)))
  }

  function Run(c: Config, s: Core, es: seq<Event>): Core
    decreases |es|
  {
    if es == [] then s else Step(c, Run(c, s, es[..|es| - 1]), es[|es| - 1])
  }

  function Outcomes(c: Config, s: Core, es: seq<Event>): (os: seq<Outcome>)
    ensures |os| == |es|
    decreases |es|
  {
    if es == [] then []
    else
      var init := es[..|es| - 1];
      Outcomes(c, s, init) + [OutcomeOf(c, Run(c, s, init), es[|es| - 1])]
  }

  /** A run's state one event later. */
  lemma RunStep(c: Config, s: Core, es: seq<Event>, i: nat)
    requires i < |es|
    ensures Run(c, s, es[..i + 1]) == Step(c, Run(c, s, es[..i]), es[i])
  {
    assert es[..i + 1][..i] == es[..i];
  }

  lemma RunAppend(c: Config, s: Core, es: seq<Event>, e: Event)
    ensures Run(c, s, es + [e]) == Step(c, Run(c, s, es), e)
  {
    assert (es + [e])[..|es|] == es;
  }

  /** The relay is commanded on in exactly these states. */
  predicate Energised(state: SystemState) {
    state == NORMAL || state == WARNING
  }

  predicate IsAcceptedReset(c: Config, s: Core, e: Event) {
    e.Reset? && Verdict(c, s, e.now) == ACCEPTED
  }
}
