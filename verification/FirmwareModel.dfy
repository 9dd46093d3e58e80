/**
 The control loop around the core as atomic steps: the sensor task feeding a bounded queue, the
 control task receiving, deciding, driving the outputs and draining commands, a protection lock that
 may be refused at any call, and a watchdog that may force the outputs safe at any moment
 (src/main.cpp, src/protection.cpp, src/actuator.cpp). A run is any interleaving of these steps; a step
 whose turn it is not leaves everything as it was.
 */
module FirmwareModel {
  import opened Options
  import opened Words
  import opened Measurements
  import opened ProtectionModel

  const MEASUREMENT_QUEUE_LENGTH: nat := 5
  const COMMAND_QUEUE_LENGTH: nat := 8

  datatype Command = RESET | REMOTE_RESET | ACK | REMOTE_ACK | OTHER

  // ---- Actuator policy ----

  datatype OutputCommand = OutputCommand(relayCommandedOn: bool, ledNormal: bool, ledAlert: bool)

  function OutputsForState(state: SystemState): OutputCommand {
    match state
    case NORMAL => OutputCommand(true, true, false)
    case WARNING => OutputCommand(true, false, true)
    case FAULT => OutputCommand(false, false, true)
    case INIT => OutputCommand(false, false, false)
  }

  function OutputsForResult(r: ProtectionResult): OutputCommand {
    if r.synchronizationFailed then OutputsForState(FAULT) else OutputsForState(r.state)
  }

  datatype RelayOutputMode = HOLD_OFF | FOLLOW_STATE

  predicate RelayPinDrivenOn(commandedOn: bool, mode: RelayOutputMode) {
    commandedOn && mode == FOLLOW_STATE
  }

  /** The pin is driven on only in NORMAL and WARNING, and in a simulation build never. */
  lemma RelayPinPolicy(r: ProtectionResult, mode: RelayOutputMode)
    ensures RelayPinDrivenOn(OutputsForResult(r).relayCommandedOn, mode) <==>
            mode == FOLLOW_STATE && !r.synchronizationFailed && Energised(r.state)
  {
  }

  // ---- The lock-or-fail-closed wrapper ----

  /** The state src/protection.cpp owns: the core, and whether a lock failure is still to be latched. */
  datatype Guard = Guard(core: Core, pending: bool)

  function ApplyPending(g: Guard, now: Word): Guard {
    Guard(if g.pending then Raise(g.core, PROTECTION_INTERNAL, now) else g.core, false)
  }

  /** protectionUpdate for a sample, protectionTick without one. */
  function GuardedPoll(c: Config, g: Guard, sample: Option<Measurement>, locked: bool, now: Word)
    : (Guard, ProtectionResult)
  {
    if !locked then (g.(pending := true), LOCK_FAILURE_RESULT)
    else
      var k := ApplyPending(g, now).core;
      var next := if sample.Some? then Updated(c, k, sample.value, now) else Ticked(c, k, now);
      (Guard(next, false), Finish(k, next))
  }

  function GuardedReset(c: Config, g: Guard, locked: bool, now: Word): (Guard, ResetResult) {
    if !locked then (g, REJECTED_BUSY)
    else
      var k := ApplyPending(g, now).core;
      (Guard(ResetRequested(c, k, now), false), Verdict(c, k, now))
  }

  function GuardedAck(g: Guard, locked: bool): Guard {
    if locked then g.(core := Acknowledged(g.core)) else g
  }

  // ---- The system ----

  /** Where the control task stands. */
  datatype Phase =
    | Receiving
    | Deciding(sample: Option<Measurement>)
    | Applying(r: ProtectionResult)
    | Draining
    | Releasing

  datatype Firmware = Firmware(
    guard: Guard,
    outputs: OutputCommand,
    phase: Phase,
    samples: seq<Measurement>,
    commands: seq<Command>)

  datatype Action =
    | Produce(m: Measurement)
    | Request(command: Command)
    | Receive
    | Decide(locked: bool, now: Word)
    | Drive
    | Drain(locked: bool, now: Word)
    | Release
    | Trip

  function Start(t0: Word): Firmware {
    Firmware(Guard(Begun(t0), false), OutputsForState(INIT), Receiving, [], [])
  }

  function DrainStep(c: Config, f: Firmware, locked: bool, now: Word): Firmware
    requires f.phase == Draining
  {
    if f.commands == [] then f.(phase := Receiving)
    else
      var g := f.(commands := f.commands[1..]);
      match f.commands[0]
      case RESET | REMOTE_RESET =>
        var (guard, verdict) := GuardedReset(c, f.guard, locked, now);
        g.(guard := guard, phase := if verdict == ACCEPTED then Releasing else Draining)
      case ACK | REMOTE_ACK => g.(guard := GuardedAck(f.guard, locked))
      case OTHER => g
  }

  function Act(c: Config, f: Firmware, a: Action): Firmware {
    match a
    case Produce(m) =>
      if |f.samples| < MEASUREMENT_QUEUE_LENGTH then f.(samples := f.samples + [m]) else f
    case Request(command) =>
      if |f.commands| < COMMAND_QUEUE_LENGTH then f.(commands := f.commands + [command]) else f
    case Receive =>
      if f.phase != Receiving then f
      else if f.samples == [] then f.(phase := Deciding(None))
      else f.(phase := Deciding(Some(f.samples[0])), samples := f.samples[1..])
    case Decide(locked, now) =>
      if !f.phase.Deciding? then f
      else
        var (guard, r) := GuardedPoll(c, f.guard, f.phase.sample, locked, now);
        f.(guard := guard, phase := Applying(r))
    case Drive =>
      if f.phase.Applying? then f.(outputs := OutputsForResult(f.phase.r), phase := Draining) else f
    case Drain(locked, now) =>
      if f.phase == Draining then DrainStep(c, f, locked, now) else f
    case Release =>
      if f.phase == Releasing then f.(outputs := OutputsForState(INIT), phase := Draining) else f
    case Trip => f.(outputs := OutputsForState(FAULT))
  }

  function ActAll(c: Config, f: Firmware, acts: seq<Action>): Firmware
    decreases |acts|
  {
    if acts == [] then f else Act(c, ActAll(c, f, acts[..|acts| - 1]), acts[|acts| - 1])
  }

  lemma ActAllAppend(c: Config, f: Firmware, acts: seq<Action>, a: Action)
    ensures ActAll(c, f, acts + [a]) == Act(c, ActAll(c, f, acts), a)
  {
    assert (acts + [a])[..|acts|] == acts;
  }

  /** The system after the first i steps since start-up at t0. */
  function After(c: Config, t0: Word, acts: seq<Action>, i: nat): Firmware
    requires i <= |acts|
  {
    ActAll(c, Start(t0), acts[..i])
  }

  lemma AfterStep(c: Config, t0: Word, acts: seq<Action>, i: nat)
    requires i < |acts|
    ensures After(c, t0, acts, i + 1) == Act(c, After(c, t0, acts, i), acts[i])
  {
    assert acts[..i + 1][..i] == acts[..i];
  }
}
