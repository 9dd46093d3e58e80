/**
 The control loop as the firmware runs it: the lock-or-fail-closed wrapper with its pending flag
 (src/protection.cpp), the actuator (src/actuator.cpp) and one pass of the control task with its command drain
 loop (src/main.cpp). Whether each lock attempt succeeds and what the clock shows are parameters.
 */
module ControlLoop {
  import opened Options
  import opened Words
  import opened Measurements
  import opened ProtectionModel
  import opened ProtectionCores
  import opened FirmwareModel

  /** What a refused lock reports: FAULT for an internal fault, with both change flags set to be on the safe side. */
  predicate IsLockFailure(r: ProtectionResult) {
    && r.synchronizationFailed && r.stateChanged && r.faultChanged
    && r.previousState == FAULT && r.state == FAULT
    && r.previousFault == NO_FAULT && r.fault == PROTECTION_INTERNAL
  }

  class Protection {
    const core: ProtectionCore
    var internalFaultPending: bool

    ghost function View(): Guard
      reads this, core
    {
      Guard(core.View(), internalFaultPending)
    }

    constructor (config: Config, now: Word)
      ensures fresh(core) && core.config == config
      ensures View() == Guard(Begun(now), false)
    {
      var c := new ProtectionCore(config);
      core := c;
      internalFaultPending := false;
      new;
      core.Begin(now);
    }

    method ApplyPendingInternalFault(now: Word)
      modifies this, core
      ensures View() == ApplyPending(old(View()), now)
    {
      var pending := internalFaultPending;
      internalFaultPending := false;
      if pending {
        var _ := core.RaiseInternalFault(now);
      }
    }

    method Update(m: Measurement, locked: bool, now: Word) returns (r: ProtectionResult)
      modifies this, core
      ensures (View(), r) == GuardedPoll(core.config, old(View()), Some(m), locked, now)
      ensures !locked ==> IsLockFailure(r) && internalFaultPending && core.View() == old(core.View())
    {
      if !locked {
        internalFaultPending := true;
        return LOCK_FAILURE_RESULT;
      }
      ApplyPendingInternalFault(now);
      r := core.Update(m, now);
    }

    method Tick(locked: bool, now: Word) returns (r: ProtectionResult)
      modifies this, core
      ensures (View(), r) == GuardedPoll(core.config, old(View()), None, locked, now)
      ensures !locked ==> IsLockFailure(r) && internalFaultPending && core.View() == old(core.View())
    {
      if !locked {
        internalFaultPending := true;
        return LOCK_FAILURE_RESULT;
      }
      ApplyPendingInternalFault(now);
      r := core.TickAt(now);
    }

    method Reset(locked: bool, now: Word) returns (result: ResetResult)
      modifies this, core
      ensures (View(), result) == GuardedReset(core.config, old(View()), locked, now)
      ensures result == REJECTED_BUSY <==> !locked
    {
      if !locked {
        return REJECTED_BUSY;
      }
      ApplyPendingInternalFault(now);
      result := core.RequestReset(now);
    }

    method Acknowledge(locked: bool) returns (ok: bool)
      modifies this, core
      ensures View() == GuardedAck(old(View()), locked)
      ensures ok <==> locked && old(core.fault.active)
    {
      if !locked {
        return false;
      }
      ok := core.Acknowledge();
    }

    /** A refused lock yields a snapshot that shows the fault state, and never sets the pending flag. */
    method GetSnapshot(locked: bool, now: Word) returns (s: Snapshot)
      ensures locked ==> s == SnapshotOf(core.View(), now)
      ensures !locked ==> s.state == FAULT && s.fault.active && s.fault.activeFault == PROTECTION_INTERNAL
      ensures !locked ==> s.fault.totalFaults == 0 && !s.fault.acknowledged && s.lastResetResult == NOT_REQUESTED
    {
      if !locked {
        return Snapshot(FAULT, CLEAR_FAULTS.(activeFault := PROTECTION_INTERNAL, active := true),
                        false, 0, NOT_REQUESTED);
      }
      s := core.TakeSnapshot(now);
    }
  }

  /** The commanded outputs and the level written to the relay pin; a simulation build holds the pin off. */
  class Actuator {
    const mode: RelayOutputMode
    const onLevel: int
    const offLevel: int
    var commandedOn: bool
    var relayPin: int
    var ledNormal: bool
    var ledAlert: bool

    ghost function Outputs(): OutputCommand
      reads this
    {
      OutputCommand(commandedOn, ledNormal, ledAlert)
    }

    /** The pin is at its on level only while the relay is commanded on, and in a simulation build never. */
    ghost predicate PinFollows()
      reads this
    {
      relayPin == if commandedOn && mode == FOLLOW_STATE then onLevel else offLevel
    }

    constructor (mode: RelayOutputMode, onLevel: int, offLevel: int)
      ensures this.mode == mode && this.onLevel == onLevel && this.offLevel == offLevel
      ensures !commandedOn && !ledNormal && !ledAlert && relayPin == offLevel && PinFollows()
    {
      this.mode := mode;
      this.onLevel := onLevel;
      this.offLevel := offLevel;
      commandedOn := false;
      relayPin := offLevel;
      ledNormal := false;
      ledAlert := false;
    }

    method Drive(out: OutputCommand)
      modifies this
      ensures Outputs() == out && PinFollows()
    {
      commandedOn := out.relayCommandedOn;
      var drivenOn := RelayPinDrivenOn(commandedOn, mode);
      relayPin := if drivenOn then onLevel else offLevel;
      ledNormal := out.ledNormal;
      ledAlert := out.ledAlert;
    }

    method ApplyState(state: SystemState)
      modifies this
      ensures commandedOn <==> Energised(state)
      ensures (ledNormal <==> state == NORMAL) && (ledAlert <==> state == WARNING || state == FAULT)
      ensures PinFollows()
    {
      Drive(OutputsForState(state));
    }

    method ApplyResult(r: ProtectionResult)
      modifies this
      ensures commandedOn <==> !r.synchronizationFailed && Energised(r.state)
      ensures ledNormal <==> !r.synchronizationFailed && r.state == NORMAL
      ensures ledAlert <==> r.synchronizationFailed || r.state == WARNING || r.state == FAULT
      ensures PinFollows()
    {
      Drive(OutputsForResult(r));
    }
  }

  /** The look at an empty command queue that ends the drain loop. */
  const EMPTY_DRAIN := Drain(false, 0)

  /** The two steps that take one command off the queue; the k-th lock attempt and clock reading serve it. */
  function DrainOne(k: nat, locked: nat -> bool, clock: nat -> Word): seq<Action> {
    [Drain(locked(k), clock(k)), Release]
  }

  /** The steps of one pass of the control task that finds n commands waiting. */
  function PassActions(n: nat, locked: nat -> bool, clock: nat -> Word): seq<Action> {
    if n == 0 then [Receive, Decide(locked(0), clock(0)), Drive]
    else PassActions(n - 1, locked, clock) + DrainOne(n, locked, clock)
  }

  class ControlTask {
    const protection: Protection
    const actuator: Actuator
    var measurementQueue: seq<Measurement>
    var commandQueue: seq<Command>

    ghost function Repr(): set<object> {
      {this, protection, protection.core, actuator}
    }

    /** The system between two steps of the control task, which stands at `phase`. */
    ghost function View(phase: Phase): Firmware
      reads this, protection, protection.core, actuator
    {
      Firmware(protection.View(), actuator.Outputs(), phase, measurementQueue, commandQueue)
    }

    constructor (config: Config, now: Word, mode: RelayOutputMode, onLevel: int, offLevel: int)
      ensures fresh(Repr()) && protection.core.config == config && actuator.mode == mode
      ensures View(Receiving) == Start(now) && actuator.PinFollows()
    {
      var p := new Protection(config, now);
      var a := new Actuator(mode, onLevel, offLevel);
      protection := p;
      actuator := a;
      measurementQueue := [];
      commandQueue := [];
    }

    /** The sensor task's xQueueSend: when the queue stays full the new sample is dropped. */
    method SendMeasurement(m: Measurement, ghost phase: Phase) returns (sent: bool)
      modifies this
      ensures View(phase) == Act(protection.core.config, old(View(phase)), Produce(m))
      ensures sent <==> |old(measurementQueue)| < MEASUREMENT_QUEUE_LENGTH
    {
      sent := |measurementQueue| < MEASUREMENT_QUEUE_LENGTH;
      if sent {
        measurementQueue := measurementQueue + [m];
      }
    }

    method SendCommand(command: Command, ghost phase: Phase) returns (sent: bool)
      modifies this
      ensures View(phase) == Act(protection.core.config, old(View(phase)), Request(command))
      ensures sent <==> |old(commandQueue)| < COMMAND_QUEUE_LENGTH
    {
      sent := |commandQueue| < COMMAND_QUEUE_LENGTH;
      if sent {
        commandQueue := commandQueue + [command];
      }
    }

    /** Take a sample or time out, let the protection judge it, and drive the outputs on whatever it says. */
    method PollAndDrive(locked: bool, now: Word)
      modifies this, protection, protection.core, actuator
      ensures View(Draining) ==
              ActAll(protection.core.config, old(View(Receiving)), [Receive, Decide(locked, now), Drive])
      ensures commandQueue == old(commandQueue) && actuator.PinFollows()
    {
      ghost var c, f := protection.core.config, View(Receiving);
      var r: ProtectionResult;
      if measurementQueue != [] {
        var m := measurementQueue[0];
        measurementQueue := measurementQueue[1..];
        r := protection.Update(m, locked, now);
      } else {
        r := protection.Tick(locked, now);
      }
      actuator.ApplyResult(r);
      PollIsThreeSteps(c, f, locked, now);
    }

    /** Execute the command at the head of the queue; an accepted reset re-applies the INIT outputs. */
    method ExecuteCommand(locked: bool, now: Word)
      requires commandQueue != []
      modifies this, protection, protection.core, actuator
      ensures View(Draining) ==
              Act(protection.core.config, Act(protection.core.config, old(View(Draining)), Drain(locked, now)), Release)
      ensures commandQueue == old(commandQueue)[1..]
      ensures old(actuator.PinFollows()) ==> actuator.PinFollows()
    {
      var command := commandQueue[0];
      commandQueue := commandQueue[1..];
      match command
      case RESET | REMOTE_RESET =>
        var result := protection.Reset(locked, now);
        if result == ACCEPTED {
          actuator.ApplyState(INIT);
        }
      case ACK | REMOTE_ACK =>
        var _ := protection.Acknowledge(locked);
      case OTHER =>
    }

    /**
     One pass of the control task's loop. Its effect is that of the step system's own steps, so every
     invariant proved of all interleavings holds of the running loop.
     */
    method Pass(locked: nat -> bool, clock: nat -> Word)
      modifies this, protection, protection.core, actuator
      ensures View(Receiving) ==
              ActAll(protection.core.config, old(View(Receiving)),
                     PassActions(|old(commandQueue)|, locked, clock) + [EMPTY_DRAIN])
      ensures commandQueue == [] && actuator.PinFollows()
    {
      ghost var c, f, n := protection.core.config, View(Receiving), |commandQueue|;
      PollAndDrive(locked(0), clock(0));
      var k := 0;
      while commandQueue != []
        invariant k + |commandQueue| == n && actuator.PinFollows()
        invariant View(Draining) == ActAll(c, f, PassActions(k, locked, clock))
        decreases |commandQueue|
      {
        k := k + 1;
        ExecuteCommand(locked(k), clock(k));
        PassOneMore(c, f, k, locked, clock);
      }
      ActAllAppend(c, f, PassActions(n, locked, clock), EMPTY_DRAIN);
    }
  }

  lemma PollIsThreeSteps(c: Config, f: Firmware, locked: bool, now: Word)
    ensures ActAll(c, f, [Receive, Decide(locked, now), Drive]) ==
            Act(c, Act(c, Act(c, f, Receive), Decide(locked, now)), Drive)
  {
    hide Act;
    ActAllAppend(c, f, [], Receive);
    assert [] + [Receive] == [Receive];
    ActAllAppend(c, f, [Receive], Decide(locked, now));
    assert [Receive] + [Decide(locked, now)] == [Receive, Decide(locked, now)];
    ActAllAppend(c, f, [Receive, Decide(locked, now)], Drive);
    assert [Receive, Decide(locked, now)] + [Drive] == [Receive, Decide(locked, now), Drive];
  }

  lemma PassOneMore(c: Config, f: Firmware, k: nat, locked: nat -> bool, clock: nat -> Word)
    requires k > 0
    ensures ActAll(c, f, PassActions(k, locked, clock)) ==
            Act(c, Act(c, ActAll(c, f, PassActions(k - 1, locked, clock)), Drain(locked(k), clock(k))), Release)
  {
    hide Act;
    var acts := PassActions(k - 1, locked, clock);
    ActAllAppend(c, f, acts, Drain(locked(k), clock(k)));
    ActAllAppend(c, f, acts + [Drain(locked(k), clock(k))], Release);
    assert acts + [Drain(locked(k), clock(k))] + [Release] == PassActions(k, locked, clock);
  }
}
