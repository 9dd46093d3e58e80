/**
 The watchdog task's loop body (src/main.cpp:488-514): it reports its own heartbeat, tests the start-up grace, scans the
 heartbeat table, and drives the safe outputs if some task is stale. The clock readings are parameters.
 */
module Supervision {
  import opened Words
  import opened ProtectionModel
  import opened FirmwareModel
  import opened FirmwareSafety
  import opened Heartbeat
  import opened ControlLoop

  class WatchdogTask {
    const monitor: HeartbeatMonitor
    const actuator: Actuator
    const ownSlot: nat
    const startup: Word
    const timeout: Word
    const grace: Word

    constructor (monitor: HeartbeatMonitor, actuator: Actuator, ownSlot: nat, startup: Word, timeout: Word, grace: Word)
      ensures this.monitor == monitor && this.actuator == actuator && this.ownSlot == ownSlot
      ensures this.startup == startup && this.timeout == timeout && this.grace == grace
    {
      this.monitor := monitor;
      this.actuator := actuator;
      this.ownSlot := ownSlot;
      this.startup := startup;
      this.timeout := timeout;
      this.grace := grace;
    }

    /**
     One round, in a run hs that left the table as it is: the task's own beat at beatAt, then the poll. It trips
     exactly if that poll of the run does. Then the relay is off, with its pin at the off level, and only the
     alert LED is lit; otherwise no output changes.
     */
    method Round(beatAt: nat, at: nat, scanAt: nat, ghost w: Watchdog, ghost hs: seq<Happening>) returns (tripped: bool)
      requires monitor.Valid() && w.slots == monitor.slots && w.timeout == timeout && w.grace == grace
      requires Wrap(w.startup) == startup && monitor.View() == TableAfter(w, hs)
      modifies monitor.last, monitor.seen, actuator
      ensures monitor.Valid() && monitor.View() == TableAfter(w, hs + [Heartbeat.Beat(ownSlot, beatAt)])
      ensures tripped <==> Trips(w, hs + [Heartbeat.Beat(ownSlot, beatAt)] + [Poll(at, scanAt)], |hs| + 1)
      ensures tripped ==> ShowsState(actuator.Outputs(), FAULT) && actuator.relayPin == actuator.offLevel
      ensures !tripped ==> actuator.Outputs() == old(actuator.Outputs()) && actuator.relayPin == old(actuator.relayPin)
    {
      ghost var beaten := hs + [Heartbeat.Beat(ownSlot, beatAt)];
      monitor.Beat(ownSlot, Wrap(beatAt));
      assert beaten[..|hs|] == hs;
      ghost var all := beaten + [Poll(at, scanAt)];
      assert all[..|hs| + 1] == beaten && all[|hs| + 1] == Poll(at, scanAt);
      tripped := false;
      if Since(Wrap(at), startup) >= grace {
        var slot := monitor.FirstStale(Wrap(scanAt), timeout);
        if slot != NO_SLOT {
          actuator.ApplyState(FAULT);
          tripped := true;
        }
      }
    }
  }
}
