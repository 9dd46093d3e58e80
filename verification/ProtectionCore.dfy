/**
 ProtectionCore as the firmware holds it: an object whose private fields each call updates
 in place (lib/energy_core/src/protection_core.cpp). `View` is its state as a value; every
 method is proved to move that value exactly as ProtectionModel says.
 */
module ProtectionCores {
  import opened Words
  import opened Floats
  import opened Measurements
  import opened ProtectionModel

  class ProtectionCore {
    const config: Config
    var state: SystemState
    var fault: FaultManager
    var timerActive: bool
    var timerStart: Word
    var haveMeasurement: bool
    var last: Measurement
    var lastSampleMs: Word
    var awaitingFirstSample: bool
    var rearmMs: Word
    var lastReset: ResetResult

    ghost function View(): Core
      reads this
    {
      Core(state, fault, timerActive, timerStart, haveMeasurement, last,
           lastSampleMs, awaitingFirstSample, rearmMs, lastReset)
    }

    constructor (config: Config)
      ensures this.config == config && View() == Begun(0)
    {
      this.config := config;
      state := INIT;
      fault := CLEAR_FAULTS;
      timerActive := false;
      timerStart := 0;
      haveMeasurement := false;
      last := ZERO_MEASUREMENT;
      lastSampleMs := 0;
      awaitingFirstSample := true;
      rearmMs := 0;
      lastReset := NOT_REQUESTED;
    }

    method Begin(now: Word)
      modifies this
      ensures View() == Begun(now)
    {
      state := INIT;
      fault := CLEAR_FAULTS;
      timerActive := false;
      timerStart := 0;
      haveMeasurement := false;
      last := ZERO_MEASUREMENT;
      lastSampleMs := now;
      awaitingFirstSample := true;
      rearmMs := now;
      lastReset := NOT_REQUESTED;
    }

    method FinishCall(prevState: SystemState, prevFault: FaultCode) returns (r: ProtectionResult)
      ensures Reports(r, prevState, prevFault, state, fault.activeFault)
    {
      r := ProtectionResult(state != prevState, fault.activeFault != prevFault,
                            prevState, state, prevFault, fault.activeFault, false);
    }

    method RaiseFault(code: FaultCode, now: Word)
      modifies this
      ensures View() == Raise(old(View()), code, now)
    {
      if code == NO_FAULT {
        return;
      }
      if !fault.active {
        fault := fault.(activeFault := code, lastFault := code, activeSince := now, lastFaultTime := now,
                        totalFaults := Increment(fault.totalFaults), active := true, acknowledged := false);
      }
      timerActive := false;
      state := FAULT;
    }

    method EvaluateSample(m: Measurement, now: Word)
      modifies this
      ensures View() == Evaluate(config, old(View()), m, now)
    {
      var isFresh := Since(now, m.timestamp) <= config.maxMeasurementAgeMs;
      if !isFresh {
        RaiseFault(SENSOR_STALE, now);
      } else if !m.valid {
        RaiseFault(SENSOR_INVALID, now);
      } else if Le(m.voltage, config.minOperatingVoltageV) {
        timerActive := false;
        state := INIT;
        awaitingFirstSample := true;
      } else if Gt(m.power, config.faultPowerW) {
        if awaitingFirstSample {
          RaiseFault(OVERPOWER, now);
          awaitingFirstSample := false;
          return;
        }
        if !timerActive {
          timerActive := true;
          timerStart := now;
        }
        if Since(now, timerStart) >= config.faultConfirmMs {
          RaiseFault(OVERPOWER, now);
        } else {
          state := WARNING;
        }
      } else if Gt(m.power, config.warningPowerW) {
        timerActive := false;
        state := WARNING;
        awaitingFirstSample := false;
      } else {
        timerActive := false;
        state := NORMAL;
        awaitingFirstSample := false;
      }
    }

    method Update(m: Measurement, now: Word) returns (r: ProtectionResult)
      modifies this
      ensures View() == Updated(config, old(View()), m, now)
      ensures r == Finish(old(View()), View())
      ensures Reports(r, old(state), old(fault.activeFault), state, fault.activeFault)
    {
      var prevState := state;
      var prevFault := fault.activeFault;
      last := m;
      haveMeasurement := true;
      if state == FAULT {
        lastSampleMs := now;
        r := FinishCall(prevState, prevFault);
        return;
      }
      if awaitingFirstSample && Precedes(m.timestamp, rearmMs) {
        r := FinishCall(prevState, prevFault);
        return;
      }
      lastSampleMs := now;
      EvaluateSample(m, now);
      r := FinishCall(prevState, prevFault);
    }

    method TickAt(now: Word) returns (r: ProtectionResult)
      modifies this
      ensures View() == Ticked(config, old(View()), now)
      ensures r == Finish(old(View()), View())
      ensures Reports(r, old(state), old(fault.activeFault), state, fault.activeFault)
    {
      var prevState := state;
      var prevFault := fault.activeFault;
      if state != FAULT && Since(now, lastSampleMs) > config.maxMeasurementAgeMs {
        RaiseFault(SENSOR_STALE, now);
      }
      r := FinishCall(prevState, prevFault);
    }

    method RequestReset(now: Word) returns (result: ResetResult)
      modifies this
      ensures View() == ResetRequested(config, old(View()), now)
      ensures result == Verdict(config, old(View()), now)
      ensures lastReset == result
    {
      result := ACCEPTED;
      if !fault.active {
        result := REJECTED_NO_ACTIVE_FAULT;
      } else if !haveMeasurement {
        result := REJECTED_NO_MEASUREMENT;
      } else if Since(now, last.timestamp) > config.maxMeasurementAgeMs {
        result := REJECTED_STALE_MEASUREMENT;
      } else if !last.valid {
        result := REJECTED_INVALID_MEASUREMENT;
      } else if Gt(last.power, config.faultPowerW) {
        result := REJECTED_UNSAFE_CONDITION;
      }
      lastReset := result;
      if result == ACCEPTED {
        fault := fault.(activeFault := NO_FAULT, active := false, acknowledged := false, activeSince := 0);
        timerActive := false;
        timerStart := 0;
        state := INIT;
        awaitingFirstSample := true;
        rearmMs := now;
        lastSampleMs := now;
      }
    }

    method Acknowledge() returns (ok: bool)
      modifies this
      ensures View() == Acknowledged(old(View()))
      ensures ok <==> old(fault.active)
    {
      if !fault.active {
        return false;
      }
      fault := fault.(acknowledged := true);
      ok := true;
    }

    method RaiseInternalFault(now: Word) returns (r: ProtectionResult)
      modifies this
      ensures View() == Raise(old(View()), PROTECTION_INTERNAL, now)
      ensures r == Finish(old(View()), View())
      ensures Reports(r, old(state), old(fault.activeFault), state, fault.activeFault)
    {
      var prevState := state;
      var prevFault := fault.activeFault;
      RaiseFault(PROTECTION_INTERNAL, now);
      r := FinishCall(prevState, prevFault);
    }

    method TakeSnapshot(now: Word) returns (s: Snapshot)
      ensures s == SnapshotOf(View(), now)
      ensures s.state == state && s.fault == fault && s.lastResetResult == lastReset
      ensures s.faultTimerActive == timerActive
      ensures s.faultTimerAgeMs == if timerActive then (now - timerStart) % 0x1_0000_0000 else 0
    {
      s := Snapshot(state, fault, timerActive, if timerActive then Since(now, timerStart) else 0, lastReset);
    }
  }
}
