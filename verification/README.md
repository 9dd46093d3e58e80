# Energy monitor: protection core, control loop, supervision and telemetry

This project models the safety logic of an ESP32 energy monitor that switches a relay, and proves what that logic
promises over whole runs. `dafny verify dfyconfig.toml` checks all of it.

- **Protection core** (`Words`, `Floats`, `Measurements`, `ProtectionModel`, `ProtectionCore`). The state machine
  INIT / NORMAL / WARNING / FAULT with its latch, confirmation timer, re-arm gate, silence detector and reset
  interlock, over 32-bit millisecond words with wrapping subtraction. `ProtectionCore` is the object the firmware
  holds; each of its methods is proved against a function on its state, and the theorems are about runs of those
  functions. Floats are exact reals with NaN and the infinities, compared as IEEE 754 does.
- **Theorems on core runs**. `CoreInvariants`: coherence, latch, fault count, operator record, reports, energising.
  `History`: the machine agrees with a definition that never mentions its fields. `TwoRuns`: clock translation and
  erasure of operator noise. `TrueTime`, `TrueTimeBounds`: bounds in unbounded time, with the exactness of the wrapped
  subtractions proved by induction. `SimulationCycle`: the simulation build latches a fault in every cycle.
- **Control loop** (`FirmwareModel`, `FirmwareSafety`, `FirmwareRuns`, `FirmwareTime`, `ControlLoop`). The sensor, the two bounded
  queues, the control task, the command drain loop, a lock that may be refused at any call and a watchdog that may trip
  at any moment, as a step system with arbitrary interleaving. The classes of `ControlLoop` are the code itself, proved
  to move exactly by those steps. `FirmwareTime` puts a ledger of unbounded times beside the loop and carries the bounds in
  true time over to the commanded relay.
- **Supervision** (`Heartbeat`, `Supervision`). The heartbeat table, the watchdog task's grace and scan, and the outputs it drives.
- **Telemetry** (`Decimal`, `Json`, `Telemetry`, `TelemetryTheorems`, `TelemetryFits`, `TelemetryMeaning`). The bounded in-place JSON
  writer refines an unbounded renderer; a reader after RFC 8259 (section 2 white space, section 4 objects, section 6
  numbers, section 7 strings) undoes it and finds each item under its key; the text always fits the publish buffer.

A *run* is a sequence of calls since `begin`, with arbitrary clock words unless stated otherwise. In an *honest* run every
clock word is an unbounded true time modulo 2^32. A reset request, an acknowledgement, an internal failure and a tick may
come at any point of any run.

## Where the code and its documentation differ

The model follows the code. Each difference is proved with the exact condition, and with a run or an input that shows it.

- `docs/fault-management.md` (sections 1 and 4) calls all timing correct across the clock's wrap. The re-arm gate is a
  signed comparison against the last `begin` or accepted reset, which a mains outage does not move
  (protection_core.cpp:93-99 and 157-158). After an outage, a good sample taken `t` ms after that point gets the state
  the policy asks for if and only if `t mod 2^32 < 2^31` (`MainsReturn`). In `HorizonIsTight`, a run with the
  shipped constants, one healthy sample a second is ignored after an outage and SENSOR_STALE latches although
  samples never stop. The relay stays off throughout; only availability is lost.
- The reset interlock bounds the age of the newest sample modulo 2^32, because in FAULT nothing else does
  (`ResetInterlock`). In `StaleResetAccepted` the sensor dies after one sample, and a reset one turn of the clock later is
  accepted on it.
- A comment at `src/protection.cpp:103-104` says a reset cannot erase a pending internal fault. The fault is latched and
  counted first, but the same call accepts the reset if and only if the newest sample is fresh, valid and no overload
  (`PendingFaultAtReset`; `PendingFaultErased` is such a run from start-up). A comment at line 24 says any failed call
  leaves a fault pending; only update and tick do.
- `docs/architecture.md` (failure table) gives a heartbeat limit of 6 s after a 10 s grace. The grace window re-opens at
  every turn of the clock. The first poll after the timeout trips if and only if it is not in that window
  (`FirstPollAfterTimeout`); the limit holds however the polls fall if and only if the poll period after the timeout is
  clear of it (`LimitClearOfGrace`). A silent task is always detected before last beat + timeout + grace + two poll
  periods (`DetectionLatency`); `OnePeriodIsNotEnough` is a run in which that is used up to the millisecond.
- `heartbeat_monitor.h:21` calls a slot healthy that has beaten within the timeout. A scan reads its clock before it enters
  the critical section, and so does a beat (src/watchdog_manager.cpp:92-96 and 120-124). If a beat is stamped later
  than the scan's reading and enters first, its age is nearly 2^32. A slot is reported if and only if it is the
  first whose age modulo 2^32 exceeds the timeout (`ReportedIffFirstOverdue`); in `PunctualTaskTrips` a task that beats
  once a second restarts the system.
- A float is printed through a 32-byte buffer. If sign and integer part take exactly 30 characters, the number ends in its
  decimal point and the telemetry text is not JSON (`ClippedIsNumber`, `TelemetryRoundTrip`, `HugePowerRefused`). Longer
  ones are cut to a far smaller number (`ClippedReadBack`, `CutFloats`). No sample the firmware builds is that large
  (`TelemetryAlwaysFits`).
- `evaluate` alone takes a NaN marked valid to NORMAL (`NaNAloneWouldEnergise`); validation rules that out
  (`ValidationClosesNaNHole`).

## Model

| member | source | states |
|---|---|---|
| ProtectionCores.ProtectionCore.constructor | lib/energy_core/src/protection_core.cpp:3-16 | A new core is in the state `begin(0)` gives, with the given configuration. |
| ProtectionCores.ProtectionCore.Begin | lib/energy_core/src/protection_core.cpp:18-30 | Whatever the object held before, afterwards it is a fresh core armed at `now`, off, with nothing latched, counted or remembered. |
| ProtectionCores.ProtectionCore.FinishCall | lib/energy_core/src/protection_core.cpp:45-55 | The result carries old and new state and fault; each change flag is set exactly if that item differs. |
| ProtectionCores.ProtectionCore.RaiseFault | lib/energy_core/src/protection_core.cpp:57-78 | The object moves as the specification's raise: the first cause is kept, the timer is stopped, NONE is ignored; all ten fields are determined. |
| ProtectionCores.ProtectionCore.EvaluateSample | lib/energy_core/src/protection_core.cpp:80-139 | The in-place branches give the whole state the specification's evaluation gives, in the code's order of tests. |
| ProtectionCores.ProtectionCore.Update | lib/energy_core/src/protection_core.cpp:141-166 | One update moves the whole state as specified (latched, gated or evaluated); the report names state and fault from before and after the call, and flags exactly what differs. |
| ProtectionCores.ProtectionCore.TickAt | lib/energy_core/src/protection_core.cpp:168-180 | A tick latches SENSOR_STALE exactly after too long a silence outside FAULT, and otherwise changes nothing; the report compares before and after. |
| ProtectionCores.ProtectionCore.RequestReset | lib/energy_core/src/protection_core.cpp:182-225 | The answer, which is also recorded, is the interlock's (ResetAnswers says which); beyond the record the state moves only on ACCEPTED. |
| ProtectionCores.ProtectionCore.Acknowledge | lib/energy_core/src/protection_core.cpp:227-238 | Granted exactly while a fault is active, and then sets only the acknowledged flag. |
| ProtectionCores.ProtectionCore.RaiseInternalFault | lib/energy_core/src/protection_core.cpp:240-246 | Latches PROTECTION_INTERNAL unless an older cause is latched; the report compares before and after. |
| ProtectionCores.ProtectionCore.TakeSnapshot | lib/energy_core/src/protection_core.cpp:248-257 | State, fault record and last answer are the object's own; the timer age is the wrapped time since the timer's start, 0 while none runs. |
| CoreInvariants.CoherentRun | lib/energy_core/src/protection_core.cpp:57-225 | In every run: FAULT iff a fault is active iff its code is not NONE; INIT awaits a first sample; the timer runs iff in WARNING on an overload; in NORMAL or WARNING the newest sample is valid, shows mains and alone decides which of the two. |
| CoreInvariants.LatchPersists | lib/energy_core/src/protection_core.h:84 | From any point in FAULT, as long as no reset is accepted, any calls leave state, cause, last fault, both times and the count as they were. |
| CoreInvariants.FaultAccounting | lib/energy_core/src/protection_core.cpp:57-78 | Over any run the fault counter is, modulo 2^32, the number of accepted resets plus one while a fault is latched. |
| CoreInvariants.OperatorRecord | lib/energy_core/src/protection_core.cpp:182-238 | In any run the last reset result is the last answer given, and a fault shows as acknowledged iff an acknowledgement was granted since the last accepted reset. |
| CoreInvariants.PolicyTable | docs/fault-management.md:26-45 | In every run, a sample that reaches evaluation gets exactly the table's state and fault, in plain numbers: stale, invalid, V at most the minimum, P at most or above each threshold, first sample, and confirmation time elapsed modulo 2^32. |
| CoreInvariants.ReportsTellAll | lib/energy_core/src/protection_core.cpp:45-55 | In every run each report starts from the state and fault that the answers before it tell, and flags exactly what changed; the answers alone tell the core's state, its active fault, and the last fault with its time, which resets do not erase. |
| CoreInvariants.EnergisingStep | lib/energy_core/src/protection_core.h:85-88 | A core that is off turns on iff it is in INIT and the call is an update with a valid, fresh sample, past the re-arm point, with mains and no overload. |
| CoreInvariants.LastAcceptedReset | lib/energy_core/src/protection_core.cpp:208-222 | A core that was in FAULT and no longer is was let out by an accepted reset, and its re-arm point is the word of the last one. |
| CoreInvariants.NoReenergisingOntoHazard | lib/energy_core/src/protection_core.cpp:93-222 | Between any FAULT and any later relay-on lie an accepted reset and after it a permitting sample not older than that reset; the relay is off until then. |
| CoreInvariants.LastIsBuilt | lib/energy_core/src/measurement_core.cpp:53-102 | Fed only by validation, the remembered sample is one that validation produced. |
| CoreInvariants.ValidationClosesNaNHole | lib/energy_core/src/measurement_core.cpp:59-101 | Fed only by validation, NaN and infinite readings included, an energised core rests on a finite, in-range sample with mains present and P at most 1.1 V I + 2; its timer runs iff P is above the fault threshold, and it is in NORMAL iff P is at most both thresholds. |
| CoreInvariants.NaNAloneWouldEnergise | lib/energy_core/src/protection_core.cpp:93-138 | Without validation, one NaN sample marked valid takes a fresh core to NORMAL. |
| History.HistoryRefinement | lib/energy_core/src/protection_core.cpp:57-225 | For every call sequence: FAULT iff a latching event occurred since the last accepted reset, its cause and time those of the earliest; otherwise state, re-arm flag, silence clock and timer are those of the evaluated samples, the timer's start being the first sample of the final overload run. |
| History.AgreesWithinSegment | lib/energy_core/src/protection_core.cpp:141-180 | Any call but an accepted reset keeps the machine in agreement with the history extended by it. |
| History.AgreesAfterReset | lib/energy_core/src/protection_core.cpp:210-222 | An accepted reset makes the machine agree with an empty new segment armed at the reset. |
| History.RunStart | lib/energy_core/src/protection_core.cpp:112-126 | The index found begins the longest run of overload samples that ends at the newest one. |
| History.CausesAppend | lib/energy_core/src/protection_core.cpp:64-74 | A further call changes the cause of no earlier one, and makes a segment faulted only by its own cause. |
| History.ResetAnswers | lib/energy_core/src/protection_core.cpp:182-206 | For every history a reset is answered: no fault iff none is latched, no measurement iff there was no sample, stale iff the newest one's age modulo 2^32 exceeds maxAge, invalid iff it is fresh and invalid, unsafe iff fresh, valid and above the threshold, accepted otherwise. |
| History.SnapshotTells | lib/energy_core/src/protection_core.cpp:248-257 | For every history the snapshot shows the state, first cause and cause time it determines, the timer age since the final overload run's first sample, and the last answer, acknowledgement, last fault and count that the answers leave. |
| TwoRuns.ClockTranslation | lib/energy_core/src/protection_core.cpp:18-257 | Adding any constant modulo 2^32 to every call time and timestamp changes no result, state, code, verdict or timer age of any run; live clock words move by that constant. |
| TwoRuns.OperatorNoiseErasure | lib/energy_core/src/protection_core.cpp:182-238 | Deleting every acknowledgement and refused reset from any run changes no outcome of the other calls, and of the final state only the acknowledged flag and the last reset result. |
| TrueTime.ClocksTrueRun | lib/energy_core/src/protection_core.cpp:18-222 | In every honest run the silence clock, the running timer's start and the re-arm point are the true times of the calls that set them, modulo 2^32. |
| TrueTime.HeardRun | lib/energy_core/src/protection_core.cpp:168-180 | With poll gaps d and maxAge + d < 2^32, an energised core heard a sample at most maxAge before the last poll, in true time. |
| TrueTime.TimerRun | lib/energy_core/src/protection_core.cpp:112-125 | With confirm + maxAge + d < 2^32, at the last sample heard a running timer was younger than the confirmation time, in true time. |
| TrueTimeBounds.OverloadExposure | lib/energy_core/src/protection_core.cpp:112-180 | An overload energised after every call since some call i has its last poll less than confirm + maxAge after call i, in true time and across the wrap, with poll gaps d and confirm + maxAge + d < 2^32. |
| TrueTimeBounds.SnapshotTimerAge | lib/energy_core/src/protection_core.cpp:254 | While an overload is energised, the timer age a snapshot shows is the true time since the call at which the overload began, across the wrap, with poll gaps d and confirm + maxAge + d < 2^32. |
| TrueTimeBounds.DataAge | lib/energy_core/src/protection_core.cpp:82-177 | Whenever the core is energised, the sample behind it was taken at most 2 maxAge before the last poll in true time, with poll gaps d, maxAge + d < 2^32, and no sample 2^32 ms on its way. |
| TrueTimeBounds.ResetInterlock | lib/energy_core/src/protection_core.cpp:182-206 | A reset at any true time is accepted iff a fault is latched, a sample exists, and it is valid, no overload and of an age that modulo 2^32 is at most maxAge; it is refused as stale iff that age is larger. |
| TrueTimeBounds.StaleResetAccepted | lib/energy_core/src/protection_core.cpp:194-198 | With the shipped constants, after any one healthy sample and then only a tick every second, a reset in the 3 s after the clock's next turn is accepted on that sample. |
| TrueTimeBounds.MainsReturn | lib/energy_core/src/protection_core.cpp:93-161 | In INIT, a good sample taken t ms after the last re-arm point gets NORMAL, WARNING or immediate OVERPOWER as the policy asks iff t mod 2^32 < 2^31, and is otherwise ignored with the relay off. |
| TrueTimeBounds.MainsReturnWithinHorizon | docs/fault-management.md:74-79 | Within 2^31 ms of the last re-arm point, the first good sample after an outage always gets the policy's state. |
| TrueTimeBounds.OutageWaits | lib/energy_core/src/protection_core.cpp:93-99 | With the shipped constants, through a mains outage of any length below the horizon, sampled once a second, the core waits in INIT, heard from and unlatched. |
| TrueTimeBounds.HorizonIsTight | lib/energy_core/src/protection_core.cpp:155-161 | With the shipped constants and one sample a second without a gap, three healthy samples just past the horizon are ignored and the next tick latches SENSOR_STALE. |
| Measurements.BuildMeasurementMeaning | lib/energy_core/src/measurement_core.cpp:53-102 | A sample is valid iff the reading is finite, in range and physically consistent; it then carries the meter's values, and otherwise six zeros and exactly the first reason that applies. |
| Measurements.BuiltNumbersBounded | lib/energy_core/src/measurement_core.cpp:69-101 | Every number of every built sample is finite, not negative and at most its limit; apparent power at most 30000. |
| Measurements.SimulationProfile | lib/energy_core/src/measurement_core.cpp:104-137 | At every clock word the simulated sample is valid, 230 V, 0 kWh, and 0.20 A and 40 W, 2.17 A and 500 W, or 2.60 A and 600 W by thirds of a 15 s cycle, with consistent apparent power and a power factor of at most 1. |
| SimulationCycle.EveryCycleFaults | lib/energy_core/src/measurement_core.cpp:104-137 | With samples at most 1 s apart and any mix of ticks, acknowledgements, resets and internal faults, the core is in FAULT from phase 13999 of every completed cycle to its end, across any number of wraps. |
| SimulationCycle.WrapRestartsThePhase | lib/energy_core/src/measurement_core.cpp:107 | At the clock's wrap the phase is 2295 and the next millisecond starts a whole cycle. |
| FirmwareModel.RelayPinPolicy | lib/energy_core/src/actuator_policy.cpp:3-32 | The pin is driven on iff the build follows the state, the lock was held and the state is NORMAL or WARNING. |
| FirmwareSafety.PollIsSound | src/protection.cpp:65-93 | A poll leaves a failure pending iff its lock was refused, and otherwise reports the state the core is in. |
| FirmwareSafety.ResetIsSound | src/protection.cpp:95-111 | A reset answers BUSY iff its lock was refused, is accepted only under the lock and out of a latched or pending fault, and then leaves INIT with nothing pending; any other outcome leaves the core or its hold as it was. |
| FirmwareSafety.ComposedRelaySafety | src/main.cpp:179-235 | In every reachable state of every interleaving with lock failures and trips anywhere: once a decision is driven, relay on implies NORMAL or WARNING and nothing pending; both queues keep their bounds. |
| FirmwareSafety.PendingFaultRaisesNoFlag | src/main.cpp:112-132 | A poll that latches a pending failure returns FAULT with both change flags clear, so driving outputs on every result is needed. |
| FirmwareSafety.PendingFaultAtReset | src/protection.cpp:95-111 | A pending failure is latched and counted before the reset is judged, and the same call accepts the reset iff the newest sample is fresh, valid and no overload. |
| FirmwareSafety.PendingFaultErased | src/protection.cpp:102-106 | For every configuration and good sample, a run from start-up: relay on, the next poll's lock refused, relay off, and a reset that counts, records and erases the failure in one call. |
| FirmwareSafety.HeldUntilResetAndGoodSample | src/main.cpp:184-230 | From any moment with outputs off and a fault latched or pending, relay-on comes only after an accepted reset and after that a decision on a permitting sample. |
| FirmwareSafety.LockFailureHoldsRelayOff | src/protection.cpp:65-93 | The same from any poll whose lock was refused, whatever the core and the relay were doing. |
| FirmwareSafety.OffUntilGoodSample | src/main.cpp:211-216 | From any moment off, the relay's state turns on only by a decision on a permitting sample, with nothing pending. |
| FirmwareSafety.OutputsShowLastDriven | src/actuator.cpp:12-60 | In every reachable state the relay and both LEDs show the state driven last: that of a result, INIT after an accepted reset, FAULT on a trip or a lock failure. |
| FirmwareSafety.TripOpensRelay | src/main.cpp:504-508 | A trip at any moment opens the relay and leaves only the alert LED lit; the relay stays off until a result obtained under the lock in an energised state is driven. |
| FirmwareSafety.AcceptedResetShowsInit | src/main.cpp:211-216 | After an accepted reset the next drive shows INIT, whatever the outputs showed. |
| FirmwareRuns.FirmwareRunIsCoreRun | src/protection.cpp:65-126 | The core inside any run of the control loop is the core after the calls that run made on it, so every theorem on core runs applies. |
| FirmwareRuns.FirmwareFaultAccounting | src/protection.cpp:40-107 | Over any run of the control loop the fault counter is, modulo 2^32, accepted resets plus one while latched, lock failures included. |
| FirmwareRuns.FlowStep | src/main.cpp:145-198 | One step moves, adds or loses at most one sample of those given to the core, in hand or queued, and reorders none. |
| FirmwareRuns.SampleFlow | src/main.cpp:145-198 | Samples given, in hand and queued are together a subsequence of those produced; with the lost ones they make up all. |
| FirmwareRuns.SamplesInOrderOnce | src/main.cpp:145-198 | The core is given samples in production order, none twice and none invented; each other one is on its way, dropped by a full queue or refused with a lock. |
| FirmwareRuns.CommandFlow | src/main.cpp:102-110 | Commands executed and waiting are together a subsequence of those requested; with the dropped ones they make up all. |
| FirmwareRuns.CommandsInOrderOnce | src/main.cpp:200-230 | Commands are executed in the order requested, none twice and none invented; each other one is waiting or was dropped by a full queue. |
| FirmwareTime.LedgerOnlyWatches | src/main.cpp:179-235 | A timed run is a run of the control loop: the ledger changes nothing. |
| FirmwareTime.TrackedRun | src/main.cpp:145-194 | In every timed run with poll gaps d, the ledger's stamps are those of the samples in flight, and one now at place i of the queue was sent at most (5 - i) d before the last poll. |
| FirmwareTime.HonestCall | src/main.cpp:190-196 | So every sample reaches the core at most delay + 6 d after it was taken, where delay bounds the time from taking to sending. |
| FirmwareTime.RecordedRun | src/protection.cpp:65-111 | In every timed run the core's clock words and its newest timestamp are the ledger's times modulo 2^32, refused locks and pending failures included. |
| FirmwareTime.RelayDataAge | src/main.cpp:184-198 | With maxAge + d and delay + 6 d below 2^32: whenever a relay commanded on has been driven, it rests on a valid sample taken at most 2 maxAge before the last poll, whatever locks were refused and however samples queued. |
| FirmwareTime.RelayExposure | src/main.cpp:184-198 | With confirm + maxAge + d below 2^32: if in every driven state after some step the relay is on and the newest sample an overload, the last poll came less than confirm + maxAge after that step. |
| ControlLoop.Protection.constructor | src/protection.cpp:49-63 | The wrapper starts with a begun core and nothing pending. |
| ControlLoop.Protection.ApplyPendingInternalFault | src/protection.cpp:40-46 | The flag is cleared, and if it was set the internal fault is raised. |
| ControlLoop.Protection.Update | src/protection.cpp:65-78 | Without the lock: the core is untouched, the flag set, and the result is FAULT for an internal fault with both change flags set; otherwise pending fault first, then the sample. |
| ControlLoop.Protection.Tick | src/protection.cpp:80-93 | The same for a poll without a sample. |
| ControlLoop.Protection.Reset | src/protection.cpp:95-111 | BUSY iff the lock was refused, and then no change; otherwise the pending fault, then the interlock. |
| ControlLoop.Protection.Acknowledge | src/protection.cpp:113-126 | Granted iff the lock was taken and a fault was active; without the lock nothing changes. |
| ControlLoop.Protection.GetSnapshot | src/protection.cpp:128-143 | Without the lock the snapshot shows an active PROTECTION_INTERNAL fault and nothing else. |
| ControlLoop.Actuator.constructor | src/actuator.cpp:36-50 | The relay starts commanded off with its pin at the off level, both LEDs dark. |
| ControlLoop.Actuator.Drive | src/actuator.cpp:12-24 | All outputs become those given, and the pin is at its on level iff the relay is commanded on and the build is no simulation. |
| ControlLoop.Actuator.ApplyState | src/actuator.cpp:52-55 | The relay is commanded on iff the state is NORMAL or WARNING, the LEDs tell NORMAL from WARNING or FAULT, and the pin follows. |
| ControlLoop.Actuator.ApplyResult | src/actuator.cpp:57-60 | The relay is commanded on iff the lock was held and the state is NORMAL or WARNING; after a lock failure only the alert LED is lit; the pin follows. |
| ControlLoop.ControlTask.SendMeasurement | src/main.cpp:149-155 | A sample is appended, or dropped if the queue is full, as the step system's produce step. |
| ControlLoop.ControlTask.SendCommand | src/main.cpp:102-110 | A command is appended, or dropped if the queue is full, as the step system's request step. |
| ControlLoop.ControlTask.PollAndDrive | src/main.cpp:186-198 | Receiving, deciding and driving are exactly the step system's three steps, the pin follows, and no command is touched. |
| ControlLoop.ControlTask.ExecuteCommand | src/main.cpp:202-230 | Executing the first command is exactly the step system's drain and release. |
| ControlLoop.ControlTask.Pass | src/main.cpp:184-234 | A whole pass, with any lock outcomes and clock words, is a run of the step system's steps that leaves no command waiting and the pin following. |
| ControlLoop.ControlTask.constructor | src/main.cpp:734-740 | The assembled firmware starts as the step system does: begun core, outputs off, empty queues. |
| Supervision.WatchdogTask.constructor | src/main.cpp:481-486 | The task holds the table, the actuator, its own slot and its start-up word. |
| Supervision.WatchdogTask.Round | src/main.cpp:488-514 | A round trips iff that poll of the run does; then the relay and its pin are off and only the alert LED is lit, and otherwise no output changes; the task's own beat is recorded. |
| Heartbeat.HeartbeatMonitor.constructor | lib/energy_core/src/heartbeat_monitor.cpp:3-8 | At most eight slots, none of which has beaten. |
| Heartbeat.HeartbeatMonitor.Beat | lib/energy_core/src/heartbeat_monitor.cpp:10-18 | Only the given slot changes, and an unknown slot changes nothing. |
| Heartbeat.HeartbeatMonitor.AgeMs | lib/energy_core/src/heartbeat_monitor.cpp:20-27 | The wrapped age of the slot's last beat, or NEVER for an unknown or silent slot. |
| Heartbeat.HeartbeatMonitor.FirstStale | lib/energy_core/src/heartbeat_monitor.cpp:29-40 | The returned slot is stale and no earlier one is; the none value means no slot is. |
| Heartbeat.HeartbeatMonitor.Healthy | lib/energy_core/src/heartbeat_monitor.cpp:42-50 | True iff in the grace window or no slot is stale. |
| Heartbeat.BeatsInTable | lib/energy_core/src/heartbeat_monitor.cpp:10-18 | In every run the table knows which slots have beaten and the word of each one's newest beat, whatever other slots do. |
| Heartbeat.ReportedIffFirstOverdue | src/watchdog_manager.cpp:87-127 | In every run a slot is the one a scan reports iff it never beat or its age modulo 2^32 exceeds the limit, and no earlier slot's does; beats stamped after the scan's reading included. |
| Heartbeat.TripsIff | src/main.cpp:488-513 | A poll drives the safe output iff the clock shows it past the grace and some slot is overdue. |
| Heartbeat.NeverReportingTrips | lib/energy_core/src/heartbeat_monitor.h:7-8 | A task that never beat makes every poll past the grace trip. |
| Heartbeat.SilentTripsIffPastGrace | src/main.cpp:493-513 | A task silent for longer than the timeout, and less than a turn of the clock, makes a poll trip iff the poll is past the grace. |
| Heartbeat.FirstPollAfterTimeout | docs/architecture.md:79 | With polls at most p apart, the first poll after a silent task's timeout comes within p of it, and trips iff the clock does not show it in the grace window. |
| Heartbeat.LimitClearOfGrace | docs/architecture.md:79 | Every poll time within p after the timeout is past the grace iff there is no grace or the end of that span lies at least grace + p - 1 into its turn of the clock, counted from start-up. |
| Heartbeat.DetectionLatency | src/main.cpp:486-518 | With polls at most p apart, a task silent since true time s trips a poll before s + timeout + grace + 2p, across both wraps and the recurring grace window. |
| Heartbeat.PunctualNeverReported | lib/energy_core/src/heartbeat_monitor.cpp:29-40 | A task whose newest beat is no later than the scan's clock reading and within the timeout of it is never the slot reported. |
| Heartbeat.OvertakenScanTrips | src/watchdog_manager.cpp:92-124 | A beat stamped after the scan's clock reading makes its slot overdue, and the poll trip iff past the grace. |
| Heartbeat.PunctualTaskTrips | src/watchdog_manager.cpp:92-124 | A run with the shipped constants in which a task beats once a second, no poll trips for n seconds, and the next trips because the beat overtook it by a millisecond. |
| Heartbeat.OnePeriodIsNotEnough | src/main.cpp:486-518 | A run with the shipped constants and poll gaps between 1000 and 1296 ms whose first trip comes at s + timeout + grace + 2p - 1 with p = 1296, later than s + timeout + grace + p. |
| Decimal.DigitsReadBack | lib/energy_core/src/telemetry_json.cpp:82-87 | The printed digits of any number denote that number. |
| Decimal.DigitsLength | lib/energy_core/src/telemetry_json.cpp:82-87 | A number below 10^k prints in at most k digits. |
| Decimal.FixedReadBack | lib/energy_core/src/telemetry_json.cpp:70-80 | A printed float that is not cut off denotes the value to within half a unit of its last place. |
| Decimal.ClippedIsNumber | lib/energy_core/src/telemetry_json.cpp:77-79 | What the 32-byte buffer leaves of a printed float is a JSON number iff its sign and integer part do not take exactly 30 characters. |
| Decimal.ClippedReadBack | lib/energy_core/src/telemetry_json.cpp:77-79 | For every value, what the 32-byte buffer leaves denotes it to within half a unit of its last place iff sign and integer part take at most 31 characters and not 30, and every decimal cut off is a zero. |
| Decimal.CutFloats | lib/energy_core/src/telemetry_json.cpp:77-79 | 2^97 is left without a number, and 2^103 reads back as a far smaller one. |
| Decimal.FixedTextLength | lib/energy_core/src/telemetry_json.cpp:70-80 | A value between 0 and a k-digit maximum prints in at most k + 1 + d characters. |
| Json.RenderFieldsAppend | lib/energy_core/src/telemetry_json.cpp:60-68 | Appending a member as the writer does, with a comma unless first, renders the longer object. |
| Json.StringRoundTrip | lib/energy_core/src/telemetry_json.cpp:35-58 | Any characters at all are read back from their escaped form, whatever follows. |
| Json.EscapeOnlyForbidden | lib/energy_core/src/telemetry_json.cpp:40-55 | A character is escaped iff the grammar forbids it raw; a control character becomes exactly the four lower-case hexadecimal digits that denote it. |
| Json.ValueRoundTrip | lib/energy_core/src/telemetry_json.cpp:70-89 | Every string, flag, null and grammatical number is read back as itself. |
| Json.FieldRoundTrip | lib/energy_core/src/telemetry_json.cpp:60-68 | A rendered member is read back with its key, and reading stops right after it. |
| Json.ObjectRoundTrip | lib/energy_core/src/telemetry_json.cpp:106-129 | A rendered object is read back field by field in order with any text after it: no string content changes the structure. |
| Json.ObjectRefused | lib/energy_core/src/telemetry_json.cpp:70-80 | One ungrammatical number anywhere makes the reader refuse the whole object, whatever follows. |
| Telemetry.Writer.constructor | lib/energy_core/src/telemetry_json.cpp:100-102 | The writer starts with an empty text and the buffer's NUL in place. |
| Telemetry.Writer.Raw | lib/energy_core/src/telemetry_json.cpp:17-27 | Appends to the text asked for; the invariant says the flag holds iff all of it and a NUL fit, the buffer then holds exactly it, and nothing past it is touched. |
| Telemetry.Writer.Ch | lib/energy_core/src/telemetry_json.cpp:29-33 | The same for one character. |
| Telemetry.Writer.Escaped | lib/energy_core/src/telemetry_json.cpp:40-55 | Appends the character's escaped form. |
| Telemetry.Writer.Str | lib/energy_core/src/telemetry_json.cpp:35-58 | Appends the quoted and escaped string; a null pointer counts as empty. |
| Telemetry.Writer.Key | lib/energy_core/src/telemetry_json.cpp:60-68 | Appends comma unless first, quoted key and colon. |
| Telemetry.Writer.PutFloat | lib/energy_core/src/telemetry_json.cpp:70-80 | Appends the printed, clipped number, or null unless finite. |
| Telemetry.Writer.PutU32 | lib/energy_core/src/telemetry_json.cpp:82-87 | Appends the decimal digits. |
| Telemetry.Writer.Boolean | lib/energy_core/src/telemetry_json.cpp:89 | Appends true or false. |
| Telemetry.WriteIdentity | lib/energy_core/src/telemetry_json.cpp:108-115 | Appends the eight identity members in order. |
| Telemetry.WriteReading | lib/energy_core/src/telemetry_json.cpp:116-121 | Appends the six readings in order, each with its number of decimals; ReadingSaid says which reading stands under which key. |
| Telemetry.WriteProtection | lib/energy_core/src/telemetry_json.cpp:122-128 | Appends the seven protection members in order. |
| Telemetry.WriteObject | lib/energy_core/src/telemetry_json.cpp:106-129 | The calls made append exactly the rendering of the input, whether or not it fits. |
| Telemetry.BuildTelemetryJson | lib/energy_core/src/telemetry_json.cpp:93-138 | For every input and size: returns the length and leaves exactly the rendering, its NUL and an untouched rest iff rendering and NUL fit; otherwise -1 and the empty string; with no room nothing is written. TelemetryTells says what the rendering means. |
| Telemetry.SourceName | lib/energy_core/src/measurement_core.cpp:5-13 | The name needs no escaping and has at most 10 characters. |
| Telemetry.StatusName | lib/energy_core/src/measurement_core.cpp:15-26 | The name needs no escaping and has at most 15 characters. |
| Telemetry.StateName | lib/energy_core/src/protection_core.cpp:259-269 | The name needs no escaping and has at most 7 characters. |
| Telemetry.FaultName | lib/energy_core/src/protection_core.cpp:271-282 | The name needs no escaping and has at most 19 characters. |
| Telemetry.ResetName | lib/energy_core/src/protection_core.cpp:284-298 | The name needs no escaping and has at most 28 characters. |
| TelemetryTheorems.ReaderIsSound | lib/energy_core/src/telemetry_json.cpp:70-80 | The reader never returns a number outside the grammar, on any text. |
| TelemetryTheorems.TelemetryRoundTrip | lib/energy_core/src/telemetry_json.cpp:93-138 | For every input and trailing text the reader recovers all 22 fields in order, unless a float is cut off right after its decimal point, and then refuses the text. |
| TelemetryTheorems.HugePowerRefused | lib/energy_core/src/telemetry_json.cpp:77-79 | Any telemetry with a power of 2^97 W is refused by the reader. |
| TelemetryMeaning.TelemetryTells | lib/energy_core/src/telemetry_json.cpp:106-129 | For every legible input and trailing text the reader gets 22 members, no key twice, and finds under each key a value that denotes that item of the input: strings and words exactly, flags, the literal name of each enum value, and floats with sign, decimals and value. |
| TelemetryMeaning.IdentitySaid | lib/energy_core/src/telemetry_json.cpp:107-115 | Under the nine keys from schema_version to measurement_age_ms stand version 2 and the input's own strings, source, flags, status, uptime and age. |
| TelemetryMeaning.ReadingSaid | lib/energy_core/src/telemetry_json.cpp:116-121 | Under each of the six reading keys stands that very reading: null if it is not finite, else a number of its sign within half a unit of the 2nd or 3rd decimal iff nothing that counts was cut off. |
| TelemetryMeaning.ProtectionSaid | lib/energy_core/src/telemetry_json.cpp:122-128 | Under the seven keys from state to relay_output_enabled stand the literal names and flags of the input's own snapshot and relay. |
| TelemetryMeaning.ReadingsArePrecise | lib/energy_core/src/telemetry_json.cpp:116-121 | For every sample the firmware can hold, each reading is published under its key to within half a unit of its last decimal. |
| TelemetryTheorems.TextDeterminesInput | lib/energy_core/src/telemetry_json.cpp:106-129 | Equal texts come from equal strings, flags, names and 32-bit numbers. |
| TelemetryFits.TelemetryAlwaysFits | src/mqtt_manager.cpp:171-187 | For samples in the validated ranges, any snapshot, times, flags and legal device ID, text and NUL fit 768 bytes with firmware version 1.3.0, and the text is readable. |
| TelemetryFits.EverySampleRanged | lib/energy_core/src/measurement_core.cpp:28-137 | Every built, simulated or zero sample has its numbers in those ranges. |
| TelemetryFits.PublishTelemetry | src/mqtt_manager.cpp:181-187 | Building into the publish buffer never fails for such inputs. |

## Left out

- Floats: rounding, overflow to infinity and the sign of zero. Arithmetic is exact, so a limit that single precision
  shifts by a unit in the last place is not seen, and a negative zero prints without its sign.
- Decimal.FixedReadBack: the printed float is the exact value rounded to the nearest, ties to even; how a particular C library
  breaks ties is not modelled. What a cut-off text denotes is ClippedReadBack's matter.
- TrueTimeBounds.DataAge: assumes no sample takes a whole turn of the clock to reach the core; with words alone such a
  sample cannot be told from a fresh one.
- TrueTimeBounds.OverloadExposure: speaks of the last poll; up to one poll gap d more can pass before the next one.
- Heartbeat.DetectionLatency: assumes timeout + grace + 3p below 2^32, and that a scan reads the clock at most p after its grace test.
- Heartbeat.PunctualNeverReported: assumes that the newest beat is stamped no later than the scan's clock reading, and a
  timeout below 2^32 - 1, the value that stands for no beat at all. ReportedIffFirstOverdue assumes neither.
- `size_t` is taken as 32 bits wide, so the none value is 2^32 - 1.
- ControlLoop.ControlTask.Pass: one pass by itself; what other tasks do during a pass is covered by the step system,
  of which a pass is proved to be a run.
- FirmwareSafety.ComposedRelaySafety: says nothing between a decision and its drive.
- FirmwareSafety.TripOpensRelay: in the 100 ms between a trip and the restart a live control task may drive the relay on again;
  the restart itself is not modelled.
- FirmwareTime.RelayExposure: speaks of the last poll; up to one poll gap d more can pass before the next one is driven.
- Queue waits (50 ms to send, the control period to receive) are one atomic step that succeeds or does not.
- The lock is an outcome per call. Its timeout, the scheduler, priorities and the ESP-IDF task watchdog are not modelled.
- Pins: the read-back retry and its counter, the LED pins' levels, pin modes and the boot glitch.
- Enum values outside their range and the default branches they reach.
- The shared copy of the latest measurement that display and network tasks read.
- Json.ObjectRoundTrip: the reader covers flat objects of strings, numbers, booleans and null, without arrays or nesting. It
  takes characters one by one, so UTF-8 is not decoded, and it refuses an escaped surrogate, which the writer never emits.
- Telemetry.Writer.Raw: the sum of lengths is unbounded, where the code's `size_t` would wrap near its maximum; the result's
  conversion to `int` likewise.
- Wi-Fi, NTP, MQTT and Blynk connections, publication decisions, the command line, remote command parsing, topic names, the
  display, the meter driver and UART: an arbitrary reading, arbitrary commands and an arbitrary clock stand for them.
