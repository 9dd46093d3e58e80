/**
 Safety of the control loop over every interleaving, every placement of lock failures and
 every watchdog trip.
 */
module FirmwareSafety {
  import opened Options
  import opened Words
  import opened Measurements
  import opened ProtectionModel
  import opened CoreInvariants
  import opened FirmwareModel

  // ---- The relay follows the latch ----

  /**
   Except between a decision and the drive that follows it, a relay commanded on means the core is
   in NORMAL or WARNING and no lock failure is waiting to be latched.
   */
  ghost predicate RelaySafe(f: Firmware) {
    var relay := f.outputs.relayCommandedOn;
    match f.phase
    case Applying(r) =>
      if r.synchronizationFailed then f.guard.pending else !f.guard.pending && r.state == f.guard.core.state
    case Releasing => !relay && f.guard.core.state == INIT && !f.guard.pending
    case _ => relay ==> Energised(f.guard.core.state) && !f.guard.pending
  }

  ghost predicate Sound(c: Config, f: Firmware) {
    && Coherent(c, f.guard.core)
    && RelaySafe(f)
    && |f.samples| <= MEASUREMENT_QUEUE_LENGTH && |f.commands| <= COMMAND_QUEUE_LENGTH
  }

  lemma PollIsSound(c: Config, g: Guard, sample: Option<Measurement>, locked: bool, now: Word)
    requires Coherent(c, g.core)
    ensures var (h, r) := GuardedPoll(c, g, sample, locked, now);
            && Coherent(c, h.core)
            && h.pending == r.synchronizationFailed == !locked
            && (locked ==> r.state == h.core.state)
  {
    hide Coherent, Updated, Ticked, Raise;
    var k := ApplyPending(g, now).core;
    CoherentStep(c, g.core, Internal(now));
    CoherentStep(c, k, Tick(now));
    if sample.Some? {
      CoherentStep(c, k, Sample(sample.value, now));
    }
  }

  lemma ResetIsSound(c: Config, g: Guard, locked: bool, now: Word)
    requires Coherent(c, g.core)
    ensures var (h, v) := GuardedReset(c, g, locked, now);
            && Coherent(c, h.core)
            && (v == REJECTED_BUSY <==> !locked)
            && (v == ACCEPTED <==> locked && Verdict(c, ApplyPending(g, now).core, now) == ACCEPTED)
            && (v == ACCEPTED ==> h.core.state == INIT && !h.pending && (g.pending || g.core.state == FAULT))
            && (v != ACCEPTED && !g.pending ==> h.core.state == g.core.state && !h.pending)
            && (v != ACCEPTED && g.pending ==> h.pending || h.core.state == FAULT)
  {
    var k := ApplyPending(g, now).core;
    CoherentStep(c, g.core, Internal(now));
    CoherentStep(c, k, Reset(now));
  }

  lemma SoundStep(c: Config, f: Firmware, a: Action)
    requires Sound(c, f)
    ensures Sound(c, Act(c, f, a))
  {
    hide Coherent, GuardedPoll, GuardedReset;
    match a
    case Decide(locked, now) =>
      if f.phase.Deciding? {
        PollIsSound(c, f.guard, f.phase.sample, locked, now);
      }
    case Drain(locked, now) =>
      ResetIsSound(c, f.guard, locked, now);
      AckIsSound(c, f.guard, locked);
    case _ =>
  }

  lemma AckIsSound(c: Config, g: Guard, locked: bool)
    requires Coherent(c, g.core)
    ensures var h := GuardedAck(g, locked);
            Coherent(c, h.core) && h.core.state == g.core.state && h.pending == g.pending
  {
    CoherentStep(c, g.core, ProtectionModel.Ack);
  }

  /** In every reachable state, wherever the lock failures and trips fell, the relay is safe and the queues bounded. */
  lemma {:induction false} ComposedRelaySafety(c: Config, t0: Word, acts: seq<Action>)
    ensures Sound(c, ActAll(c, Start(t0), acts))
    decreases |acts|
  {
    hide Act, Sound;
    if acts == [] {
      SoundAtStart(c, t0);
    } else {
      ComposedRelaySafety(c, t0, acts[..|acts| - 1]);
      SoundStep(c, ActAll(c, Start(t0), acts[..|acts| - 1]), acts[|acts| - 1]);
    }
  }

  lemma SoundAtStart(c: Config, t0: Word)
    ensures Sound(c, Start(t0))
  {
  }

  /**
   Why the outputs are driven on every result: when a poll latches a pending lock failure, its result
   raises no change flag, although the core has just fallen from any state into FAULT.
   */
  lemma PendingFaultRaisesNoFlag(c: Config, g: Guard, sample: Option<Measurement>, now: Word)
    requires Coherent(c, g.core) && g.pending
    ensures var (h, r) := GuardedPoll(c, g, sample, true, now);
            && h.core.state == FAULT && r.state == FAULT
            && !r.stateChanged && !r.faultChanged && !r.synchronizationFailed
            && !OutputsForResult(r).relayCommandedOn
            && (g.core.state != FAULT ==> h.core.fault.activeFault == PROTECTION_INTERNAL)
  {
  }

  /**
   A reset that meets a pending lock failure latches it first: it is counted and, unless an older fault is
   latched, becomes the last fault. It is not guaranteed to stay latched: the same call accepts the reset
   if and only if the newest sample is fresh, valid and no overload.
   */
  lemma PendingFaultAtReset(c: Config, g: Guard, now: Word)
    requires Coherent(c, g.core) && g.pending
    ensures var (h, v) := GuardedReset(c, g, true, now);
            var was := g.core.fault;
            && (v == ACCEPTED <==>
                  && g.core.haveMeasurement && Fresh(c, g.core.last, now)
                  && g.core.last.valid && !Excessive(c, g.core.last))
            && h.core.state == (if v == ACCEPTED then INIT else FAULT)
            && h.core.fault.totalFaults == (if was.active then was.totalFaults else Increment(was.totalFaults))
            && h.core.fault.lastFault == (if was.active then was.lastFault else PROTECTION_INTERNAL)
            && !h.pending
  {
  }

  /** A good sample closes the relay, the next poll's lock is refused, and an operator asks for a reset. */
  function RefusedThenReset(t0: Word, m: Measurement): seq<Action> {
    [ Produce(m), Receive, Decide(true, t0), Drive, Drain(true, t0),
      Receive, Decide(false, t0), Drive, Request(RESET), Drain(true, t0) ]
  }

  /**
   The failing run behind PendingFaultAtReset, for every configuration and every good sample: before the reset
   the relay is off and the failure pending; the reset counts and records it, and erases it in the same call.
   */
  lemma PendingFaultErased(c: Config, t0: Word, m: Measurement)
    requires m.timestamp == t0 && m.valid && !NoMains(c, m) && !Excessive(c, m)
    ensures var acts := RefusedThenReset(t0, m);
            var f, g := After(c, t0, acts, 9), After(c, t0, acts, 10);
            && Energised(After(c, t0, acts, 5).guard.core.state) && After(c, t0, acts, 5).outputs.relayCommandedOn
            && f.guard.pending && !f.outputs.relayCommandedOn
            && g.phase == Releasing && g.guard.core.state == INIT && !g.guard.pending
            && !g.guard.core.fault.active && g.guard.core.fault.totalFaults == 1
            && g.guard.core.fault.lastFault == PROTECTION_INTERNAL && g.guard.core.lastReset == ACCEPTED
  {
    var acts := RefusedThenReset(t0, m);
    RelayCloses(c, t0, m);
    LockRefused(c, t0, m);
    var f := After(c, t0, acts, 9);
    ResetErases(c, f, t0);
    assert acts[9] == Drain(true, t0);
    hide Act, After, RefusedThenReset, NoMains, Excessive, GuardedReset;
    AfterStep(c, t0, acts, 9);
  }

  lemma ResetErases(c: Config, f: Firmware, now: Word)
    requires f.phase == Draining && f.commands == [RESET] && f.guard.pending
    requires var s := f.guard.core;
             && !s.fault.active && s.fault.totalFaults == 0 && s.haveMeasurement
             && s.last.timestamp == now && s.last.valid && !Excessive(c, s.last)
    ensures var g := Act(c, f, Drain(true, now));
            && g.phase == Releasing && g.guard.core.state == INIT && !g.guard.pending
            && !g.guard.core.fault.active && g.guard.core.fault.totalFaults == 1
            && g.guard.core.fault.lastFault == PROTECTION_INTERNAL && g.guard.core.lastReset == ACCEPTED
  {
    assert Since(now, now) == 0;
    hide Excessive, Since;
  }

  lemma RelayCloses(c: Config, t0: Word, m: Measurement)
    requires m.timestamp == t0 && m.valid && !NoMains(c, m) && !Excessive(c, m)
    ensures var f := After(c, t0, RefusedThenReset(t0, m), 5);
            && f.phase == Receiving && f.samples == [] && f.commands == [] && !f.guard.pending
            && f.outputs.relayCommandedOn && Energised(f.guard.core.state)
            && !f.guard.core.fault.active && f.guard.core.fault.totalFaults == 0
            && f.guard.core.haveMeasurement && f.guard.core.last == m
  {
    var acts := RefusedThenReset(t0, m);
    assert Since(t0, t0) == 0 && !Precedes(t0, t0);
    hide NoMains, Excessive, Since, Precedes;
    assert acts[..0] == [];
    AfterStep(c, t0, acts, 0);
    AfterStep(c, t0, acts, 1);
    AfterStep(c, t0, acts, 2);
    AfterStep(c, t0, acts, 3);
    AfterStep(c, t0, acts, 4);
  }

  lemma LockRefused(c: Config, t0: Word, m: Measurement)
    ensures var f, g := After(c, t0, RefusedThenReset(t0, m), 5), After(c, t0, RefusedThenReset(t0, m), 9);
            f.phase == Receiving && f.samples == [] && f.commands == [] ==>
              && g.phase == Draining && g.commands == [RESET] && !g.outputs.relayCommandedOn
              && g.guard == f.guard.(pending := true)
  {
    var acts := RefusedThenReset(t0, m);
    AfterStep(c, t0, acts, 5);
    AfterStep(c, t0, acts, 6);
    AfterStep(c, t0, acts, 7);
    AfterStep(c, t0, acts, 8);
  }

  // ---- A failure holds the relay off ----

  /** What the outputs will be once the control task has caught up: off. */
  ghost predicate OutputsOff(f: Firmware) {
    if f.phase.Applying? then !OutputsForResult(f.phase.r).relayCommandedOn else !f.outputs.relayCommandedOn
  }

  /** The relay is off and a reset is needed before it can close. */
  ghost predicate Held(f: Firmware) {
    OutputsOff(f) && (f.guard.pending || f.guard.core.state == FAULT)
  }

  /** The relay is off and a good sample is needed before it can close. */
  ghost predicate Off(f: Firmware) {
    OutputsOff(f) && (f.guard.pending || !Energised(f.guard.core.state))
  }

  /** This step takes a reset from the queue and the interlock, with any pending failure latched first, accepts it. */
  ghost predicate AcceptsReset(c: Config, f: Firmware, a: Action) {
    && f.phase == Draining && a.Drain? && a.locked
    && f.commands != [] && (f.commands[0] == RESET || f.commands[0] == REMOTE_RESET)
    && Verdict(c, ApplyPending(f.guard, a.now).core, a.now) == ACCEPTED
  }

  /** This step decides, with the lock held and nothing pending, on a sample that permits closing the relay. */
  ghost predicate DecidesOnGoodSample(c: Config, f: Firmware, a: Action) {
    && a.Decide? && a.locked && !f.guard.pending
    && f.phase.Deciding? && f.phase.sample.Some?
    && f.guard.core.state == INIT
    && Permits(c, f.guard.core, Sample(f.phase.sample.value, a.now))
  }

  lemma PollFromOff(c: Config, g: Guard, sample: Option<Measurement>, locked: bool, now: Word)
    requires Coherent(c, g.core) && (g.pending || !Energised(g.core.state))
    ensures var (h, r) := GuardedPoll(c, g, sample, locked, now);
            && (g.pending || g.core.state == FAULT ==>
                  (h.pending || h.core.state == FAULT) && !OutputsForResult(r).relayCommandedOn)
            && (locked && Energised(h.core.state) ==>
                  !g.pending && g.core.state == INIT && sample.Some? && Permits(c, g.core, Sample(sample.value, now)))
            && (OutputsForResult(r).relayCommandedOn ==> locked && Energised(h.core.state))
  {
    var k := ApplyPending(g, now).core;
    CoherentStep(c, g.core, Internal(now));
    if sample.Some? {
      PollSampleFromOff(c, k, sample.value, now);
    }
  }

  lemma PollSampleFromOff(c: Config, k: Core, m: Measurement, now: Word)
    requires Coherent(c, k) && !Energised(k.state)
    ensures k.state == FAULT ==> Updated(c, k, m, now).state == FAULT
    ensures Energised(Updated(c, k, m, now).state) ==> k.state == INIT && Permits(c, k, Sample(m, now))
  {
    EnergisingStep(c, k, Sample(m, now));
  }

  lemma HeldStep(c: Config, f: Firmware, a: Action)
    requires Sound(c, f) && Held(f)
    ensures AcceptsReset(c, f, a) ==> Off(Act(c, f, a))
    ensures !AcceptsReset(c, f, a) ==> Held(Act(c, f, a))
  {
    hide Coherent, GuardedPoll, GuardedReset;
    match a
    case Decide(locked, now) =>
      if f.phase.Deciding? {
        PollFromOff(c, f.guard, f.phase.sample, locked, now);
      }
    case Drain(locked, now) =>
      ResetIsSound(c, f.guard, locked, now);
      AckIsSound(c, f.guard, locked);
    case _ =>
  }

  lemma OffStep(c: Config, f: Firmware, a: Action)
    requires Sound(c, f) && Off(f)
    ensures DecidesOnGoodSample(c, f, a) || Off(Act(c, f, a))
  {
    hide Coherent, GuardedPoll, GuardedReset, Permits;
    match a
    case Decide(locked, now) =>
      if f.phase.Deciding? {
        PollIsSound(c, f.guard, f.phase.sample, locked, now);
        PollFromOff(c, f.guard, f.phase.sample, locked, now);
      }
    case Drain(locked, now) =>
      ResetIsSound(c, f.guard, locked, now);
      AckIsSound(c, f.guard, locked);
    case _ =>
  }

  lemma {:induction false} OffUntilGoodSample(c: Config, t0: Word, acts: seq<Action>, i: nat, j: nat) returns (l: nat)
    requires i <= j <= |acts|
    requires Off(After(c, t0, acts, i)) && !Off(After(c, t0, acts, j))
    ensures i <= l < j && DecidesOnGoodSample(c, After(c, t0, acts, l), acts[l])
    decreases j - i
  {
    hide Act, Off, DecidesOnGoodSample, Sound;
    ComposedRelaySafety(c, t0, acts[..i]);
    OffStep(c, After(c, t0, acts, i), acts[i]);
    AfterStep(c, t0, acts, i);
    if Off(After(c, t0, acts, i + 1)) {
      l := OffUntilGoodSample(c, t0, acts, i + 1, j);
    } else {
      l := i;
    }
  }

  /**
   From any moment at which a fault is latched or a lock failure is pending and the outputs are off,
   the relay stays off until a reset has been accepted (k) and after that the control task has decided on a
   sample that permits closing (l). Lock failures, trips and queue traffic may fall anywhere.
   */
  lemma {:induction false} HeldUntilResetAndGoodSample(c: Config, t0: Word, acts: seq<Action>, i: nat, j: nat)
    returns (k: nat, l: nat)
    requires i <= j <= |acts|
    requires Held(After(c, t0, acts, i))
    requires !After(c, t0, acts, j).phase.Applying? && After(c, t0, acts, j).outputs.relayCommandedOn
    ensures i <= k < l < j
    ensures AcceptsReset(c, After(c, t0, acts, k), acts[k])
    ensures DecidesOnGoodSample(c, After(c, t0, acts, l), acts[l])
    decreases j - i
  {
    hide Act, DecidesOnGoodSample, AcceptsReset, Sound;
    ComposedRelaySafety(c, t0, acts[..i]);
    HeldStep(c, After(c, t0, acts, i), acts[i]);
    AfterStep(c, t0, acts, i);
    if AcceptsReset(c, After(c, t0, acts, i), acts[i]) {
      k := i;
      l := OffUntilGoodSample(c, t0, acts, i + 1, j);
    } else {
      k, l := HeldUntilResetAndGoodSample(c, t0, acts, i + 1, j);
    }
  }

  /** In particular from any poll whose lock was refused, whatever state the core and the relay were in. */
  lemma LockFailureHoldsRelayOff(c: Config, t0: Word, acts: seq<Action>, i: nat, j: nat) returns (k: nat, l: nat)
    requires i < j <= |acts|
    requires acts[i].Decide? && !acts[i].locked && After(c, t0, acts, i).phase.Deciding?
    requires !After(c, t0, acts, j).phase.Applying? && After(c, t0, acts, j).outputs.relayCommandedOn
    ensures i < k < l < j
    ensures AcceptsReset(c, After(c, t0, acts, k), acts[k])
    ensures DecidesOnGoodSample(c, After(c, t0, acts, l), acts[l])
  {
    AfterStep(c, t0, acts, i);
    hide AcceptsReset, DecidesOnGoodSample;
    k, l := HeldUntilResetAndGoodSample(c, t0, acts, i + 1, j);
  }

  // ---- What the outputs show ----

  /** The relay is commanded on in NORMAL and WARNING only, and each LED is lit in its own states. */
  predicate ShowsState(o: OutputCommand, state: SystemState) {
    && (o.relayCommandedOn <==> state == NORMAL || state == WARNING)
    && (o.ledNormal <==> state == NORMAL)
    && (o.ledAlert <==> state == WARNING || state == FAULT)
  }

  /** The state a step drives, if it drives one: the result's, INIT after an accepted reset, FAULT on a trip. */
  function DrivenBy(f: Firmware, a: Action): Option<SystemState> {
    match a
    case Drive =>
      if !f.phase.Applying? then None
      else if f.phase.r.synchronizationFailed then Some(FAULT)
      else Some(f.phase.r.state)
    case Release => if f.phase == Releasing then Some(INIT) else None
    case Trip => Some(FAULT)
    case _ => None
  }

  /** The state driven last; INIT from start-up on. */
  function LastDriven(c: Config, t0: Word, acts: seq<Action>): SystemState
    decreases |acts|
  {
    if acts == [] then INIT
    else
      var init := acts[..|acts| - 1];
      var driven := DrivenBy(ActAll(c, Start(t0), init), acts[|acts| - 1]);
      if driven.Some? then driven.value else LastDriven(c, t0, init)
  }

  lemma OutputsStep(c: Config, f: Firmware, a: Action, state: SystemState)
    requires ShowsState(f.outputs, state)
    ensures var driven := DrivenBy(f, a);
            ShowsState(Act(c, f, a).outputs, if driven.Some? then driven.value else state)
  {
    hide GuardedPoll, GuardedReset, GuardedAck;
  }

  /** In every reachable state the outputs show the state driven last, by a result, a reset or a trip. */
  lemma {:induction false} OutputsShowLastDriven(c: Config, t0: Word, acts: seq<Action>)
    ensures ShowsState(ActAll(c, Start(t0), acts).outputs, LastDriven(c, t0, acts))
    decreases |acts|
  {
    hide Act, ShowsState, DrivenBy;
    if acts == [] {
      assert ShowsState(Start(t0).outputs, INIT) by { OutputsAtStart(t0); }
    } else {
      var init := acts[..|acts| - 1];
      OutputsShowLastDriven(c, t0, init);
      OutputsStep(c, ActAll(c, Start(t0), init), acts[|acts| - 1], LastDriven(c, t0, init));
    }
  }

  lemma OutputsAtStart(t0: Word)
    ensures ShowsState(Start(t0).outputs, INIT)
  {
  }

  /** This step drives the result of a poll that held the lock and found an energised state. */
  predicate DrivesEnergised(f: Firmware, a: Action) {
    a.Drive? && f.phase.Applying? && !f.phase.r.synchronizationFailed && Energised(f.phase.r.state)
  }

  /**
   A trip, at any moment, opens the relay, puts the normal LED out and lights the alert LED. The relay stays
   off until the control task drives a result obtained under the lock in an energised state.
   */
  lemma {:induction false} TripOpensRelay(c: Config, t0: Word, acts: seq<Action>, i: nat, j: nat)
    requires i < j <= |acts| && acts[i] == Trip
    requires forall k :: i < k < j ==> !DrivesEnergised(After(c, t0, acts, k), acts[k])
    ensures !After(c, t0, acts, j).outputs.relayCommandedOn
    ensures j == i + 1 ==> ShowsState(After(c, t0, acts, j).outputs, FAULT)
    decreases j
  {
    hide Act, DrivenBy, DrivesEnergised;
    var f, a := After(c, t0, acts, j - 1), acts[j - 1];
    OutputsShowLastDriven(c, t0, acts[..j - 1]);
    OutputsStep(c, f, a, LastDriven(c, t0, acts[..j - 1]));
    AfterStep(c, t0, acts, j - 1);
    DrivenEnergised(f, a);
    if j > i + 1 {
      TripOpensRelay(c, t0, acts, i, j - 1);
    }
  }

  lemma DrivenEnergised(f: Firmware, a: Action)
    ensures var driven := DrivenBy(f, a);
            && (a == Trip ==> driven == Some(FAULT))
            && (driven.Some? && (driven.value == NORMAL || driven.value == WARNING) ==> DrivesEnergised(f, a))
  {
  }

  /** An accepted reset is released next: the outputs then show INIT, whatever they showed. */
  lemma AcceptedResetShowsInit(c: Config, f: Firmware, a: Action)
    requires AcceptsReset(c, f, a)
    ensures var g := Act(c, f, a);
            g.phase == Releasing && ShowsState(Act(c, g, Release).outputs, INIT) && Act(c, g, Release).phase == Draining
  {
    hide ResetRequested, Verdict, Raise;
  }
}
