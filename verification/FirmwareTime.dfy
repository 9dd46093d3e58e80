/**
 The bounds in true time on the relay itself. The control loop runs with arbitrary interleaving, refused locks, trips
 and queue delay; a ledger beside it keeps the unbounded times behind its words. A refused poll never reaches the
 core, so the core may meanwhile rest on old data; the pending failure that it leaves is what keeps the relay safe.
 */
module FirmwareTime {
  import opened Options
  import opened Words
  import opened Measurements
  import opened ProtectionModel
  import opened CoreInvariants
  import opened TrueTime
  import opened TrueTimeBounds
  import opened FirmwareModel
  import opened FirmwareSafety

  /** A step at true time `at`; for Produce, of a sample taken at true time `taken`. */
  datatype Timed = Timed(at: nat, taken: nat, act: Action)

  datatype Stamp = Stamp(taken: nat, sentAt: nat)

  /**
   True times: of the last step, of the last poll, refused or not, of the newest sample given to the core, and of
   the samples in hand and queued; and those behind the core's clock words.
   */
  datatype Ledger = Ledger(
    now: nat,
    poll: nat,
    truth: Truth,
    newestAt: nat,
    newestTaken: nat,
    hand: Stamp,
    queue: seq<Stamp>)

  datatype System = System(f: Firmware, l: Ledger)

  // ---- The core's calls ----

  /** The call a step makes on the core, apart from latching a pending failure first. */
  function CallOf(f: Firmware, l: Ledger, x: Timed): Option<Stamped> {
    match x.act
    case Decide(true, now) =>
      if !f.phase.Deciding? then None
      else if f.phase.sample.Some? then Some(Stamped(x.at, l.hand.taken, Sample(f.phase.sample.value, now)))
      else Some(Stamped(x.at, 0, Tick(now)))
    case Drain(true, now) =>
      if f.phase != Draining || f.commands == [] || f.commands[0] == OTHER then None
      else if f.commands[0] == RESET || f.commands[0] == REMOTE_RESET then Some(Stamped(x.at, 0, Reset(now)))
      else Some(Stamped(x.at, 0, ProtectionModel.Ack))
    case _ => None
  }

  /** The core the call finds: every call but an acknowledgement latches a pending failure first. */
  function Primed(g: Guard, e: Event): Core {
    if g.pending && !e.Ack? then Raise(g.core, PROTECTION_INTERNAL, e.now) else g.core
  }

  predicate IsPollStep(f: Firmware, a: Action) {
    a.Decide? && f.phase.Deciding?
  }

  lemma CallMoves(c: Config, f: Firmware, l: Ledger, x: Timed)
    ensures var call, g := CallOf(f, l, x), Act(c, f, x.act).guard;
            && (call.None? ==> g == f.guard.(pending := f.guard.pending || IsPollStep(f, x.act)))
            && (call.Some? ==>
                  && g.core == Step(c, Primed(f.guard, call.value.event), call.value.event)
                  && g.pending == (f.guard.pending && call.value.event.Ack?)
                  && (IsPoll(call.value) <==> IsPollStep(f, x.act)))
  {
    hide Updated, Ticked, ResetRequested, Acknowledged, Raise, Verdict, Finish;
  }

  // ---- Timed runs ----

  function LedgerStep(c: Config, f: Firmware, l: Ledger, x: Timed): Ledger {
    var call := CallOf(f, l, x);
    var sample := call.Some? && call.value.event.Sample?;
    var received := x.act.Receive? && f.phase == Receiving && l.queue != [];
    Ledger(
      x.at,
      if IsPollStep(f, x.act) then x.at else l.poll,
      if call.Some? then TruthStep(c, Primed(f.guard, call.value.event), l.truth, call.value) else l.truth,
      if sample then x.at else l.newestAt,
      if sample then l.hand.taken else l.newestTaken,
      if received then l.queue[0] else l.hand,
      if received then l.queue[1..]
      else if x.act.Produce? && |l.queue| < MEASUREMENT_QUEUE_LENGTH then l.queue + [Stamp(x.taken, x.at)]
      else l.queue)
  }

  function SystemStep(c: Config, s: System, x: Timed): System {
    System(Act(c, s.f, x.act), LedgerStep(c, s.f, s.l, x))
  }

  function SystemAt(c: Config, t0: nat, xs: seq<Timed>): System
    decreases |xs|
  {
    if xs == [] then System(Start(Wrap(t0)), Ledger(t0, t0, Truth(t0, t0, t0), t0, t0, Stamp(t0, t0), []))
    else SystemStep(c, SystemAt(c, t0, xs[..|xs| - 1]), xs[|xs| - 1])
  }

  function Actions(xs: seq<Timed>): (acts: seq<Action>)
    ensures |acts| == |xs|
    ensures forall i :: 0 <= i < |xs| ==> acts[i] == xs[i].act
  {
    seq(|xs|, i requires 0 <= i < |xs| => xs[i].act)
  }

  /** The ledger only watches: a timed run is a run of the control loop. */
  lemma {:induction false} LedgerOnlyWatches(c: Config, t0: nat, xs: seq<Timed>)
    ensures SystemAt(c, t0, xs).f == ActAll(c, Start(Wrap(t0)), Actions(xs))
    decreases |xs|
  {
    hide Act, LedgerStep;
    if xs != [] {
      LedgerOnlyWatches(c, t0, xs[..|xs| - 1]);
      assert Actions(xs)[..|xs| - 1] == Actions(xs[..|xs| - 1]);
    }
  }

  /** The step's words are the clock's at its true times, and a sample is sent at most `delay` after it is taken. */
  predicate HonestStep(x: Timed, delay: nat) {
    match x.act
    case Produce(m) => m.timestamp == Wrap(x.taken) && x.taken <= x.at <= x.taken + delay
    case Decide(_, now) => now == Wrap(x.at)
    case Drain(_, now) => now == Wrap(x.at)
    case _ => true
  }

  /** Time never runs backwards, and the control task polls, with or without the lock, at most d apart. */
  predicate Scheduled(c: Config, t0: nat, xs: seq<Timed>, d: nat, delay: nat)
    decreases |xs|
  {
    xs == [] ||
    (var init, x := xs[..|xs| - 1], xs[|xs| - 1];
     var s := SystemAt(c, t0, init);
     && Scheduled(c, t0, init, d, delay)
     && HonestStep(x, delay)
     && s.l.now <= x.at
     && (IsPollStep(s.f, x.act) ==> x.at <= s.l.poll + d))
  }

  lemma ScheduledPrefix(c: Config, t0: nat, xs: seq<Timed>, d: nat, delay: nat, j: nat)
    requires Scheduled(c, t0, xs, d, delay) && j <= |xs|
    ensures Scheduled(c, t0, xs[..j], d, delay)
    decreases |xs|
  {
    if j < |xs| {
      assert xs[..j] == xs[..|xs| - 1][..j];
      ScheduledPrefix(c, t0, xs[..|xs| - 1], d, delay, j);
    } else {
      assert xs[..j] == xs;
    }
  }

  // ---- Samples in flight ----

  /** A sample with this stamp was sent in time, and at most k polls fit between its sending and the last one. */
  predicate InFlight(m: Measurement, p: Stamp, l: Ledger, d: nat, delay: nat, k: int) {
    && m.timestamp == Wrap(p.taken) && p.taken <= p.sentAt <= p.taken + delay
    && p.sentAt <= l.now && l.poll <= p.sentAt + k * d
  }

  /** How many polls the sample at the head of the queue may have waited for. */
  function Waited(f: Firmware): int {
    if f.phase.Deciding? then MEASUREMENT_QUEUE_LENGTH - 1 else MEASUREMENT_QUEUE_LENGTH
  }

  /**
   The ledger's stamps are those of the samples in hand and queued. Every poll takes one sample, if there is one, so
   a sample now at place i of the queue was sent at most 5 - i poll gaps before the last poll.
   */
  predicate Tracked(s: System, d: nat, delay: nat) {
    && s.l.poll <= s.l.now
    && |s.l.queue| == |s.f.samples| <= MEASUREMENT_QUEUE_LENGTH
    && (forall i :: 0 <= i < |s.l.queue| ==> InFlight(s.f.samples[i], s.l.queue[i], s.l, d, delay, Waited(s.f) - i))
    && (s.f.phase.Deciding? && s.f.phase.sample.Some? ==>
          InFlight(s.f.phase.sample.value, s.l.hand, s.l, d, delay, MEASUREMENT_QUEUE_LENGTH))
  }

  lemma InFlightLater(m: Measurement, p: Stamp, l: Ledger, g: Ledger, d: nat, delay: nat, k: int, n: int)
    requires InFlight(m, p, l, d, delay, k) && l.now <= g.now
    requires if n == k + 1 then g.poll <= l.poll + d else n == k && g.poll == l.poll
    ensures InFlight(m, p, g, d, delay, n)
  {
    assert (k + 1) * d == k * d + d;
  }

  lemma JustSent(m: Measurement, p: Stamp, l: Ledger, d: nat, delay: nat, k: int)
    requires m.timestamp == Wrap(p.taken) && p.taken <= p.sentAt == l.now <= p.taken + delay
    requires l.poll <= l.now && k >= 0
    ensures InFlight(m, p, l, d, delay, k)
  {
    assert k * d >= 0;
  }

  lemma TrackedStep(c: Config, s: System, x: Timed, d: nat, delay: nat)
    requires Tracked(s, d, delay) && HonestStep(x, delay) && s.l.now <= x.at
    requires IsPollStep(s.f, x.act) ==> x.at <= s.l.poll + d
    ensures Tracked(SystemStep(c, s, x), d, delay)
  {
    var t := SystemStep(c, s, x);
    QueueStep(c, s, x);
    hide SystemStep, InFlight, HonestStep, IsPollStep;
    forall i | 0 <= i < |t.l.queue|
      ensures InFlight(t.f.samples[i], t.l.queue[i], t.l, d, delay, Waited(t.f) - i)
    {
      PlaceTracked(c, s, x, d, delay, i);
    }
    if t.f.phase.Deciding? && t.f.phase.sample.Some? {
      HandTracked(c, s, x, d, delay);
    }
  }

  lemma PlaceTracked(c: Config, s: System, x: Timed, d: nat, delay: nat, i: nat)
    requires Tracked(s, d, delay) && HonestStep(x, delay) && s.l.now <= x.at
    requires IsPollStep(s.f, x.act) ==> x.at <= s.l.poll + d
    requires var t := SystemStep(c, s, x); i < |t.l.queue| == |t.f.samples| <= MEASUREMENT_QUEUE_LENGTH
    ensures var t := SystemStep(c, s, x); InFlight(t.f.samples[i], t.l.queue[i], t.l, d, delay, Waited(t.f) - i)
  {
    var t := SystemStep(c, s, x);
    QueueStep(c, s, x);
    hide SystemStep, InFlight, HonestStep;
    var j := if x.act.Receive? && s.f.phase == Receiving && s.f.samples != [] then i + 1 else i;
    if j < |s.l.queue| {
      assert InFlight(s.f.samples[j], s.l.queue[j], s.l, d, delay, Waited(s.f) - j);
      InFlightLater(s.f.samples[j], s.l.queue[j], s.l, t.l, d, delay, Waited(s.f) - j, Waited(t.f) - i);
    } else {
      HonestProduce(x, delay);
      JustSent(t.f.samples[i], t.l.queue[i], t.l, d, delay, Waited(t.f) - i);
    }
  }

  lemma HandTracked(c: Config, s: System, x: Timed, d: nat, delay: nat)
    requires Tracked(s, d, delay) && s.l.now <= x.at
    requires IsPollStep(s.f, x.act) ==> x.at <= s.l.poll + d
    requires var t := SystemStep(c, s, x); t.f.phase.Deciding? && t.f.phase.sample.Some?
    ensures var t := SystemStep(c, s, x);
            InFlight(t.f.phase.sample.value, t.l.hand, t.l, d, delay, MEASUREMENT_QUEUE_LENGTH)
  {
    var t := SystemStep(c, s, x);
    QueueStep(c, s, x);
    hide SystemStep, InFlight;
    if x.act.Receive? && s.f.phase == Receiving && s.f.samples != [] {
      assert InFlight(s.f.samples[0], s.l.queue[0], s.l, d, delay, Waited(s.f) - 0);
      InFlightLater(s.f.samples[0], s.l.queue[0], s.l, t.l, d, delay, Waited(s.f), MEASUREMENT_QUEUE_LENGTH);
    } else {
      InFlightLater(s.f.phase.sample.value, s.l.hand, s.l, t.l, d, delay,
                    MEASUREMENT_QUEUE_LENGTH, MEASUREMENT_QUEUE_LENGTH);
    }
  }

  lemma HonestProduce(x: Timed, delay: nat)
    requires HonestStep(x, delay) && x.act.Produce?
    ensures x.act.m.timestamp == Wrap(x.taken) && x.taken <= x.at <= x.taken + delay
  {
  }

  /** What a step does to the queue, the sample in hand and the phase. */
  lemma QueueStep(c: Config, s: System, x: Timed)
    requires |s.l.queue| == |s.f.samples| <= MEASUREMENT_QUEUE_LENGTH
    ensures var t := SystemStep(c, s, x);
            var received := x.act.Receive? && s.f.phase == Receiving && s.f.samples != [];
            var polled := IsPollStep(s.f, x.act);
            && t.l.now == x.at
            && t.l.poll == (if polled then x.at else s.l.poll)
            && (if received then
                  && t.f.samples == s.f.samples[1..] && t.l.queue == s.l.queue[1..]
                  && t.f.phase == Deciding(Some(s.f.samples[0])) && t.l.hand == s.l.queue[0]
                else
                  && t.l.hand == s.l.hand
                  && (if x.act.Produce? && |s.f.samples| < MEASUREMENT_QUEUE_LENGTH then
                        t.f.samples == s.f.samples + [x.act.m] && t.l.queue == s.l.queue + [Stamp(x.taken, x.at)]
                      else t.f.samples == s.f.samples && t.l.queue == s.l.queue)
                  && (if polled then !t.f.phase.Deciding?
                      else if s.f.phase.Deciding? then t.f.phase == s.f.phase
                      else t.f.phase.Deciding? ==> t.f.phase.sample.None? && s.f.samples == [] && !x.act.Produce?))
  {
    hide GuardedPoll, GuardedReset, GuardedAck, TruthStep, Primed;
  }

  lemma {:induction false} TrackedRun(c: Config, t0: nat, xs: seq<Timed>, d: nat, delay: nat)
    requires Scheduled(c, t0, xs, d, delay)
    ensures Tracked(SystemAt(c, t0, xs), d, delay)
    decreases |xs|
  {
    hide SystemStep, Tracked, HonestStep, IsPollStep;
    if xs == [] {
      TrackedAtStart(c, t0, d, delay);
    } else {
      var init := xs[..|xs| - 1];
      TrackedRun(c, t0, init, d, delay);
      TrackedStep(c, SystemAt(c, t0, init), xs[|xs| - 1], d, delay);
    }
  }

  lemma TrackedAtStart(c: Config, t0: nat, d: nat, delay: nat)
    ensures Tracked(SystemAt(c, t0, []), d, delay)
  {
  }

  // ---- What the relay rests on ----

  /** The clock words are the ledger's times, and the sample the core remembers is the one the ledger names. */
  predicate Recorded(s: System) {
    && ClocksTrue(s.f.guard.core, s.l.truth, s.l.now)
    && s.l.newestTaken <= s.l.newestAt <= s.l.poll
    && (s.f.guard.core.haveMeasurement ==> s.f.guard.core.last.timestamp == Wrap(s.l.newestTaken))
  }

  /** Unless a failure is pending, an energised core was heard from at most maxAge before the last poll, */
  predicate Heard(c: Config, s: System) {
    s.f.guard.pending || HeardRecently(c, s.f.guard.core, s.l.truth, s.l.poll)
  }

  /** rests on the newest sample, which was fresh when it came, */
  predicate Resting(c: Config, s: System) {
    s.f.guard.pending || RestsOnNewest(c, s.f.guard.core, s.l.truth, s.l.newestAt, s.l.newestTaken)
  }

  /** and has no confirmation timer that was due when it was last heard from. */
  predicate Confirming(c: Config, s: System) {
    s.f.guard.pending || TimerNotDue(c, s.f.guard.core, s.l.truth)
  }

  /** Latching a pending failure moves no clock, and leaves nothing energised. */
  lemma PrimedCore(c: Config, g: Guard, tr: Truth, e: Event, now: nat)
    requires Coherent(c, g.core) && ClocksTrue(g.core, tr, now)
    ensures var k := Primed(g, e);
            && Coherent(c, k) && ClocksTrue(k, tr, now)
            && k.haveMeasurement == g.core.haveMeasurement && k.last == g.core.last
            && (g.pending && !e.Ack? ==> k.state == FAULT && !k.timerActive)
  {
    if g.pending && !e.Ack? {
      CoherentStep(c, g.core, Internal(e.now));
    }
  }

  lemma HonestCall(s: System, x: Timed, d: nat, delay: nat)
    requires Tracked(s, d, delay) && HonestStep(x, delay) && s.l.now <= x.at
    requires IsPollStep(s.f, x.act) ==> x.at <= s.l.poll + d
    requires CallOf(s.f, s.l, x).Some?
    ensures var call := CallOf(s.f, s.l, x).value;
            && Honest(call) && call.at == x.at
            && (call.event.Sample? ==>
                  && IsPollStep(s.f, x.act) && call.taken == s.l.hand.taken
                  && call.at - call.taken <= delay + 6 * d)
  {
  }

  lemma RecordedStep(c: Config, s: System, x: Timed, d: nat, delay: nat)
    requires Coherent(c, s.f.guard.core) && Tracked(s, d, delay) && Recorded(s)
    requires HonestStep(x, delay) && s.l.now <= x.at
    requires IsPollStep(s.f, x.act) ==> x.at <= s.l.poll + d
    ensures Recorded(SystemStep(c, s, x))
  {
    CallMoves(c, s.f, s.l, x);
    var call := CallOf(s.f, s.l, x);
    ClocksTrueLater(s.f.guard.core, s.l.truth, s.l.now, x.at);
    if call.Some? {
      var k := Primed(s.f.guard, call.value.event);
      HonestCall(s, x, d, delay);
      hide Tracked, HonestStep, ClocksTrue, Coherent, Act, CallOf, Primed, Step, TruthStep, Wrap, IsPollStep;
      PrimedCore(c, s.f.guard, s.l.truth, call.value.event, x.at);
      ClocksTrueStep(c, k, s.l.truth, call.value, x.at);
      MemoryStep(c, k, call.value.event);
    }
  }

  lemma HeardOfStep(c: Config, s: System, x: Timed, d: nat, delay: nat)
    requires Coherent(c, s.f.guard.core) && Tracked(s, d, delay) && Recorded(s) && Heard(c, s)
    requires HonestStep(x, delay) && s.l.now <= x.at
    requires IsPollStep(s.f, x.act) ==> x.at <= s.l.poll + d
    requires c.maxMeasurementAgeMs + d < WORD
    ensures Heard(c, SystemStep(c, s, x))
  {
    CallMoves(c, s.f, s.l, x);
    var call := CallOf(s.f, s.l, x);
    ClocksTrueLater(s.f.guard.core, s.l.truth, s.l.now, x.at);
    if call.Some? {
      var k := Primed(s.f.guard, call.value.event);
      HonestCall(s, x, d, delay);
      PrimedCore(c, s.f.guard, s.l.truth, call.value.event, x.at);
      var poll := if s.f.guard.pending then x.at else s.l.poll;
      hide Tracked, HonestStep, ClocksTrue, Coherent, Act, CallOf, Step, TruthStep, Wrap, IsPollStep, IsPoll;
      if !(s.f.guard.pending && call.value.event.Ack?) {
        HeardStep(c, k, s.l.truth, call.value, poll, d);
      }
    }
  }

  lemma RestingStep(c: Config, s: System, x: Timed, d: nat, delay: nat)
    requires Coherent(c, s.f.guard.core) && Tracked(s, d, delay) && Recorded(s) && Resting(c, s)
    requires HonestStep(x, delay) && s.l.now <= x.at
    requires IsPollStep(s.f, x.act) ==> x.at <= s.l.poll + d
    requires delay + 6 * d < WORD
    ensures Resting(c, SystemStep(c, s, x))
  {
    CallMoves(c, s.f, s.l, x);
    var call := CallOf(s.f, s.l, x);
    ClocksTrueLater(s.f.guard.core, s.l.truth, s.l.now, x.at);
    if call.Some? {
      HonestCall(s, x, d, delay);
      PrimedCore(c, s.f.guard, s.l.truth, call.value.event, x.at);
      hide Tracked, HonestStep, ClocksTrue, Coherent, Act, CallOf, Step, TruthStep, Wrap, IsPollStep, IsPoll;
      if !(s.f.guard.pending && call.value.event.Ack?) {
        RestsOnNewestStep(c, Primed(s.f.guard, call.value.event), s.l.truth, call.value, s.l.newestAt, s.l.newestTaken);
      }
    }
  }

  lemma ConfirmingStep(c: Config, s: System, x: Timed, d: nat, delay: nat)
    requires Coherent(c, s.f.guard.core) && Tracked(s, d, delay) && Recorded(s) && Heard(c, s) && Confirming(c, s)
    requires HonestStep(x, delay) && s.l.now <= x.at
    requires IsPollStep(s.f, x.act) ==> x.at <= s.l.poll + d
    requires c.faultConfirmMs + c.maxMeasurementAgeMs + d < WORD
    ensures Confirming(c, SystemStep(c, s, x))
  {
    CallMoves(c, s.f, s.l, x);
    var call := CallOf(s.f, s.l, x);
    ClocksTrueLater(s.f.guard.core, s.l.truth, s.l.now, x.at);
    if call.Some? {
      var k := Primed(s.f.guard, call.value.event);
      HonestCall(s, x, d, delay);
      PrimedCore(c, s.f.guard, s.l.truth, call.value.event, x.at);
      var poll := if s.f.guard.pending then x.at else s.l.poll;
      hide Tracked, HonestStep, ClocksTrue, Coherent, Act, CallOf, Step, TruthStep, Wrap, IsPollStep, IsPoll;
      if !(s.f.guard.pending && call.value.event.Ack?) {
        TimerStep(c, k, s.l.truth, call.value, poll, d);
      }
    }
  }

  // ---- Whole runs ----

  lemma SystemSound(c: Config, t0: nat, xs: seq<Timed>)
    ensures Sound(c, SystemAt(c, t0, xs).f) && Coherent(c, SystemAt(c, t0, xs).f.guard.core)
  {
    LedgerOnlyWatches(c, t0, xs);
    ComposedRelaySafety(c, Wrap(t0), Actions(xs));
    hide Coherent, RelaySafe, ActAll, SystemAt;
  }

  lemma AllAtStart(c: Config, t0: nat)
    ensures var s := SystemAt(c, t0, []); Recorded(s) && Heard(c, s) && Resting(c, s) && Confirming(c, s)
  {
  }

  lemma {:induction false} RecordedRun(c: Config, t0: nat, xs: seq<Timed>, d: nat, delay: nat)
    requires Scheduled(c, t0, xs, d, delay)
    ensures Recorded(SystemAt(c, t0, xs))
    decreases |xs|
  {
    hide SystemStep, Tracked, Recorded, HonestStep, IsPollStep, Coherent, Sound;
    if xs == [] {
      AllAtStart(c, t0);
    } else {
      var init := xs[..|xs| - 1];
      RecordedRun(c, t0, init, d, delay);
      TrackedRun(c, t0, init, d, delay);
      SystemSound(c, t0, init);
      RecordedStep(c, SystemAt(c, t0, init), xs[|xs| - 1], d, delay);
    }
  }

  lemma {:induction false} HeardOfRun(c: Config, t0: nat, xs: seq<Timed>, d: nat, delay: nat)
    requires Scheduled(c, t0, xs, d, delay) && c.maxMeasurementAgeMs + d < WORD
    ensures Heard(c, SystemAt(c, t0, xs))
    decreases |xs|
  {
    hide SystemStep, Tracked, Recorded, Heard, HonestStep, IsPollStep, Coherent, Sound;
    if xs == [] {
      AllAtStart(c, t0);
    } else {
      var init := xs[..|xs| - 1];
      HeardOfRun(c, t0, init, d, delay);
      RecordedRun(c, t0, init, d, delay);
      TrackedRun(c, t0, init, d, delay);
      SystemSound(c, t0, init);
      HeardOfStep(c, SystemAt(c, t0, init), xs[|xs| - 1], d, delay);
    }
  }

  lemma {:induction false} RestingRun(c: Config, t0: nat, xs: seq<Timed>, d: nat, delay: nat)
    requires Scheduled(c, t0, xs, d, delay) && delay + 6 * d < WORD
    ensures Resting(c, SystemAt(c, t0, xs))
    decreases |xs|
  {
    hide SystemStep, Tracked, Recorded, Resting, HonestStep, IsPollStep, Coherent, Sound;
    if xs == [] {
      AllAtStart(c, t0);
    } else {
      var init := xs[..|xs| - 1];
      RestingRun(c, t0, init, d, delay);
      RecordedRun(c, t0, init, d, delay);
      TrackedRun(c, t0, init, d, delay);
      SystemSound(c, t0, init);
      RestingStep(c, SystemAt(c, t0, init), xs[|xs| - 1], d, delay);
    }
  }

  lemma {:induction false} ConfirmingRun(c: Config, t0: nat, xs: seq<Timed>, d: nat, delay: nat)
    requires Scheduled(c, t0, xs, d, delay) && c.faultConfirmMs + c.maxMeasurementAgeMs + d < WORD
    ensures Confirming(c, SystemAt(c, t0, xs))
    decreases |xs|
  {
    hide SystemStep, Tracked, Recorded, Heard, Confirming, HonestStep, IsPollStep, Coherent, Sound;
    if xs == [] {
      AllAtStart(c, t0);
    } else {
      var init := xs[..|xs| - 1];
      ConfirmingRun(c, t0, init, d, delay);
      HeardOfRun(c, t0, init, d, delay);
      RecordedRun(c, t0, init, d, delay);
      TrackedRun(c, t0, init, d, delay);
      SystemSound(c, t0, init);
      ConfirmingStep(c, SystemAt(c, t0, init), xs[|xs| - 1], d, delay);
    }
  }

  // ---- The bounds on the commanded relay ----

  /** No decision waits to be driven. */
  predicate Settled(f: Firmware) {
    !f.phase.Applying?
  }

  lemma RelayOnMeans(c: Config, f: Firmware)
    requires Sound(c, f) && Settled(f) && f.outputs.relayCommandedOn
    ensures !f.guard.pending && Energised(f.guard.core.state)
    ensures f.guard.core.haveMeasurement && f.guard.core.last.valid
    ensures Excessive(c, f.guard.core.last) <==> f.guard.core.timerActive
  {
    hide Excessive, NoMains;
  }

  /**
   Whenever a relay commanded on has been driven, it rests on a valid sample that was taken, in true time, at most two
   measurement ages before the last poll. Samples may wait in the queue and locks may be refused; that no sample
   takes a turn of the clock to arrive follows from the queue's length and the poll gap.
   */
  lemma RelayDataAge(c: Config, t0: nat, xs: seq<Timed>, d: nat, delay: nat)
    requires Scheduled(c, t0, xs, d, delay)
    requires c.maxMeasurementAgeMs + d < WORD && delay + 6 * d < WORD
    ensures var s := SystemAt(c, t0, xs);
            Settled(s.f) && s.f.outputs.relayCommandedOn ==>
              && s.f.guard.core.last.valid && s.f.guard.core.last.timestamp == Wrap(s.l.newestTaken)
              && s.l.newestTaken <= s.l.poll <= s.l.newestTaken + 2 * c.maxMeasurementAgeMs
  {
    var s := SystemAt(c, t0, xs);
    hide SystemAt, Scheduled, Sound, Wrap;
    if Settled(s.f) && s.f.outputs.relayCommandedOn {
      SystemSound(c, t0, xs);
      RecordedRun(c, t0, xs, d, delay);
      HeardOfRun(c, t0, xs, d, delay);
      RestingRun(c, t0, xs, d, delay);
      RelayOnMeans(c, s.f);
    }
  }

  /** The relay is commanded on and the newest sample shows an overload. */
  predicate RelayOnOverload(c: Config, f: Firmware) {
    f.outputs.relayCommandedOn && Excessive(c, f.guard.core.last)
  }

  predicate TimerRuns(f: Firmware) {
    f.guard.core.timerActive && !f.guard.pending
  }

  /** A timer that runs before and after a step was not restarted by it, nor by the drive of a decision. */
  lemma TimerNotRestarted(c: Config, s: System, x: Timed)
    requires TimerRuns(SystemStep(c, s, x).f)
    ensures !Settled(s.f) ==> TimerRuns(s.f)
    ensures TimerRuns(s.f) ==> SystemStep(c, s, x).l.truth.overSince == s.l.truth.overSince
  {
    CallMoves(c, s.f, s.l, x);
    hide Act, Step, Hears, Verdict;
  }

  /** The timer runs in every state after step i, up to the j-th, in which no decision waits to be driven. */
  ghost predicate TimerHeld(c: Config, t0: nat, xs: seq<Timed>, i: nat, j: nat)
    requires j <= |xs|
  {
    forall n :: i < n <= j && Settled(SystemAt(c, t0, xs[..n]).f) ==> TimerRuns(SystemAt(c, t0, xs[..n]).f)
  }

  lemma TimerHeldBefore(c: Config, t0: nat, xs: seq<Timed>, i: nat, j: nat)
    requires i < j < |xs| && TimerHeld(c, t0, xs, i, j + 1)
    ensures TimerHeld(c, t0, xs, i, j)
    ensures Settled(SystemAt(c, t0, xs[..j]).f) ==> TimerRuns(SystemAt(c, t0, xs[..j]).f)
  {
    hide SystemAt, Settled, TimerRuns;
  }

  lemma {:induction false} RelayTimerKept(c: Config, t0: nat, xs: seq<Timed>, d: nat, delay: nat, i: nat, j: nat)
    requires Scheduled(c, t0, xs, d, delay) && i < j <= |xs|
    requires TimerHeld(c, t0, xs, i, j) && TimerRuns(SystemAt(c, t0, xs[..j]).f)
    ensures SystemAt(c, t0, xs[..j]).l.truth.overSince <= xs[i].at
    decreases j
  {
    var now, before := xs[..j], xs[..j - 1];
    assert now[..j - 1] == before && now[j - 1] == xs[j - 1];
    hide *;
    if j == i + 1 {
      ScheduledPrefix(c, t0, xs, d, delay, j);
      RecordedRun(c, t0, now, d, delay);
      StartedBy(c, t0, now);
    } else {
      SystemOneMore(c, t0, now);
      TimerHeldBefore(c, t0, xs, i, j - 1);
      TimerNotRestarted(c, SystemAt(c, t0, before), xs[j - 1]);
      RelayTimerKept(c, t0, xs, d, delay, i, j - 1);
    }
  }

  lemma SystemOneMore(c: Config, t0: nat, xs: seq<Timed>)
    requires xs != []
    ensures SystemAt(c, t0, xs) == SystemStep(c, SystemAt(c, t0, xs[..|xs| - 1]), xs[|xs| - 1])
  {
  }

  lemma StartedBy(c: Config, t0: nat, xs: seq<Timed>)
    requires xs != [] && Recorded(SystemAt(c, t0, xs)) && TimerRuns(SystemAt(c, t0, xs).f)
    ensures SystemAt(c, t0, xs).l.truth.overSince <= xs[|xs| - 1].at
  {
    hide Act, Wrap;
  }

  /**
   No overload keeps the relay commanded on for longer than the confirmation time plus one measurement age: if in every
   state after step i in which no decision waits to be driven the relay is on and the newest sample is an overload, the
   last poll, with the lock or without, came less than that after step i.
   */
  lemma RelayExposure(c: Config, t0: nat, xs: seq<Timed>, d: nat, delay: nat, i: nat, j: nat)
    requires Scheduled(c, t0, xs, d, delay) && i < j <= |xs|
    requires c.faultConfirmMs + c.maxMeasurementAgeMs + d < WORD
    requires Settled(SystemAt(c, t0, xs[..j]).f)
    requires forall n :: i < n <= j && Settled(SystemAt(c, t0, xs[..n]).f) ==>
                           RelayOnOverload(c, SystemAt(c, t0, xs[..n]).f)
    ensures SystemAt(c, t0, xs[..j]).l.poll < xs[i].at + c.faultConfirmMs + c.maxMeasurementAgeMs
  {
    hide SystemAt, Scheduled, Sound, Excessive, Settled;
    forall n | i < n <= j && Settled(SystemAt(c, t0, xs[..n]).f)
      ensures TimerRuns(SystemAt(c, t0, xs[..n]).f)
    {
      SystemSound(c, t0, xs[..n]);
      RelayOnMeans(c, SystemAt(c, t0, xs[..n]).f);
    }
    SystemSound(c, t0, xs[..j]);
    RelayOnMeans(c, SystemAt(c, t0, xs[..j]).f);
    ScheduledPrefix(c, t0, xs, d, delay, j);
    HeardOfRun(c, t0, xs[..j], d, delay);
    ConfirmingRun(c, t0, xs[..j], d, delay);
    assert TimerHeld(c, t0, xs, i, j);
    RelayTimerKept(c, t0, xs, d, delay, i, j);
  }
}
