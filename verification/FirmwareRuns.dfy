/**
 What a run of the control loop does to the core and to the samples: it is a run of the core's own calls, so
 every theorem about core runs holds of it, and samples reach the core in order, each at most once.
 */
module FirmwareRuns {
  import opened Words
  import opened Measurements
  import opened ProtectionModel
  import opened CoreInvariants
  import opened FirmwareModel

  // ---- Projection onto the core ----

  function PendingCalls(g: Guard, now: Word): seq<Event> {
    if g.pending then [Internal(now)] else []
  }

  /** The calls a step makes on the core. */
  function CallsOf(f: Firmware, a: Action): seq<Event> {
    match a
    case Decide(true, now) =>
      if !f.phase.Deciding? then []
      else
        PendingCalls(f.guard, now)
        + [if f.phase.sample.Some? then Sample(f.phase.sample.value, now) else Tick(now)]
    case Drain(true, now) =>
      if f.phase != Draining || f.commands == [] || f.commands[0] == OTHER then []
      else if f.commands[0] == RESET || f.commands[0] == REMOTE_RESET then PendingCalls(f.guard, now) + [Reset(now)]
      else [ProtectionModel.Ack]
    case _ => []
  }

  function Calls(c: Config, f: Firmware, acts: seq<Action>): seq<Event>
    decreases |acts|
  {
    if acts == [] then []
    else
      var init := acts[..|acts| - 1];
      Calls(c, f, init) + CallsOf(ActAll(c, f, init), acts[|acts| - 1])
  }

  lemma RunTwo(c: Config, s: Core, es: seq<Event>, calls: seq<Event>)
    requires |calls| <= 2
    ensures Run(c, s, es + calls) ==
            if calls == [] then Run(c, s, es)
            else if |calls| == 1 then Step(c, Run(c, s, es), calls[0])
            else Step(c, Step(c, Run(c, s, es), calls[0]), calls[1])
  {
    hide Step;
    if calls == [] {
      assert es + calls == es;
    } else {
      RunAppend(c, s, es, calls[0]);
      assert es + [calls[0]] + calls[1..] == es + calls;
      if |calls| == 2 {
        RunAppend(c, s, es + [calls[0]], calls[1]);
        assert es + [calls[0]] + [calls[1]] == es + calls;
      }
    }
  }

  lemma CallsMoveTheCore(c: Config, f: Firmware, a: Action)
    ensures var calls := CallsOf(f, a);
            var core := f.guard.core;
            && |calls| <= 2
            && Act(c, f, a).guard.core ==
               if calls == [] then core
               else if |calls| == 1 then Step(c, core, calls[0])
               else Step(c, Step(c, core, calls[0]), calls[1])
  {
    hide Updated, Ticked, ResetRequested, Acknowledged, Raise, Verdict, Finish;
  }

  /** The core inside any run of the firmware is the core after the calls that run made on it since begin. */
  lemma {:induction false} FirmwareRunIsCoreRun(c: Config, t0: Word, acts: seq<Action>)
    ensures ActAll(c, Start(t0), acts).guard.core == Run(c, Begun(t0), Calls(c, Start(t0), acts))
    decreases |acts|
  {
    hide Act, CallsOf, Step;
    if acts != [] {
      var init, a := acts[..|acts| - 1], acts[|acts| - 1];
      FirmwareRunIsCoreRun(c, t0, init);
      CallsMoveTheCore(c, ActAll(c, Start(t0), init), a);
      RunTwo(c, Begun(t0), Calls(c, Start(t0), init), CallsOf(ActAll(c, Start(t0), init), a));
    }
  }

  /**
   Over any run of the firmware the published fault counter is, modulo 2^32, the number of resets the interlock
   accepted plus one while a fault is latched; lock failures latched just before a reset are in the count.
   */
  lemma FirmwareFaultAccounting(c: Config, t0: Word, acts: seq<Action>)
    ensures var s := ActAll(c, Start(t0), acts).guard.core;
            s.fault.totalFaults ==
            Wrap(AcceptedResets(Outcomes(c, Begun(t0), Calls(c, Start(t0), acts))) + Latched(s))
  {
    hide *;
    FirmwareRunIsCoreRun(c, t0, acts);
    FaultAccounting(c, t0, Calls(c, Start(t0), acts));
  }

  // ---- The way of a sample ----

  /** The samples the sensor task produced, in order. */
  function Produced(acts: seq<Action>): seq<Measurement>
    decreases |acts|
  {
    if acts == [] then []
    else
      var a := acts[|acts| - 1];
      Produced(acts[..|acts| - 1]) + if a.Produce? then [a.m] else []
  }

  /** The samples among the core's calls, in order. */
  function SamplesIn(es: seq<Event>): seq<Measurement>
    decreases |es|
  {
    if es == [] then []
    else SamplesIn(es[..|es| - 1]) + if es[|es| - 1].Sample? then [es[|es| - 1].m] else []
  }

  /** The sample the control task has taken from the queue and not yet decided on. */
  function InHand(f: Firmware): seq<Measurement> {
    if f.phase.Deciding? && f.phase.sample.Some? then [f.phase.sample.value] else []
  }

  /** A sample is lost when it is sent to a full queue, and when the lock is refused to the poll that carries it. */
  predicate Loses(f: Firmware, a: Action) {
    || (a.Produce? && |f.samples| >= MEASUREMENT_QUEUE_LENGTH)
    || (a.Decide? && !a.locked && InHand(f) != [])
  }

  function Lost(c: Config, f: Firmware, acts: seq<Action>): nat
    decreases |acts|
  {
    if acts == [] then 0
    else
      var init := acts[..|acts| - 1];
      Lost(c, f, init) + if Loses(ActAll(c, f, init), acts[|acts| - 1]) then 1 else 0
  }

  /** idx embeds part into whole: strictly increasing positions, the same element at each. */
  ghost predicate Embeds<T>(idx: seq<nat>, part: seq<T>, whole: seq<T>) {
    && |idx| == |part|
    && (forall i :: 0 <= i < |idx| ==> idx[i] < |whole| && part[i] == whole[idx[i]])
    && (forall i, j :: 0 <= i < j < |idx| ==> idx[i] < idx[j])
  }

  lemma SamplesInAppend(es: seq<Event>, calls: seq<Event>)
    requires |calls| <= 2
    ensures SamplesIn(es + calls) == SamplesIn(es) + SamplesIn(calls)
  {
    if calls == [] {
      assert es + calls == es;
    } else {
      var n := |calls| - 1;
      assert (es + calls)[..|es| + n] == es + calls[..n];
      SamplesInAppend(es, calls[..n]);
    }
  }

  /** Where a step leaves the sample in hand and the queue. */
  lemma HandAndQueue(c: Config, f: Firmware, a: Action)
    ensures var g := Act(c, f, a);
            if a.Produce? then
              && InHand(g) == InHand(f)
              && g.samples == if |f.samples| < MEASUREMENT_QUEUE_LENGTH then f.samples + [a.m] else f.samples
            else if a.Receive? && f.phase == Receiving && f.samples != [] then
              InHand(f) == [] && InHand(g) == [f.samples[0]] && g.samples == f.samples[1..]
            else if a.Decide? then InHand(g) == [] && g.samples == f.samples
            else InHand(g) == InHand(f) && g.samples == f.samples
  {
    hide GuardedPoll, GuardedReset, GuardedAck;
  }

  /** How one step changes the stream of samples given to the core, in hand and queued. */
  lemma FlowStep(c: Config, f: Firmware, a: Action, given: seq<Measurement>)
    ensures var g := Act(c, f, a);
            var calls := CallsOf(f, a);
            var flow := given + InHand(f) + f.samples;
            && |calls| <= 2
            && given + SamplesIn(calls) + InHand(g) + g.samples ==
               if Loses(f, a) then (if a.Produce? then flow else given + f.samples)
               else if a.Produce? then flow + [a.m]
               else flow
  {
    hide Act, InHand, SamplesIn, CallsOf;
    SamplesOfCalls(f, a);
    HandAndQueue(c, f, a);
    if a.Receive? && f.phase == Receiving && f.samples != [] {
      assert f.samples == [f.samples[0]] + f.samples[1..];
    }
  }

  lemma SamplesInOne(e: Event)
    ensures SamplesIn([e]) == if e.Sample? then [e.m] else []
  {
    assert [e][..0] == [];
  }

  /** Only a decision made under the lock gives the core a sample: the one in hand. */
  lemma SamplesOfCalls(f: Firmware, a: Action)
    ensures |CallsOf(f, a)| <= 2
    ensures SamplesIn(CallsOf(f, a)) == if a.Decide? && a.locked then InHand(f) else []
  {
    hide SamplesIn, PendingCalls;
    NoSamples();
    match a
    case Decide(true, now) =>
      if f.phase.Deciding? {
        SamplesInPolled(f.guard, now, if f.phase.sample.Some? then Sample(f.phase.sample.value, now) else Tick(now));
      }
    case Drain(true, now) =>
      SamplesInPolled(f.guard, now, Reset(now));
      SamplesInOne(ProtectionModel.Ack);
    case _ =>
  }

  lemma SamplesInPolled(g: Guard, now: Word, e: Event)
    ensures |PendingCalls(g, now)| <= 1
    ensures SamplesIn(PendingCalls(g, now) + [e]) == if e.Sample? then [e.m] else []
  {
    SamplesInOne(e);
    SamplesInAppend(PendingCalls(g, now), [e]);
    if g.pending {
      SamplesInOne(Internal(now));
    }
  }

  lemma OneInHand(f: Firmware)
    ensures |InHand(f)| <= 1
  {
  }

  /** The whole grows by x; the part with it, or not. */
  lemma EmbedsGrow<T>(idx: seq<nat>, part: seq<T>, whole: seq<T>, x: T, kept: bool) returns (r: seq<nat>)
    requires Embeds(idx, part, whole)
    ensures Embeds(r, if kept then part + [x] else part, whole + [x])
  {
    r := if kept then idx + [|whole|] else idx;
  }

  lemma EmbedsDrop<T>(idx: seq<nat>, a: seq<T>, x: T, b: seq<T>, whole: seq<T>) returns (r: seq<nat>)
    requires Embeds(idx, a + [x] + b, whole)
    ensures Embeds(r, a + b, whole)
  {
    r := idx[..|a|] + idx[|a| + 1..];
    forall i | 0 <= i < |r|
      ensures r[i] < |whole| && (a + b)[i] == whole[r[i]]
    {
      var k := if i < |a| then i else i + 1;
      assert (a + [x] + b)[k] == (a + b)[i];
    }
  }

  lemma {:induction false} SampleFlow(c: Config, t0: Word, acts: seq<Action>) returns (idx: seq<nat>)
    ensures var f := ActAll(c, Start(t0), acts);
            var given := SamplesIn(Calls(c, Start(t0), acts));
            && Embeds(idx, given + InHand(f) + f.samples, Produced(acts))
            && |given| + |InHand(f)| + |f.samples| + Lost(c, Start(t0), acts) == |Produced(acts)|
    decreases |acts|
  {
    hide Act, CallsOf, SamplesIn;
    if acts == [] {
      idx := [];
      assert SamplesIn([]) == [] by { NoSamples(); }
      assert Embeds<Measurement>(idx, [], []);
    } else {
      var init, a := acts[..|acts| - 1], acts[|acts| - 1];
      idx := SampleFlow(c, t0, init);
      var f := ActAll(c, Start(t0), init);
      var calls := Calls(c, Start(t0), init);
      var given := SamplesIn(calls);
      FlowStep(c, f, a, given);
      SamplesInAppend(calls, CallsOf(f, a));
      hide Embeds, InHand;
      if Loses(f, a) && a.Decide? {
        assert |InHand(f)| == 1 by { OneInHand(f); }
        idx := EmbedsDrop(idx, given, InHand(f)[0], f.samples, Produced(init));
        assert given + [InHand(f)[0]] + f.samples == given + InHand(f) + f.samples;
      } else if a.Produce? {
        idx := EmbedsGrow(idx, given + InHand(f) + f.samples, Produced(init), a.m, !Loses(f, a));
      }
    }
  }

  lemma NoSamples()
    ensures SamplesIn([]) == []
  {
  }

  /**
   The samples the core is given are a subsequence of those produced: in order, none twice, none invented. Every
   sample produced was given to the core, is on its way, or was lost to a full queue or a refused lock.
   */
  lemma SamplesInOrderOnce(c: Config, t0: Word, acts: seq<Action>)
    ensures var given := SamplesIn(Calls(c, Start(t0), acts));
            var f := ActAll(c, Start(t0), acts);
            && (exists idx :: Embeds(idx, given, Produced(acts)))
            && |given| + |InHand(f)| + |f.samples| + Lost(c, Start(t0), acts) == |Produced(acts)|
  {
    hide ActAll, SamplesIn, Calls, Produced, Lost, InHand;
    var idx := SampleFlow(c, t0, acts);
    var given := SamplesIn(Calls(c, Start(t0), acts));
    var f := ActAll(c, Start(t0), acts);
    EmbedsPrefix(idx, given, InHand(f) + f.samples, Produced(acts));
  }

  lemma EmbedsPrefix<T>(idx: seq<nat>, part: seq<T>, rest: seq<T>, whole: seq<T>)
    requires Embeds(idx, part + rest, whole)
    ensures Embeds(idx[..|part|], part, whole)
  {
    forall i | 0 <= i < |part|
      ensures idx[i] < |whole| && part[i] == whole[idx[i]]
    {
      assert (part + rest)[i] == part[i];
    }
  }

  // ---- The way of a command ----

  /** The commands requested, in order. */
  function Requested(acts: seq<Action>): seq<Command>
    decreases |acts|
  {
    if acts == [] then []
    else
      var a := acts[|acts| - 1];
      Requested(acts[..|acts| - 1]) + if a.Request? then [a.command] else []
  }

  /** The command a step executes: the control task, draining, takes the one at the head of the queue. */
  function Executes(f: Firmware, a: Action): seq<Command> {
    if a.Drain? && f.phase == Draining && f.commands != [] then [f.commands[0]] else []
  }

  function Executed(c: Config, f: Firmware, acts: seq<Action>): seq<Command>
    decreases |acts|
  {
    if acts == [] then []
    else
      var init := acts[..|acts| - 1];
      Executed(c, f, init) + Executes(ActAll(c, f, init), acts[|acts| - 1])
  }

  predicate Drops(f: Firmware, a: Action) {
    a.Request? && |f.commands| >= COMMAND_QUEUE_LENGTH
  }

  function Dropped(c: Config, f: Firmware, acts: seq<Action>): nat
    decreases |acts|
  {
    if acts == [] then 0
    else
      var init := acts[..|acts| - 1];
      Dropped(c, f, init) + if Drops(ActAll(c, f, init), acts[|acts| - 1]) then 1 else 0
  }

  lemma CommandStep(c: Config, f: Firmware, a: Action, done: seq<Command>)
    ensures done + Executes(f, a) + Act(c, f, a).commands ==
            done + f.commands + if a.Request? && !Drops(f, a) then [a.command] else []
  {
    hide GuardedPoll, GuardedReset, GuardedAck;
    if Executes(f, a) != [] {
      assert f.commands == [f.commands[0]] + f.commands[1..];
    }
  }

  lemma {:induction false} CommandFlow(c: Config, t0: Word, acts: seq<Action>) returns (idx: seq<nat>)
    ensures var f, done := ActAll(c, Start(t0), acts), Executed(c, Start(t0), acts);
            && Embeds(idx, done + f.commands, Requested(acts))
            && |done| + |f.commands| + Dropped(c, Start(t0), acts) == |Requested(acts)|
    decreases |acts|
  {
    hide Act, Executes, Drops;
    if acts == [] {
      idx := [];
    } else {
      var init, a := acts[..|acts| - 1], acts[|acts| - 1];
      idx := CommandFlow(c, t0, init);
      var f, done := ActAll(c, Start(t0), init), Executed(c, Start(t0), init);
      CommandStep(c, f, a, done);
      OnlyRequestsDrop(f, a);
      hide Embeds;
      if a.Request? {
        idx := EmbedsGrow(idx, done + f.commands, Requested(init), a.command, !Drops(f, a));
      }
    }
  }

  lemma OnlyRequestsDrop(f: Firmware, a: Action)
    ensures Drops(f, a) ==> a.Request?
  {
  }

  /**
   Commands are executed in the order they were requested, none twice and none invented. Every command requested was
   executed, is waiting, or was dropped by a full queue.
   */
  lemma CommandsInOrderOnce(c: Config, t0: Word, acts: seq<Action>)
    ensures var done, f := Executed(c, Start(t0), acts), ActAll(c, Start(t0), acts);
            && (exists idx :: Embeds(idx, done, Requested(acts)))
            && |done| + |f.commands| + Dropped(c, Start(t0), acts) == |Requested(acts)|
  {
    hide ActAll, Executed, Requested, Dropped;
    var idx := CommandFlow(c, t0, acts);
    EmbedsPrefix(idx, Executed(c, Start(t0), acts), ActAll(c, Start(t0), acts).commands, Requested(acts));
  }
}
