/**
 Heartbeat supervision: the table of last-seen times (lib/energy_core/src/heartbeat_monitor.cpp) and the watchdog
 task that polls it after a start-up grace (src/main.cpp). Both the age of a beat and the age of the start-up are
 wrapping 32-bit subtractions; the latency bound below is in true time and holds across the wrap.
 */
module Heartbeat {
  import opened Options
  import opened Words

  const HEARTBEAT_NEVER: Word := 0xFFFF_FFFF
  const HEARTBEAT_MAX_SLOTS: nat := 8

  /** static_cast<size_t>(-1) on a 32-bit target. */
  const NO_SLOT: nat := 0xFFFF_FFFF

  /** The table as a value: per slot the word of its last beat, and whether it ever beat. */
  datatype Table = Table(last: seq<Word>, seen: seq<bool>) {
    predicate Valid() {
      |last| == |seen| <= HEARTBEAT_MAX_SLOTS
    }
  }

  function Age(t: Table, slot: nat, now: Word): Word
    requires t.Valid()
  {
    if slot >= |t.last| || !t.seen[slot] then HEARTBEAT_NEVER else Since(now, t.last[slot])
  }

  predicate Stale(t: Table, slot: nat, now: Word, timeout: Word)
    requires t.Valid()
  {
    var age := Age(t, slot, now);
    age == HEARTBEAT_NEVER || age > timeout
  }

  /** slot is what firstStale returns: the least stale slot, or NO_SLOT if there is none. */
  predicate IsFirstStale(t: Table, slot: nat, now: Word, timeout: Word)
    requires t.Valid()
  {
    && (forall i :: 0 <= i < |t.last| && i < slot ==> !Stale(t, i, now, timeout))
    && (slot < |t.last| ==> Stale(t, slot, now, timeout))
    && (slot >= |t.last| ==> slot == NO_SLOT)
  }

  function BeatTable(t: Table, slot: nat, now: Word): Table
    requires t.Valid()
  {
    if slot >= |t.last| then t else Table(t.last[slot := now], t.seen[slot := true])
  }

  class HeartbeatMonitor {
    const slots: nat
    const last: array<Word>
    const seen: array<bool>

    ghost predicate Valid()
      reads this
    {
      slots <= HEARTBEAT_MAX_SLOTS == last.Length == seen.Length
    }

    ghost function View(): (t: Table)
      requires Valid()
      reads this, last, seen
      ensures t.Valid() && |t.last| == slots
    {
      Table(last[..slots], seen[..slots])
    }

    constructor (slots: nat)
      ensures Valid() && fresh(last) && fresh(seen)
      ensures this.slots == if slots > HEARTBEAT_MAX_SLOTS then HEARTBEAT_MAX_SLOTS else slots
      ensures forall i :: 0 <= i < this.slots ==> !View().seen[i]
    {
      this.slots := if slots > HEARTBEAT_MAX_SLOTS then HEARTBEAT_MAX_SLOTS else slots;
      last := new Word[HEARTBEAT_MAX_SLOTS](_ => 0);
      seen := new bool[HEARTBEAT_MAX_SLOTS](_ => false);
    }

    method Beat(slot: nat, now: Word)
      requires Valid()
      modifies last, seen
      ensures View() == BeatTable(old(View()), slot, now)
    {
      if slot >= slots {
        return;
      }
      last[slot] := now;
      seen[slot] := true;
    }

    method AgeMs(slot: nat, now: Word) returns (age: Word)
      requires Valid()
      ensures age == Age(View(), slot, now)
    {
      if slot >= slots || !seen[slot] {
        return HEARTBEAT_NEVER;
      }
      age := Since(now, last[slot]);
    }

    method FirstStale(now: Word, timeout: Word) returns (slot: nat)
      requires Valid()
      ensures IsFirstStale(View(), slot, now, timeout)
    {
      for i := 0 to slots
        invariant forall j :: 0 <= j < i ==> !Stale(View(), j, now, timeout)
      {
        var age := AgeMs(i, now);
        if age == HEARTBEAT_NEVER || age > timeout {
          return i;
        }
      }
      return NO_SLOT;
    }

    method Healthy(now: Word, timeout: Word, start: Word, grace: Word) returns (ok: bool)
      requires Valid()
      ensures ok <==> Since(now, start) < grace || forall i :: 0 <= i < slots ==> !Stale(View(), i, now, timeout)
    {
      if Since(now, start) < grace {
        return true;
      }
      var slot := FirstStale(now, timeout);
      ok := slot == NO_SLOT;
    }
  }

  // ---- The watchdog over a run ----

  /**
   One thing that happens: a task beats, or the watchdog polls. A poll reads the clock twice, once for the grace
   test and once, no earlier, for the scan.
   */
  datatype Happening = Beat(slot: nat, at: nat) | Poll(at: nat, scanAt: nat)

  datatype Watchdog = Watchdog(startup: nat, timeout: Word, grace: Word, slots: nat)

  function TableAfter(w: Watchdog, hs: seq<Happening>): (t: Table)
    requires w.slots <= HEARTBEAT_MAX_SLOTS
    ensures t.Valid() && |t.last| == w.slots
    decreases |hs|
  {
    if hs == [] then Table(seq(w.slots, _ => 0), seq(w.slots, _ => false))
    else
      var before := TableAfter(w, hs[..|hs| - 1]);
      match hs[|hs| - 1]
      case Beat(slot, at) => BeatTable(before, slot, Wrap(at))
      case Poll(_, _) => before
  }

  /** The grace test of the poll passes. */
  predicate PastGrace(w: Watchdog, at: nat) {
    Since(Wrap(at), Wrap(w.startup)) >= w.grace
  }

  /** The i-th happening is a poll that finds some slot stale and so drives the safe output and restarts. */
  predicate Trips(w: Watchdog, hs: seq<Happening>, i: nat)
    requires w.slots <= HEARTBEAT_MAX_SLOTS && i < |hs|
  {
    && hs[i].Poll? && PastGrace(w, hs[i].at)
    && exists k :: 0 <= k < w.slots && Stale(TableAfter(w, hs[..i]), k, Wrap(hs[i].scanAt), w.timeout)
  }

  function LastPollAt(w: Watchdog, hs: seq<Happening>): nat
    decreases |hs|
  {
    if hs == [] then w.startup
    else if hs[|hs| - 1].Poll? then hs[|hs| - 1].at
    else LastPollAt(w, hs[..|hs| - 1])
  }

  predicate HasPolled(hs: seq<Happening>)
    decreases |hs|
  {
    hs != [] && (hs[|hs| - 1].Poll? || HasPolled(hs[..|hs| - 1]))
  }

  /**
   Polls are at least q apart and at most p, the first at most p after start-up, and a scan reads the clock at
   most p after its grace test. The task sleeps between polls, so q is its period, and p is what delays add to it.
   */
  predicate Polled(w: Watchdog, hs: seq<Happening>, q: nat, p: nat)
    decreases |hs|
  {
    hs == [] ||
    (var init, h := hs[..|hs| - 1], hs[|hs| - 1];
     && Polled(w, init, q, p)
     && (h.Poll? ==>
           && LastPollAt(w, init) <= h.at <= LastPollAt(w, init) + p
           && (HasPolled(init) ==> LastPollAt(w, init) + q <= h.at)
           && h.at <= h.scanAt <= h.at + p))
  }

  /** True time the slot's newest beat is stamped with. */
  function LastBeat(hs: seq<Happening>, slot: nat): Option<nat>
    decreases |hs|
  {
    if hs == [] then None
    else
      var h := hs[|hs| - 1];
      if h.Beat? && h.slot == slot then Some(h.at) else LastBeat(hs[..|hs| - 1], slot)
  }

  /** The slot beat at true time s and has been silent in all that happened since. */
  predicate SilentSince(hs: seq<Happening>, slot: nat, s: nat) {
    LastBeat(hs, slot) == Some(s)
  }

  /** The table holds every slot's newest beat, whatever the other slots do. */
  lemma {:induction false} BeatsInTable(w: Watchdog, hs: seq<Happening>, slot: nat)
    requires slot < w.slots <= HEARTBEAT_MAX_SLOTS
    ensures var t, b := TableAfter(w, hs), LastBeat(hs, slot);
            (t.seen[slot] <==> b.Some?) && (b.Some? ==> t.last[slot] == Wrap(b.value))
    decreases |hs|
  {
    if hs != [] {
      BeatsInTable(w, hs[..|hs| - 1], slot);
    }
  }

  // ---- What a scan reports ----

  /** The largest age that is not stale: the age 2^32 - 1 stands for no beat at all, and is stale at any timeout. */
  function Limit(w: Watchdog): Word {
    if w.timeout < HEARTBEAT_NEVER then w.timeout else HEARTBEAT_NEVER - 1
  }

  /** The slot never beat, or its newest beat's age at the scan, modulo 2^32, exceeds the limit. */
  predicate Overdue(w: Watchdog, hs: seq<Happening>, slot: nat, scanAt: nat) {
    var b := LastBeat(hs, slot);
    b.None? || (scanAt - b.value) % WORD > Limit(w)
  }

  lemma StaleIsOverdue(w: Watchdog, hs: seq<Happening>, slot: nat, scanAt: nat)
    requires slot < w.slots <= HEARTBEAT_MAX_SLOTS
    ensures Stale(TableAfter(w, hs), slot, Wrap(scanAt), w.timeout) <==> Overdue(w, hs, slot, scanAt)
  {
    BeatsInTable(w, hs, slot);
    if LastBeat(hs, slot).Some? {
      SinceExact(scanAt, LastBeat(hs, slot).value);
    }
  }

  /**
   In every run a slot is the one reported if and only if it is overdue and no earlier slot is. A beat may be stamped
   after the scan read its clock: both readings are made before the critical section is entered.
   */
  lemma ReportedIffFirstOverdue(w: Watchdog, hs: seq<Happening>, slot: nat, scanAt: nat, reported: nat)
    requires slot < w.slots <= HEARTBEAT_MAX_SLOTS
    requires IsFirstStale(TableAfter(w, hs), reported, Wrap(scanAt), w.timeout)
    ensures reported == slot <==>
            Overdue(w, hs, slot, scanAt) && forall k :: 0 <= k < slot ==> !Overdue(w, hs, k, scanAt)
  {
    var t := TableAfter(w, hs);
    forall k | 0 <= k < w.slots
      ensures Stale(t, k, Wrap(scanAt), w.timeout) <==> Overdue(w, hs, k, scanAt)
    {
      StaleIsOverdue(w, hs, k, scanAt);
    }
    assert |t.last| == w.slots;
    hide Stale, Overdue, TableAfter;
    if reported < slot {
      assert Overdue(w, hs, reported, scanAt);
    }
  }

  /** A poll trips if and only if the clock shows it past the grace and some slot is overdue. */
  lemma TripsIff(w: Watchdog, hs: seq<Happening>, i: nat)
    requires w.slots <= HEARTBEAT_MAX_SLOTS && i < |hs| && hs[i].Poll?
    ensures Trips(w, hs, i) <==>
            (hs[i].at - w.startup) % WORD >= w.grace
            && exists k :: 0 <= k < w.slots && Overdue(w, hs[..i], k, hs[i].scanAt)
  {
    SinceExact(hs[i].at, w.startup);
    forall k | 0 <= k < w.slots
      ensures Stale(TableAfter(w, hs[..i]), k, Wrap(hs[i].scanAt), w.timeout)
         <==> Overdue(w, hs[..i], k, hs[i].scanAt)
    {
      StaleIsOverdue(w, hs[..i], k, hs[i].scanAt);
    }
    hide Stale, Overdue, TableAfter;
  }

  /** One overdue slot makes a poll trip if and only if the poll is past the grace. */
  lemma OverdueTripsIffPastGrace(w: Watchdog, hs: seq<Happening>, slot: nat, i: nat)
    requires slot < w.slots <= HEARTBEAT_MAX_SLOTS && i < |hs| && hs[i].Poll?
    requires Overdue(w, hs[..i], slot, hs[i].scanAt)
    ensures Trips(w, hs, i) <==> (hs[i].at - w.startup) % WORD >= w.grace
  {
    hide Overdue, Trips;
    TripsIff(w, hs, i);
  }

  /** A task that never reported makes every poll past the grace trip, the first such poll included. */
  lemma NeverReportingTrips(w: Watchdog, hs: seq<Happening>, slot: nat, i: nat)
    requires slot < w.slots <= HEARTBEAT_MAX_SLOTS && i < |hs|
    requires LastBeat(hs[..i], slot) == None
    requires hs[i].Poll? && PastGrace(w, hs[i].at)
    ensures Trips(w, hs, i)
  {
    SinceExact(hs[i].at, w.startup);
    OverdueTripsIffPastGrace(w, hs, slot, i);
  }

  /** A task silent for longer than the timeout makes a poll trip if and only if the poll is past the grace. */
  lemma SilentTripsIffPastGrace(w: Watchdog, hs: seq<Happening>, slot: nat, s: nat, i: nat)
    requires slot < w.slots <= HEARTBEAT_MAX_SLOTS && i < |hs| && hs[i].Poll?
    requires SilentSince(hs[..i], slot, s) && s + w.timeout < hs[i].scanAt < s + WORD
    ensures Trips(w, hs, i) <==> (hs[i].at - w.startup) % WORD >= w.grace
  {
    assert Overdue(w, hs[..i], slot, hs[i].scanAt) by { hide LastBeat; }
    OverdueTripsIffPastGrace(w, hs, slot, i);
  }

  /**
   A task whose newest beat is no later than the scan's clock reading and within the timeout of it is not
   the slot reported.
   */
  lemma PunctualNeverReported(w: Watchdog, hs: seq<Happening>, slot: nat, s: nat, scanAt: nat, reported: nat)
    requires slot < w.slots <= HEARTBEAT_MAX_SLOTS && w.timeout < HEARTBEAT_NEVER
    requires SilentSince(hs, slot, s) && s <= scanAt <= s + w.timeout
    requires IsFirstStale(TableAfter(w, hs), reported, Wrap(scanAt), w.timeout)
    ensures reported != slot
  {
    ReportedIffFirstOverdue(w, hs, slot, scanAt, reported);
  }

  lemma NegativeAge(d: int)
    requires -WORD < d < 0
    ensures d % WORD == d + WORD
  {
  }

  /** A beat stamped later than the scan's clock reading makes its task overdue, and a poll past the grace trip. */
  lemma OvertakenScanTrips(w: Watchdog, hs: seq<Happening>, slot: nat, s: nat, i: nat)
    requires slot < w.slots <= HEARTBEAT_MAX_SLOTS && i < |hs| && hs[i].Poll?
    requires SilentSince(hs[..i], slot, s) && hs[i].scanAt < s < hs[i].scanAt + WORD - w.timeout
    ensures Overdue(w, hs[..i], slot, hs[i].scanAt)
    ensures Trips(w, hs, i) <==> (hs[i].at - w.startup) % WORD >= w.grace
  {
    NegativeAge(hs[i].scanAt - s);
    assert Overdue(w, hs[..i], slot, hs[i].scanAt) by { hide LastBeat; }
    OverdueTripsIffPastGrace(w, hs, slot, i);
  }

  // ---- Detection latency ----

  /** Start of the grace window the clock shows at true time t: the latest startup + k * 2^32 not after t. */
  function WindowStart(w: Watchdog, t: nat): int
    requires w.startup <= t
  {
    t - (t - w.startup) % WORD
  }

  lemma PastGraceMeaning(w: Watchdog, t: nat)
    requires w.startup <= t
    ensures PastGrace(w, t) <==> t - WindowStart(w, t) >= w.grace
  {
    SinceExact(t, w.startup);
  }

  /** Two times less than a turn apart, the earlier inside its grace window, share it or the later is past grace. */
  lemma SameWindow(w: Watchdog, t: nat, u: nat)
    requires w.startup <= t <= u < t + WORD - w.grace
    requires !PastGrace(w, t) && !PastGrace(w, u)
    ensures WindowStart(w, u) == WindowStart(w, t)
  {
    PastGraceMeaning(w, t);
    PastGraceMeaning(w, u);
    var a, b := (t - w.startup) / WORD, (u - w.startup) / WORD;
    assert t - w.startup == a * WORD + (t - w.startup) % WORD;
    assert u - w.startup == b * WORD + (u - w.startup) % WORD;
    assert WindowStart(w, t) == w.startup + a * WORD && WindowStart(w, u) == w.startup + b * WORD;
    assert a == b;
  }

  lemma LastPollMonotone(w: Watchdog, hs: seq<Happening>, q: nat, p: nat)
    requires Polled(w, hs, q, p)
    ensures w.startup <= LastPollAt(w, hs)
    decreases |hs|
  {
    if hs != [] {
      LastPollMonotone(w, hs[..|hs| - 1], q, p);
    }
  }

  /**
   The bookkeeping of DetectionLatency over the happenings that follow the last beat: either an earlier
   poll has tripped in time, or no poll came after the timeout yet, or the last one fell in a grace window
   that had opened by the first poll after the timeout.
   */
  ghost predicate NotYetDetected(w: Watchdog, hs: seq<Happening>, s: nat, p: nat) {
    var last := LastPollAt(w, hs);
    last <= s + w.timeout ||
    (w.startup <= last && !PastGrace(w, last) && WindowStart(w, last) <= s + w.timeout + p)
  }

  lemma {:induction false} DetectedOrNotYet(w: Watchdog, hs: seq<Happening>, b: nat, slot: nat, s: nat, q: nat, p: nat)
    returns (i: nat)
    requires slot < w.slots <= HEARTBEAT_MAX_SLOTS && b <= |hs| && Polled(w, hs, q, p)
    requires w.timeout + w.grace + 3 * p < WORD
    requires forall n :: b <= n <= |hs| ==> SilentSince(hs[..n], slot, s)
    requires LastPollAt(w, hs[..b]) <= s + w.timeout
    ensures NotYetDetected(w, hs, s, p) ||
            (b <= i < |hs| && Trips(w, hs, i) && hs[i].at < s + w.timeout + w.grace + 2 * p)
    decreases |hs|
  {
    i := 0;
    assert hs[..|hs|] == hs;
    if |hs| > b {
      var init, h := hs[..|hs| - 1], hs[|hs| - 1];
      assert init[..b] == hs[..b];
      forall n | b <= n <= |init|
        ensures SilentSince(init[..n], slot, s)
      {
        assert init[..n] == hs[..n];
      }
      i := DetectedOrNotYet(w, init, b, slot, s, q, p);
      if NotYetDetected(w, init, s, p) {
        if h.Poll? {
          i := |init|;
          LastPollMonotone(w, init, q, p);
          PollDecides(w, init, h, slot, s, p);
        }
      } else {
        assert hs[..i] == init[..i] && hs[i] == init[i];
      }
    }
  }

  /** The next poll either trips in time or leaves detection open. */
  lemma PollDecides(w: Watchdog, init: seq<Happening>, h: Happening, slot: nat, s: nat, p: nat)
    requires slot < w.slots <= HEARTBEAT_MAX_SLOTS
    requires w.timeout + w.grace + 3 * p < WORD
    requires SilentSince(init, slot, s) && NotYetDetected(w, init, s, p)
    requires h.Poll? && w.startup <= LastPollAt(w, init) <= h.at <= LastPollAt(w, init) + p
    requires h.at <= h.scanAt <= h.at + p
    ensures NotYetDetected(w, init + [h], s, p) ||
            (Trips(w, init + [h], |init|) && h.at < s + w.timeout + w.grace + 2 * p)
  {
    var last, hs := LastPollAt(w, init), init + [h];
    assert hs[..|init|] == init && LastPollAt(w, hs) == h.at;
    if last > s + w.timeout {
      PastGraceMeaning(w, last);
    }
    if h.at > s + w.timeout {
      if PastGrace(w, h.at) {
        SinceExact(h.at, w.startup);
        SilentTripsIffPastGrace(w, hs, slot, s, |init|);
      } else if last > s + w.timeout {
        SameWindow(w, last, h.at);
      }
    }
  }

  /**
   With polls at most p apart, a task whose last beat was at true time s makes a poll trip before
   s + timeout + grace + 2p, even though both the beat's age and the start-up's age wrap at 2^32 and the
   grace window comes round again. The premise is that this span fits into one turn of the clock.
   */
  lemma DetectionLatency(w: Watchdog, hs: seq<Happening>, b: nat, slot: nat, s: nat, q: nat, p: nat)
    returns (i: nat)
    requires slot < w.slots <= HEARTBEAT_MAX_SLOTS && b <= |hs| && Polled(w, hs, q, p)
    requires 0 < p && w.timeout + w.grace + 3 * p < WORD
    requires forall n :: b <= n <= |hs| ==> SilentSince(hs[..n], slot, s)
    requires LastPollAt(w, hs[..b]) <= s + w.timeout
    requires LastPollAt(w, hs) >= s + w.timeout + w.grace + p
    ensures b <= i < |hs| && Trips(w, hs, i) && hs[i].at < s + w.timeout + w.grace + 2 * p
  {
    i := DetectedOrNotYet(w, hs, b, slot, s, q, p);
    var last := LastPollAt(w, hs);
    if NotYetDetected(w, hs, s, p) {
      if last > s + w.timeout {
        PastGraceMeaning(w, last);
      }
      assert false;
    }
  }

  /** The first poll later than t. */
  predicate IsFirstPollAfter(hs: seq<Happening>, t: nat, i: nat) {
    i < |hs| && hs[i].Poll? && hs[i].at > t && forall j :: 0 <= j < i && hs[j].Poll? ==> hs[j].at <= t
  }

  lemma {:induction false} FirstPollAfter(w: Watchdog, hs: seq<Happening>, q: nat, p: nat, t: nat) returns (i: nat)
    requires Polled(w, hs, q, p) && w.startup <= t < LastPollAt(w, hs)
    ensures IsFirstPollAfter(hs, t, i) && hs[i].at <= t + p && hs[i].at <= hs[i].scanAt <= hs[i].at + p
    decreases |hs|
  {
    var init, h := hs[..|hs| - 1], hs[|hs| - 1];
    if LastPollAt(w, init) > t {
      i := FirstPollAfter(w, init, q, p, t);
    } else {
      i := |init|;
      NoPollAfter(w, init, q, p);
    }
  }

  lemma NoPollAfter(w: Watchdog, hs: seq<Happening>, q: nat, p: nat)
    requires Polled(w, hs, q, p)
    ensures forall j :: 0 <= j < |hs| && hs[j].Poll? ==> hs[j].at <= LastPollAt(w, hs)
    decreases |hs|
  {
    if hs != [] {
      var init := hs[..|hs| - 1];
      NoPollAfter(w, init, q, p);
      forall j | 0 <= j < |hs| && hs[j].Poll?
        ensures hs[j].at <= LastPollAt(w, hs)
      {
        if j < |init| {
          assert hs[j] == init[j];
        }
      }
    }
  }

  /**
   The documented limit, one timeout and one poll: the first poll later than the timeout comes within one period of
   it, and it trips on the silent task if and only if the clock does not show it inside the grace window.
   */
  lemma FirstPollAfterTimeout(w: Watchdog, hs: seq<Happening>, q: nat, p: nat, slot: nat, s: nat) returns (i: nat)
    requires slot < w.slots <= HEARTBEAT_MAX_SLOTS && Polled(w, hs, q, p)
    requires w.startup <= s && w.timeout + 2 * p < WORD
    requires forall n :: 0 <= n < |hs| && hs[n].Poll? && hs[n].at > s ==> SilentSince(hs[..n], slot, s)
    requires LastPollAt(w, hs) > s + w.timeout
    ensures IsFirstPollAfter(hs, s + w.timeout, i) && hs[i].at <= s + w.timeout + p
    ensures Trips(w, hs, i) <==> (hs[i].at - w.startup) % WORD >= w.grace
  {
    i := FirstPollAfter(w, hs, q, p, s + w.timeout);
    SilentTripsIffPastGrace(w, hs, slot, s, i);
  }

  /**
   So the limit is met however the polls fall if and only if the whole period after the timeout is clear of the
   grace window, which the last beat's time alone decides.
   */
  lemma LimitClearOfGrace(w: Watchdog, s: nat, p: nat)
    requires w.startup <= s && 0 < p && w.grace + p <= WORD
    ensures (forall t :: s + w.timeout < t <= s + w.timeout + p ==> PastGrace(w, t)) <==>
            w.grace == 0 || (s + w.timeout + p - w.startup) % WORD >= w.grace + p - 1
  {
    var last := s + w.timeout + p;
    var x := (last - w.startup) % WORD;
    if w.grace > 0 && x < w.grace + p - 1 {
      var t: nat := last - (if x < w.grace then 0 else x - w.grace + 1);
      OffsetBack(last - w.startup, last - t);
      SinceExact(t, w.startup);
      assert !PastGrace(w, t);
    } else if w.grace > 0 {
      forall t | s + w.timeout < t <= last
        ensures PastGrace(w, t)
      {
        OffsetBack(last - w.startup, last - t);
        SinceExact(t, w.startup);
      }
    }
  }

  lemma OffsetBack(a: nat, k: nat)
    requires k <= a % WORD
    ensures (a - k) % WORD == a % WORD - k
  {
    var turns := a / WORD;
    assert a == turns * WORD + a % WORD;
    assert (a - k) / WORD == turns;
  }

  // ---- Witnesses with the shipped constants ----

  /** 6 s timeout, 10 s grace; start-up at 0, one supervised task. */
  const SHIPPED := Watchdog(0, 6000, 10000, 1)

  /** The supervisor's period, and the longest gap between two polls of the runs below. */
  const PERIOD: nat := 1000
  const LATEST: nat := 1296

  predicate Quiet(hs: seq<Happening>) {
    Polled(SHIPPED, hs, PERIOD, LATEST) && forall i :: 0 <= i < |hs| ==> !Trips(SHIPPED, hs, i)
  }

  /** n seconds in which the task beats and the watchdog polls, once a second. */
  function HealthySeconds(n: nat): (hs: seq<Happening>)
    ensures |hs| == 2 * n
  {
    if n == 0 then [] else HealthySeconds(n - 1) + [Beat(0, 1000 * n)] + [Poll(1000 * n, 1000 * n)]
  }

  lemma QuietAppend(hs: seq<Happening>, h: Happening)
    requires Quiet(hs)
    requires h.Poll? ==>
               && LastPollAt(SHIPPED, hs) + PERIOD <= h.at <= LastPollAt(SHIPPED, hs) + LATEST
               && h.at <= h.scanAt <= h.at + LATEST
               && (h.at % WORD < 10000 || !Overdue(SHIPPED, hs, 0, h.scanAt))
    ensures Quiet(hs + [h])
    ensures LastPollAt(SHIPPED, hs + [h]) == if h.Poll? then h.at else LastPollAt(SHIPPED, hs)
    ensures LastBeat(hs + [h], 0) == if h.Beat? && h.slot == 0 then Some(h.at) else LastBeat(hs, 0)
  {
    var all := hs + [h];
    assert all[..|hs|] == hs && all[|hs|] == h;
    if h.Poll? {
      TripsIff(SHIPPED, all, |hs|);
    }
    forall i | 0 <= i < |all|
      ensures !Trips(SHIPPED, all, i)
    {
      if i < |hs| {
        assert all[..i] == hs[..i];
        assert !Trips(SHIPPED, hs, i);
      }
    }
  }

  lemma {:induction false} HealthySecondsAreQuiet(n: nat)
    ensures var hs := HealthySeconds(n);
            Quiet(hs) && LastPollAt(SHIPPED, hs) == 1000 * n && (n > 0 ==> SilentSince(hs, 0, 1000 * n))
  {
    if n == 0 {
      QuietAtStart();
    } else {
      HealthySecondsAreQuiet(n - 1);
      QuietSecond(HealthySeconds(n - 1), n);
      hide *;
      OneMoreSecond(n);
    }
  }

  lemma QuietAtStart()
    ensures Quiet([]) && LastPollAt(SHIPPED, []) == 0 && HealthySeconds(0) == []
  {
  }

  lemma QuietSecond(hs: seq<Happening>, n: nat)
    requires n > 0 && Quiet(hs) && LastPollAt(SHIPPED, hs) == 1000 * (n - 1)
    ensures var all := hs + [Beat(0, 1000 * n)] + [Poll(1000 * n, 1000 * n)];
            Quiet(all) && LastPollAt(SHIPPED, all) == 1000 * n && SilentSince(all, 0, 1000 * n)
  {
    var beaten := hs + [Beat(0, 1000 * n)];
    hide Quiet, LastPollAt, LastBeat;
    QuietAppend(hs, Beat(0, 1000 * n));
    QuietAppend(beaten, Poll(1000 * n, 1000 * n));
  }

  lemma OneMoreSecond(n: nat)
    requires n > 0
    ensures HealthySeconds(n) == HealthySeconds(n - 1) + [Beat(0, 1000 * n)] + [Poll(1000 * n, 1000 * n)]
  {
  }

  /**
   A punctual task can make the watchdog restart the system. After n quiet seconds the scan reads its clock; the task
   stamps its beat one millisecond later, enters the critical section first, and the scan finds an age of 2^32 - 1.
   */
  lemma PunctualTaskTrips(n: nat)
    requires 9 <= n && 1000 * (n + 1) < WORD
    ensures var at := 1000 * (n + 1);
            var before := HealthySeconds(n) + [Beat(0, at + 1)];
            && Quiet(before) && LastPollAt(SHIPPED, before) + PERIOD == at
            && Trips(SHIPPED, before + [Poll(at, at)], |before|)
  {
    var at := 1000 * (n + 1);
    var before := HealthySeconds(n) + [Beat(0, at + 1)];
    var all := before + [Poll(at, at)];
    assert all[..|before|] == before && all[|before|] == Poll(at, at);
    assert (all[|before|].at - SHIPPED.startup) % WORD >= SHIPPED.grace;
    assert SHIPPED.slots == 1 && at < at + 1 < at + WORD - SHIPPED.timeout;
    hide HealthySeconds, Quiet, LastPollAt, LastBeat, Trips, Overdue;
    HealthySecondsAreQuiet(n);
    QuietAppend(HealthySeconds(n), Beat(0, at + 1));
    OvertakenScanTrips(SHIPPED, all, 0, at + 1, |before|);
  }

  /** The polls after the last beat at 1000 * n: up to its timeout, on the wrap, through the re-opened grace window. */
  function LatePoll(n: nat, k: nat): nat {
    if k <= 6 then 1000 * (n + k) else WORD + 1111 * (k - 7)
  }

  function LateRun(n: nat, k: nat): (hs: seq<Happening>)
    ensures |hs| == 2 * n + k
  {
    if k == 0 then HealthySeconds(n)
    else LateRun(n, k - 1) + [Poll(LatePoll(n, k), LatePoll(n, k))]
  }

  lemma {:induction false} LateRunIsQuiet(n: nat, k: nat)
    requires 1000 * n + 7296 == WORD && k <= 16
    ensures var hs := LateRun(n, k);
            Quiet(hs) && SilentSince(hs, 0, 1000 * n) && LastPollAt(SHIPPED, hs) == LatePoll(n, k)
  {
    hide HealthySeconds, Quiet, LastPollAt, LastBeat;
    if k == 0 {
      HealthySecondsAreQuiet(n);
    } else {
      LateRunIsQuiet(n, k - 1);
      QuietAppend(LateRun(n, k - 1), Poll(LatePoll(n, k), LatePoll(n, k)));
    }
  }

  /**
   A single poll period is not enough in the bound, and the two of DetectionLatency are used up to the millisecond. With
   gaps between 1000 and 1296 ms, a task last beats 7296 ms before the clock wraps. The first poll past its timeout
   falls on the wrap, the last one in the re-opened window on its last millisecond, and the next is the first to trip.
   */
  lemma OnePeriodIsNotEnough(n: nat)
    requires 1000 * n + 7296 == WORD
    ensures var s, hs := 1000 * n, LateRun(n, 16);
            var late := s + SHIPPED.timeout + SHIPPED.grace + 2 * LATEST - 1;
            var all := hs + [Poll(late, late)];
            && Quiet(hs) && SilentSince(hs, 0, s) && Polled(SHIPPED, all, PERIOD, LATEST)
            && Trips(SHIPPED, all, |hs|)
            && late > s + SHIPPED.timeout + SHIPPED.grace + LATEST
  {
    var s, hs := 1000 * n, LateRun(n, 16);
    var late := s + SHIPPED.timeout + SHIPPED.grace + 2 * LATEST - 1;
    var all := hs + [Poll(late, late)];
    LateRunIsQuiet(n, 16);
    hide LateRun, LastBeat;
    assert all[..|hs|] == hs && all[|hs|] == Poll(late, late);
    assert late == WORD + 11295;
    SilentTripsIffPastGrace(SHIPPED, all, 0, s, |hs|);
  }
}
