/** Heartbeats on whole Harp seconds: kept between clock moves, restored by the first lock, and by no later one. */
module WholeSeconds {
  import opened Basics
  import opened Scheduler

  /** The offset in use stands for the unbounded offset off, and the deadline is a whole number of its Harp seconds. */
  predicate Whole(s: Sched, off: int) {
    OffsetInUse(s) == Wrap64(off) && (s.deadline - off) % SECOND == 0
  }

  /** The same for a clock that at `last` has not yet run out of its offset. */
  predicate OnWholeSeconds(s: Sched, off: int, last: int) {
    && Whole(s, off)
    && 0 <= last && -TWO_32 * SECOND <= off <= last
    && off < s.deadline
  }

  /** The unbounded offset in use after an event. */
  function NextOff(s: Sched, off: int, e: Event): int {
    if e.WriteTimestamp? && Unlocked(s)
    then (if s.sync.Some? then e.t2 else e.t3) - NewHarpTime(s, e.t1, e.seconds)
    else off
  }

  lemma RealignIsWhole(s: Sched, off: int, t: int)
    requires OffsetInUse(s) == Wrap64(off) && -TWO_32 * SECOND <= off <= t && 0 <= t < TWO_64 / 2
    requires s.interval == ACTIVE_INTERVAL || s.interval == STANDBY_INTERVAL
    ensures OnWholeSeconds(Realign(s, t), off, t)
  {
    assert HarpTime(s, t) == t - off by { WrapDifference(t, off); }
    var h := t - off;
    assert h - h % SECOND == h / SECOND * SECOND;
    var q := s.interval / SECOND;
    assert Realign(s, t).deadline - off == (h / SECOND + q) * SECOND;
  }

  lemma TimestampKeepsWholeSeconds(s: Sched, off: int, last: int, e: Event)
    requires Sane(s) && OnWholeSeconds(s, off, last) && ClockOk(last, e) && e.WriteTimestamp?
    ensures OnWholeSeconds(Step(s, e).s, NextOff(s, off, e), Latest(last, e))
  {
    if Unlocked(s) {
      RealignIsWhole(SetHarpTime(s, NewHarpTime(s, e.t1, e.seconds), e.t2, e.t3), NextOff(s, off, e), e.t4);
    }
  }

  lemma StepKeepsWholeSeconds(s: Sched, off: int, last: int, e: Event)
    requires Sane(s) && OnWholeSeconds(s, off, last) && ClockOk(last, e) && !e.SyncPulse?
    ensures OnWholeSeconds(Step(s, e).s, NextOff(s, off, e), Latest(last, e))
  {
    hide UpdateState;
    hide NextClockConfig;
    hide Mode;
    hide WithMode;
    match e
    case Tick(t, host) => UpdateKeepsWholeSeconds(s, off, last, None, t, host);
    case WriteOpCtrl(t, host, value) =>
      if Forces(s, value) {
        UpdateKeepsWholeSeconds(s, off, last, Some(Mode(value)), t, host);
      }
    case WriteTimestamp(_, _, _, _, _) => TimestampKeepsWholeSeconds(s, off, last, e);
    case WriteClockConfig(_) =>
    case WriteResetDev(_) =>
  }

  lemma UpdateKeepsWholeSeconds(s: Sched, off: int, last: int, forced: Option<bv8>, t: int, host: bool)
    requires Sane(s) && OnWholeSeconds(s, off, last) && last <= t < TWO_64 / 2
    ensures OnWholeSeconds(UpdateState(s, forced, t, host).s, off, t)
  {
    var seen := Observe(s, t, host);
    if Synced(s) && !s.syncHandled {
      RealignIsWhole(s, off, t);
    }
    assert OnWholeSeconds(seen, off, t);
    var next := UpdateState(s, forced, t, host).s;
    assert next.deadline == seen.deadline || next.deadline == seen.deadline + ACTIVE_INTERVAL
           || next.deadline == seen.deadline + STANDBY_INTERVAL;
  }

  function FinalOff(s: Sched, off: int, events: seq<Event>): int
    decreases |events|
  {
    if events == [] then off else FinalOff(Step(s, events[0]).s, NextOff(s, off, events[0]), events[1..])
  }

  /**
   * Between sync pulses every deadline is a whole Harp second, across changes of interval and
   * TIMESTAMP_SECOND writes, however the clock advances between the reads a handler makes.
   */
  lemma {:induction false} HeartbeatsStayOnWholeSeconds(s: Sched, off: int, last: int, events: seq<Event>)
    requires Sane(s) && OnWholeSeconds(s, off, last) && ClocksOk(last, events)
    requires forall e <- events :: !e.SyncPulse?
    ensures OnWholeSeconds(Replay(s, events), FinalOff(s, off, events), FinalTime(last, events))
    decreases |events|
  {
    if events != [] {
      StepKeepsWholeSeconds(s, off, last, events[0]);
      StepKeepsSane(s, events[0]);
      HeartbeatsStayOnWholeSeconds(Step(s, events[0]).s, NextOff(s, off, events[0]),
                                   Latest(last, events[0]), events[1..]);
    }
  }

  lemma BootIsOnWholeSeconds(t: int)
    requires 0 <= t < TWO_64 / 2
    ensures OnWholeSeconds(Boot(t), 0, t)
  {
    RealignIsWhole(Boot(0).(deadline := 0), 0, t);
  }

  /** The first locked call puts the deadline on a whole Harp second, wherever it was. */
  lemma FirstSyncAligns(s: Sched, off: int, t: int, host: bool)
    requires Sane(s) && Synced(s) && !s.syncHandled
    requires OffsetInUse(s) == Wrap64(off) && -TWO_32 * SECOND <= off <= t && 0 <= t < TWO_64 / 2
    ensures OnWholeSeconds(Step(s, Tick(t, host)).s, off, t)
  {
    var seen := Observe(s, t, host);
    RealignIsWhole(s, off, t);
    var next := Step(s, Tick(t, host)).s;
    assert next.deadline == seen.deadline || next.deadline == seen.deadline + ACTIVE_INTERVAL
           || next.deadline == seen.deadline + STANDBY_INTERVAL;
  }

  /** Neither a sync pulse nor an unlocked TIMESTAMP_SECOND write moves the clock. */
  predicate Unmoved(s: Sched, events: seq<Event>)
    decreases |events|
  {
    events == [] ||
    (!MovesClock(s, events[0]) && Unmoved(Step(s, events[0]).s, events[1..]))
  }

  predicate MovesClock(s: Sched, e: Event) { e.SyncPulse? || (e.WriteTimestamp? && Unlocked(s)) }

  /** The first locked call has been made. */
  predicate Handled(s: Sched) { Synced(s) && s.syncHandled }

  lemma UpdateKeepsResidue(s: Sched, forced: Option<bv8>, t: int, host: bool)
    requires Sane(s) && Handled(s)
    ensures var next := UpdateState(s, forced, t, host).s;
            Handled(next) && OffsetInUse(next) == OffsetInUse(s) && (next.deadline - s.deadline) % SECOND == 0
  {
    hide Mode;
    hide WithMode;
    hide NextMode;
    var seen := Observe(s, t, host);
    var mode := if forced.Some? then forced.value else NextMode(Mode(s.opCtrl), host, seen.connectHandled);
    IntervalIsOneOfTwo(s.interval, Mode(s.opCtrl), mode);
  }

  lemma StepKeepsResidue(s: Sched, e: Event)
    requires Sane(s) && Handled(s) && !MovesClock(s, e)
    ensures var next := Step(s, e).s;
            Handled(next) && OffsetInUse(next) == OffsetInUse(s) && (next.deadline - s.deadline) % SECOND == 0
  {
    hide UpdateState;
    hide NextClockConfig;
    hide Mode;
    hide WithMode;
    match e
    case Tick(t, host) => UpdateKeepsResidue(s, None, t, host);
    case WriteOpCtrl(t, host, value) => UpdateKeepsResidue(s, Some(Mode(value)), t, host);
    case WriteTimestamp(_, _, _, _, _) =>
    case WriteClockConfig(_) =>
    case WriteResetDev(_) =>
  }

  lemma {:induction false} RunKeepsResidue(s: Sched, events: seq<Event>)
    requires Sane(s) && Handled(s) && Unmoved(s, events)
    ensures var end := Replay(s, events);
            OffsetInUse(end) == OffsetInUse(s) && (end.deadline - s.deadline) % SECOND == 0
    decreases |events|
  {
    hide Step;
    hide Handled;
    if events != [] {
      StepKeepsResidue(s, events[0]);
      StepKeepsSane(s, events[0]);
      RunKeepsResidue(Step(s, events[0]).s, events[1..]);
    }
  }

  /**
   * Only the first locked call realigns: after a later pulse, however many calls and commands
   * follow, the heartbeats are on whole seconds of the new clock if and only if the pulse moved the
   * clock by whole seconds.
   */
  lemma LaterSyncAlignsIff(s: Sched, off: int, t: int, newOff: int, events: seq<Event>)
    requires Sane(s) && Handled(s) && Whole(s, off)
    requires Unmoved(Step(s, SyncPulse(t, Wrap64(newOff))).s, events)
    ensures Whole(Replay(Step(s, SyncPulse(t, Wrap64(newOff))).s, events), newOff) <==> (off - newOff) % SECOND == 0
  {
    var pulsed := Step(s, SyncPulse(t, Wrap64(newOff))).s;
    StepKeepsSane(s, SyncPulse(t, Wrap64(newOff)));
    RunKeepsResidue(pulsed, events);
    var end := Replay(pulsed, events);
    SameResidue(s.deadline, off, newOff);
    AddWhole(s.deadline - newOff, end.deadline - s.deadline);
  }

  lemma AddWhole(d: int, whole: int)
    requires whole % SECOND == 0
    ensures (d + whole) % SECOND == 0 <==> d % SECOND == 0
  {
    assert whole == whole / SECOND * SECOND;
  }

  /**
   * A run in which it does not: the device boots, locks onto a packet naming second 0, realigns, and
   * hears the packet naming second 1 half a second late. No heartbeat is on a whole second again.
   */
  lemma LateSecondPacketMisaligns(events: seq<Event>)
    requires Unmoved(Step(LockedLate(), SyncPulse(2_499_418, 500_000)).s, events)
    ensures Sane(LockedLate()) && Handled(LockedLate()) && Whole(LockedLate(), 0)
    ensures !Whole(Replay(Step(LockedLate(), SyncPulse(2_499_418, 500_000)).s, events), 500_000)
  {
    hide Whole;
    hide Sane;
    hide Handled;
    hide Step;
    hide LockedLate;
    LockedLateState();
    LaterSyncAlignsIff(LockedLate(), 0, 2_499_418, 500_000, events);
  }

  function LockedLate(): Sched {
    Replay(Boot(0).(sync := Some(SyncView(false, 0))), [SyncPulse(999_418, 0), Tick(1_000_000, true)])
  }

  lemma LockedLateState()
    ensures Sane(LockedLate()) && Handled(LockedLate()) && Whole(LockedLate(), 0)
  {
    var boot := Boot(0).(sync := Some(SyncView(false, 0)));
    var first, tick := SyncPulse(999_418, 0), Tick(1_000_000, true);
    var locked := Step(boot, first).s;
    assert [first, tick][1..] == [tick] && [tick][1..] == [];
    assert LockedLate() == Step(locked, tick).s;
    BootIsSane(0);
    StepKeepsSane(boot, first);
    StepKeepsSane(locked, tick);
    assert HarpTime(locked, 1_000_000) == 1_000_000;
    FirstSyncAligns(locked, 0, 1_000_000, true);
  }

  lemma SameResidue(d: int, off: int, newOff: int)
    requires (d - off) % SECOND == 0
    ensures (d - newOff) % SECOND == 0 <==> (off - newOff) % SECOND == 0
  {
    var k := (d - off) / SECOND;
    assert d - newOff == k * SECOND + (off - newOff);
  }
}
