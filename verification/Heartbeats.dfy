/** Counting heartbeats over runs that mix calls of update_state with commands and sync pulses. */
module Heartbeats {
  import opened Basics
  import opened Scheduler
  import opened WrappedDeadline

  /** ACTIVE with a periodic event enabled, and no realignment outstanding. */
  predicate Beating(s: Sched) {
    && Sane(s) && Mode(s.opCtrl) == ACTIVE && EventRegister(s).Some?
    && (Synced(s) ==> s.syncHandled)
  }

  /** The host stays connected and the clock is not set. */
  predicate Undisturbed(s: Sched, e: Event) { Connected(e) && !(e.WriteTimestamp? && Unlocked(s)) }

  /** Whatever the commands and pulses in between, the device is beating in every state of the run. */
  predicate KeepsBeating(s: Sched, events: seq<Event>)
    decreases |events|
  {
    Beating(s) &&
    (events == [] || (Undisturbed(s, events[0]) && KeepsBeating(Step(s, events[0]).s, events[1..])))
  }

  /** The times of the calls made by the main loop. */
  function TickTimes(events: seq<Event>): seq<int> {
    if events == [] then [] else (if events[0].Tick? then [events[0].t] else []) + TickTimes(events[1..])
  }

  /** When an event takes place; the two that do not read the clock count as time 0. */
  function TimeOf(e: Event): int { Latest(0, e) }

  /** The times at which periodic events are emitted in a run. */
  function EmissionTimes(events: seq<Event>, emitted: seq<Option<byte>>): seq<int>
    requires |events| == |emitted|
    decreases |events|
  {
    if events == [] then []
    else (if emitted[0].Some? then [TimeOf(events[0])] else []) + EmissionTimes(events[1..], emitted[1..])
  }

  lemma {:induction false} EmissionTimesAppend(a: seq<Event>, ea: seq<Option<byte>>, b: seq<Event>,
                                               eb: seq<Option<byte>>)
    requires |a| == |ea| && |b| == |eb|
    ensures EmissionTimes(a + b, ea + eb) == EmissionTimes(a, ea) + EmissionTimes(b, eb)
    decreases |a|
  {
    hide TimeOf;
    if a == [] {
      assert a + b == b && ea + eb == eb;
    } else {
      var first := if ea[0].Some? then [TimeOf(a[0])] else [];
      EmissionTimesAppend(a[1..], ea[1..], b, eb);
      EmissionTimesCons(a + b, ea + eb);
      assert (a + b)[1..] == a[1..] + b && (ea + eb)[1..] == ea[1..] + eb;
      Associative(first, EmissionTimes(a[1..], ea[1..]), EmissionTimes(b, eb));
    }
  }

  lemma EmissionTimesCons(events: seq<Event>, emitted: seq<Option<byte>>)
    requires |events| == |emitted| && events != []
    ensures EmissionTimes(events, emitted)
         == (if emitted[0].Some? then [TimeOf(events[0])] else []) + EmissionTimes(events[1..], emitted[1..])
  {
  }

  function BeatTimes(s: Sched, events: seq<Event>): seq<int> {
    EmissionTimes(events, UnboundedRun(s, events).emitted)
  }

  lemma TickBeats(s: Sched, t: int)
    requires Beating(s)
    ensures var next := Step(s, Tick(t, true));
            && next.event == (if t >= s.deadline then EventRegister(s) else None)
            && next.s.deadline == if t >= s.deadline then s.deadline + SECOND else s.deadline
  {
  }

  lemma OtherStepsDoNotBeat(s: Sched, e: Event)
    requires Beating(s) && Undisturbed(s, e) && !e.Tick? && Beating(Step(s, e).s)
    ensures Step(s, e).event == None && Step(s, e).s.deadline == s.deadline
  {
    hide UpdateState;
    hide NextClockConfig;
    match e
    case WriteOpCtrl(t, host, value) => ForcesOut(s, t, host, value);
    case WriteTimestamp(_, _, _, _, _) =>
    case WriteClockConfig(_) =>
    case WriteResetDev(_) =>
    case SyncPulse(_, _) =>
  }

  /** A write that keeps ACTIVE does not force a call. */
  lemma ForcesOut(s: Sched, t: int, host: bool, value: bv8)
    requires Mode(s.opCtrl) == ACTIVE && Mode(Step(s, WriteOpCtrl(t, host, value)).s.opCtrl) == ACTIVE
    ensures Mode(value) == SPEED || !Forces(s, value)
  {
    hide UpdateState;
    DumpIsCleared(value);
  }

  predicate Spaced(last: int, times: seq<int>)
    decreases |times|
  {
    times == [] || (last <= times[0] <= last + SECOND && Spaced(times[0], times[1..]))
  }

  /** The number of points first, first + 1 s, first + 2 s, ... that are not after t. */
  function PointsUpTo(first: int, t: int): nat {
    if t < first then 0 else (t - first) / SECOND + 1
  }

  /** The first call at or after a point. */
  function FirstAtOrAfter(times: seq<int>, point: int): Option<int> {
    if times == [] then None
    else if times[0] >= point then Some(times[0])
    else FirstAtOrAfter(times[1..], point)
  }

  function LastTime(last: int, times: seq<int>): int {
    if times == [] then last else times[|times| - 1]
  }

  /** The calls that find a one-second deadline reached. */
  function DueTimes(deadline: int, times: seq<int>): seq<int>
    decreases |times|
  {
    if times == [] then []
    else if times[0] >= deadline then [times[0]] + DueTimes(deadline + SECOND, times[1..])
    else DueTimes(deadline, times[1..])
  }

  lemma BeatTimesOfRun(s: Sched, events: seq<Event>)
    requires events != []
    ensures BeatTimes(s, events)
         == (if Step(s, events[0]).event.Some? then [TimeOf(events[0])] else [])
            + BeatTimes(Step(s, events[0]).s, events[1..])
  {
    var next := Step(s, events[0]);
    assert UnboundedRun(s, events).emitted[1..] == UnboundedRun(next.s, events[1..]).emitted;
  }

  /** Only the main loop's calls beat, and exactly those that find a one-second deadline reached. */
  lemma {:induction false} BeatsAreDueTimes(s: Sched, events: seq<Event>)
    requires KeepsBeating(s, events)
    ensures BeatTimes(s, events) == DueTimes(s.deadline, TickTimes(events))
    ensures Replay(s, events).deadline == s.deadline + |BeatTimes(s, events)| * SECOND
    decreases |events|
  {
    hide Step;
    hide Beating;
    if events != [] {
      var e := events[0];
      BeatTimesOfRun(s, events);
      BeatsAreDueTimes(Step(s, e).s, events[1..]);
      if e.Tick? {
        TickDueOrNot(s, e, events);
      } else {
        OtherStepsDoNotBeat(s, e);
        assert TickTimes(events) == TickTimes(events[1..]);
      }
    }
  }

  lemma TickDueOrNot(s: Sched, e: Event, events: seq<Event>)
    requires KeepsBeating(s, events) && events != [] && e == events[0] && e.Tick?
    ensures Step(s, e).event.Some? <==> e.t >= s.deadline
    ensures Step(s, e).s.deadline == if e.t >= s.deadline then s.deadline + SECOND else s.deadline
    ensures DueTimes(s.deadline, TickTimes(events))
         == (if e.t >= s.deadline then [e.t] else []) + DueTimes(Step(s, e).s.deadline, TickTimes(events[1..]))
  {
    TickBeats(s, e.t);
    assert TickTimes(events)[1..] == TickTimes(events[1..]);
  }

  lemma {:induction false} OneDueTimePerPoint(deadline: int, last: int, times: seq<int>)
    requires last < deadline && Spaced(last, times)
    ensures var due := DueTimes(deadline, times);
            && |due| == PointsUpTo(deadline, LastTime(last, times))
            && forall k :: 0 <= k < |due| ==> FirstAtOrAfter(times, deadline + k * SECOND) == Some(due[k])
    decreases |times|
  {
    if times != [] {
      var t := times[0];
      SpacedGrows(t, times[1..]);
      assert LastTime(t, times[1..]) == LastTime(last, times);
      if t >= deadline {
        OneDueTimePerPoint(deadline + SECOND, t, times[1..]);
        var due, rest := DueTimes(deadline, times), DueTimes(deadline + SECOND, times[1..]);
        forall k | 0 <= k < |due|
          ensures FirstAtOrAfter(times, deadline + k * SECOND) == Some(due[k])
        {
          if k > 0 {
            assert due[k] == rest[k - 1];
            assert deadline + SECOND + (k - 1) * SECOND == deadline + k * SECOND;
          }
        }
      } else {
        OneDueTimePerPoint(deadline, t, times[1..]);
      }
    }
  }

  lemma {:induction false} SpacedGrows(last: int, times: seq<int>)
    requires Spaced(last, times)
    ensures last <= LastTime(last, times)
    decreases |times|
  {
    if times != [] {
      SpacedGrows(times[0], times[1..]);
      assert LastTime(times[0], times[1..]) == LastTime(last, times);
    }
  }

  /**
   * Over any stretch that starts and stays ACTIVE, unmuted and enabled, without realignment, there
   * is one event for each one-second point up to the last call of the main loop, and it is emitted
   * by the first such call at or after its point.
   */
  lemma OneEventPerSecond(s: Sched, last: int, events: seq<Event>)
    requires KeepsBeating(s, events) && Ahead(s, last) && Spaced(last, TickTimes(events))
    ensures var beats, ticks := BeatTimes(s, events), TickTimes(events);
            && |beats| == PointsUpTo(s.deadline, LastTime(last, ticks))
            && forall k :: 0 <= k < |beats| ==> FirstAtOrAfter(ticks, s.deadline + k * SECOND) == Some(beats[k])
  {
    hide KeepsBeating;
    hide BeatTimes;
    hide DueTimes;
    hide Spaced;
    hide TickTimes;
    hide LastTime;
    hide PointsUpTo;
    hide FirstAtOrAfter;
    BeatsAreDueTimes(s, events);
    OneDueTimePerPoint(s.deadline, last, TickTimes(events));
  }

  lemma {:induction false} OverdueTimesAreAllDue(deadline: int, times: seq<int>)
    requires forall t <- times :: t >= deadline + (|times| - 1) * SECOND
    ensures DueTimes(deadline, times) == times
    decreases |times|
  {
    if times != [] {
      assert times[0] in times;
      forall t | t in times[1..]
        ensures t >= deadline + SECOND + (|times[1..]| - 1) * SECOND
      {
        assert t in times;
      }
      OverdueTimesAreAllDue(deadline + SECOND, times[1..]);
      assert times == [times[0]] + times[1..];
    }
  }

  /** After a gap, each call of the main loop consumes one overdue deadline and emits its event. */
  lemma BacklogDrainsOnePerCall(s: Sched, events: seq<Event>)
    requires KeepsBeating(s, events)
    requires forall t <- TickTimes(events) :: t >= s.deadline + (|TickTimes(events)| - 1) * SECOND
    ensures BeatTimes(s, events) == TickTimes(events)
    ensures Replay(s, events).deadline == s.deadline + |TickTimes(events)| * SECOND
  {
    hide KeepsBeating;
    OverdueTimesAreAllDue(s.deadline, TickTimes(events));
    BeatsAreDueTimes(s, events);
  }

  lemma {:induction false} TimelyTicksAreSpaced(s: Sched, last: int, events: seq<Event>)
    requires KeepsBeating(s, events) && AllTimely(s, last, events)
    ensures Spaced(last, TickTimes(events))
    decreases |events|
  {
    hide Step;
    hide Beating;
    if events != [] {
      var e := events[0];
      TimelyTicksAreSpaced(Step(s, e).s, Checked(s, last, e), events[1..]);
      if e.Tick? {
        assert TickTimes(events)[1..] == TickTimes(events[1..]);
      } else {
        StaysUnchecked(s, last, e);
        assert TickTimes(events) == TickTimes(events[1..]);
      }
    }
  }

  lemma StaysUnchecked(s: Sched, last: int, e: Event)
    requires Beating(s) && Undisturbed(s, e) && !e.Tick? && Beating(Step(s, e).s)
    ensures Checked(s, last, e) == last
  {
    if e.WriteOpCtrl? {
      ForcesOut(s, e.t, e.host, e.value);
    }
  }

  /** The firmware's heartbeats in a timely run: the same count, at the same calls. */
  lemma FirmwareBeatsOncePerSecond(s: Sched, last: int, events: seq<Event>)
    requires KeepsBeating(s, events) && Ahead(s, last) && AllTimely(s, last, events)
    ensures var beats, ticks := EmissionTimes(events, FirmwareRun(s, events).emitted), TickTimes(events);
            && |beats| == PointsUpTo(s.deadline, LastTime(last, ticks))
            && forall k :: 0 <= k < |beats| ==> FirstAtOrAfter(ticks, s.deadline + k * SECOND) == Some(beats[k])
  {
    hide KeepsBeating;
    assert Sane(s) by { StartsBeating(s, events); }
    FirmwareRefinesUnbounded(s, last, events);
    TimelyTicksAreSpaced(s, last, events);
    OneEventPerSecond(s, last, events);
  }

  lemma StartsBeating(s: Sched, events: seq<Event>)
    requires KeepsBeating(s, events)
    ensures Beating(s)
  {
  }
}
