/** The scheduler as the firmware runs it, with a deadline known only modulo 2^32, and why that is enough. */
module WrappedDeadline {
  import opened Basics
  import opened Scheduler
  import CoreRegisters

  predicate Due(s: Sched, t: int) { WrappedDue(Wrap32(t), Wrap32(s.deadline)) }

  lemma WrappedSum(a: int, b: int)
    ensures Wrap32(Wrap32(a) + b) == Wrap32(a + b)
  {
    assert a + b == Wrap32(a) + b + a / TWO_32 * TWO_32;
  }

  /** Converting to Harp time, back by `less`, and to system time again. */
  lemma HarpToSystem32(t: int, off: uint64, less: int)
    ensures Wrap32(Wrap64(Wrap64(t - off) - less + off)) == Wrap32(t - less)
  {
    var h := Wrap64(t - off);
    var q := (t - off) / TWO_64;
    assert h - less + off == t - less - q * TWO_64;
    var p := (h - less + off) / TWO_64;
    assert Wrap64(h - less + off) == t - less + (-(q + p)) * TWO_64;
    WrapTwice(t - less, -(q + p));
  }

  lemma WrapTwice(a: int, k: int)
    ensures Wrap32(a + k * TWO_64) == Wrap32(a)
  {
    assert a + k * TWO_64 == a + k * TWO_32 * TWO_32;
  }

  /** State of update_state when it comes to the deadline. */
  function Entered(s: Sched, forced: Option<bv8>, t: int, host: bool): Sched {
    var seen := Observe(s, t, host);
    EnterMode(seen, if forced.Some? then forced.value else NextMode(Mode(s.opCtrl), host, seen.connectHandled))
  }

  function Check(s: Sched, t: int): Stepped {
    if Due(s, t) then Stepped(s.(deadline := s.deadline + s.interval), EventRegister(s)) else Stepped(s, None)
  }

  function Update(s: Sched, forced: Option<bv8>, t: int, host: bool): Stepped {
    Check(Entered(s, forced, t, host), t)
  }

  /** update_state brings the HEARTBEAT register up to date for an event, whether or not one is enabled. */
  predicate Refreshes(entered: Sched, t: int) {
    Due(entered, t) && Mode(entered.opCtrl) == ACTIVE && !Muted(entered)
  }

  function FirmwareStep(s: Sched, e: Event): Stepped {
    match e
    case Tick(t, host) => Update(s, None, t, host)
    case WriteOpCtrl(t, host, value) =>
      if Mode(value) == SPEED then Stepped(s, None)
      else
        var forced := if Forces(s, value) then Update(s, Some(Mode(value)), t, host) else Stepped(s, None);
        Stepped(forced.s.(opCtrl := value & !DUMP), forced.event)
    case WriteTimestamp(_, _, _, _, _) => Step(s, e)
    case WriteClockConfig(_) => Step(s, e)
    case WriteResetDev(_) => Step(s, e)
    case SyncPulse(_, _) => Step(s, e)
  }

  lemma UpdateAgrees(s: Sched, forced: Option<bv8>, t: int, host: bool)
    requires InWindow(t, ComparedDeadline(s, t, host))
    ensures Update(s, forced, t, host) == UpdateState(s, forced, t, host)
  {
    WrappedTestAgrees(t, ComparedDeadline(s, t, host));
    assert Entered(s, forced, t, host).deadline == ComparedDeadline(s, t, host);
  }

  /** Within the 32-bit window the firmware's step is the step of the unbounded machine. */
  lemma StepAgrees(s: Sched, e: Event)
    requires WindowOk(s, e)
    ensures FirmwareStep(s, e) == Step(s, e)
  {
    match e
    case Tick(t, host) => UpdateAgrees(s, None, t, host);
    case WriteOpCtrl(t, host, value) =>
      if Forces(s, value) {
        UpdateAgrees(s, Some(Mode(value)), t, host);
      }
    case WriteTimestamp(_, _, _, _, _) =>
    case WriteClockConfig(_) =>
    case WriteResetDev(_) =>
    case SyncPulse(_, _) =>
  }

  /** Periodic events report one of two registers. */
  lemma EventRegisters(s: Sched, e: Event)
    ensures var event := FirmwareStep(s, e).event;
            event.Some? ==> event.value == CoreRegisters.HEARTBEAT || event.value == CoreRegisters.TIMESTAMP_SECOND
  {
    match e
    case Tick(_, _) =>
    case WriteOpCtrl(_, _, _) =>
    case WriteTimestamp(_, _, _, _, _) =>
    case WriteClockConfig(_) =>
    case WriteResetDev(_) =>
    case SyncPulse(_, _) =>
  }

  /** The final state of a run of the firmware, and the events it emits. */
  datatype Ran = Ran(s: Sched, emitted: seq<Option<byte>>)

  function FirmwareRun(s: Sched, events: seq<Event>): (ran: Ran)
    ensures |ran.emitted| == |events|
    decreases |events|
  {
    if events == [] then Ran(s, [])
    else
      var first := FirmwareStep(s, events[0]);
      var rest := FirmwareRun(first.s, events[1..]);
      Ran(rest.s, [first.event] + rest.emitted)
  }

  function UnboundedRun(s: Sched, events: seq<Event>): (ran: Ran)
    ensures |ran.emitted| == |events|
    decreases |events|
  {
    if events == [] then Ran(s, [])
    else
      var first := Step(s, events[0]);
      var rest := UnboundedRun(first.s, events[1..]);
      Ran(rest.s, [first.event] + rest.emitted)
  }

  /**
   * The firmware refines the unbounded machine: as long as update_state runs once a second it has
   * the same state and emits the same events at the same calls, through any number of wraps.
   */
  lemma {:induction false} FirmwareRefinesUnbounded(s: Sched, last: int, events: seq<Event>)
    requires Sane(s) && Ahead(s, last) && AllTimely(s, last, events)
    ensures FirmwareRun(s, events) == UnboundedRun(s, events)
    ensures FirmwareRun(s, events).s == Replay(s, events)
    decreases |events|
  {
    if events != [] {
      StepStaysAhead(s, last, events[0]);
      StepAgrees(s, events[0]);
      StepKeepsSane(s, events[0]);
      FirmwareRefinesUnbounded(Step(s, events[0]).s, Checked(s, last, events[0]), events[1..]);
    }
  }

  /** Less than one wrap from the deadline, the firmware's tick is right exactly within the 32-bit window. */
  lemma TickIsRightIff(s: Sched, t: int, host: bool)
    requires Sane(s)
    requires -TWO_32 <= t - ComparedDeadline(s, t, host) < TWO_32
    ensures FirmwareStep(s, Tick(t, host)) == Step(s, Tick(t, host)) <==> InWindow(t, ComparedDeadline(s, t, host))
  {
    WrappedTestAgrees(t, ComparedDeadline(s, t, host));
    assert Entered(s, None, t, host).deadline == ComparedDeadline(s, t, host);
    UpdateKeepsSane(s, None, t, host);
  }

  /** A call that comes 2^31 us late, straight after boot, is not taken for due. */
  lemma LateTickIsMissed()
    ensures Sane(Boot(0)) && Boot(0).deadline == 3_000_000
    ensures var late := Tick(3_000_000 + TWO_31, false);
            Step(Boot(0), late).s.deadline == 6_000_000 && FirmwareStep(Boot(0), late).s.deadline == 3_000_000
  {
    BootIsSane(0);
    var t := 3_000_000 + TWO_31;
    WrappedTestAgrees(t, 3_000_000);
    assert Entered(Boot(0), None, t, false).deadline == 3_000_000;
  }

  /** Equal but for the deadline. */
  predicate SameButDeadline(a: Sched, b: Sched) { a == b.(deadline := a.deadline) }

  lemma StepIgnoresDeadline(a: Sched, b: Sched, e: Event)
    requires SameButDeadline(a, b)
    ensures SameButDeadline(FirmwareStep(a, e).s, Step(b, e).s)
  {
    hide Update;
    hide UpdateState;
    hide NextClockConfig;
    match e
    case Tick(t, host) => UpdateIgnoresDeadline(a, b, None, t, host);
    case WriteOpCtrl(t, host, value) =>
      if Forces(b, value) {
        UpdateIgnoresDeadline(a, b, Some(Mode(value)), t, host);
      }
    case WriteTimestamp(_, _, _, _, _) =>
    case WriteClockConfig(_) =>
    case WriteResetDev(_) =>
    case SyncPulse(_, _) =>
  }

  lemma UpdateIgnoresDeadline(a: Sched, b: Sched, forced: Option<bv8>, t: int, host: bool)
    requires SameButDeadline(a, b)
    ensures SameButDeadline(Update(a, forced, t, host).s, UpdateState(b, forced, t, host).s)
  {
    hide Observe;
    hide EnterMode;
    hide NextMode;
    hide EventRegister;
    hide Due;
    var seen, other := Observe(a, t, host), Observe(b, t, host);
    ObserveIgnoresDeadline(a, b, t, host);
    EnterIgnoresDeadline(seen, other,
      if forced.Some? then forced.value else NextMode(Mode(a.opCtrl), host, seen.connectHandled));
  }

  lemma ObserveIgnoresDeadline(a: Sched, b: Sched, t: int, host: bool)
    requires SameButDeadline(a, b)
    ensures SameButDeadline(Observe(a, t, host), Observe(b, t, host))
  {
    hide HarpTime;
  }

  lemma EnterIgnoresDeadline(a: Sched, b: Sched, next: bv8)
    requires SameButDeadline(a, b)
    ensures SameButDeadline(EnterMode(a, next), EnterMode(b, next))
  {
    hide Mode;
    hide WithMode;
    hide NextInterval;
  }

  /**
   * However late the calls are, wrapping can only misplace the deadline: mode, latches, interval,
   * lock and clock are always those of the unbounded machine.
   */
  lemma {:induction false} WrappingTouchesOnlyTheDeadline(a: Sched, b: Sched, events: seq<Event>)
    requires SameButDeadline(a, b)
    ensures SameButDeadline(FirmwareRun(a, events).s, Replay(b, events))
    decreases |events|
  {
    if events != [] {
      StepIgnoresDeadline(a, b, events[0]);
      WrappingTouchesOnlyTheDeadline(FirmwareStep(a, events[0]).s, Step(b, events[0]).s, events[1..]);
    }
  }

  function FirmwareActivations(s: Sched, events: seq<Event>): nat
    decreases |events|
  {
    if events == [] then 0
    else
      var next := FirmwareStep(s, events[0]).s;
      (if events[0].Tick? && Mode(s.opCtrl) == STANDBY && Mode(next.opCtrl) == ACTIVE then 1 else 0)
      + FirmwareActivations(next, events[1..])
  }

  lemma {:induction false} SameActivations(a: Sched, b: Sched, events: seq<Event>)
    requires SameButDeadline(a, b)
    ensures FirmwareActivations(a, events) == AutoActivations(b, events)
    decreases |events|
  {
    hide Mode;
    hide FirmwareStep;
    hide Step;
    if events != [] {
      StepIgnoresDeadline(a, b, events[0]);
      SameActivations(FirmwareStep(a, events[0]).s, Step(b, events[0]).s, events[1..]);
    }
  }

  /** However late the calls are, a host that stays connected activates the firmware by itself at most once. */
  lemma FirmwareActivatesOncePerConnection(s: Sched, events: seq<Event>)
    requires forall e <- events :: Connected(e)
    ensures FirmwareActivations(s, events) <= if s.connectHandled then 0 else 1
  {
    SameActivations(s, s, events);
    OneActivationPerConnection(s, events);
  }

  lemma {:induction false} RunAppend(s: Sched, a: seq<Event>, b: seq<Event>)
    ensures var first := FirmwareRun(s, a);
            var second := FirmwareRun(first.s, b);
            FirmwareRun(s, a + b) == Ran(second.s, first.emitted + second.emitted)
    decreases |a|
  {
    hide FirmwareStep;
    if a == [] {
      assert a + b == b;
    } else {
      assert (a + b)[1..] == a[1..] + b;
      var step := FirmwareStep(s, a[0]);
      RunAppend(step.s, a[1..], b);
      var first := FirmwareRun(step.s, a[1..]);
      Associative([step.event], first.emitted, FirmwareRun(first.s, b).emitted);
    }
  }
}
