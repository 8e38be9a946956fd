/** Exactly when consecutive connection attempts are spaced out: unless the core task still holds an old deadline. */
module StaleSchedule {
  import opened Basics
  import opened NetworkProtocol
  import opened ReconnectBackoff

  /** More attempts than this and the 32-bit count is about to wrap. */
  const MANY := TWO_32 - 20

  /** An attempt that starts now does not start too early. */
  predicate Spaced(s: Net) {
    s.net.OpenSocket? && s.failures > 0 ==>
      s.now >= s.lastFailure + Min(500 * Pow2(s.failures - 1), 8000) * 1000
  }

  /** Every run of failures from s keeps its attempts apart. */
  ghost predicate AlwaysSpaced(s: Net) {
    forall labels: seq<Label> :: KeepsFailing(s, labels) ==> Spaced(Run(s, labels))
  }

  /** The connection is gone, the network task is about to wait, and the core task is in a transfer or idle. */
  predicate JustLost(s: Net) {
    && Wanted(s.flags) && s.flags.cfgServer && !s.flags.pending && s.flags.attempts < MANY
    && s.sockets.cell.None? && s.event.EventIdle? && s.net.LoopTop?
    && s.failures == 0 && s.lastFailure <= s.now
    && (s.core.CoreIdle? || s.core.IoLoad? || s.core.IoCall? || s.core.IoExchange? || s.core.IoClose? || s.core.IoMark?
        || s.core.CoreSchedule?)
  }

  // ---------------------------------------------------------------------------------------------
  // A run in which a stale deadline overwrites a newer one
  // ---------------------------------------------------------------------------------------------

  ghost predicate Reaches(s: Net, t: Net, n: nat) {
    exists labels: seq<Label> :: |labels| == n && KeepsFailing(s, labels) && Run(s, labels) == t
  }

  lemma {:induction false} OneMore(s: Net, labels: seq<Label>, l: Label)
    requires KeepsFailing(s, labels) && StillFailing(Run(s, labels), l) && Run(s, labels).flags.attempts < TWO_32 - 1
    ensures KeepsFailing(s, labels + [l]) && Run(s, labels + [l]) == Step(Run(s, labels), l)
    decreases |labels|
  {
    if labels == [] {
      assert ([] + [l])[1..] == [];
    } else {
      OneMore(Step(s, labels[0]), labels[1..], l);
      assert (labels + [l])[1..] == labels[1..] + [l];
    }
  }

  lemma Take(s: Net, t: Net, n: nat, l: Label) returns (u: Net)
    requires Reaches(s, t, n) && StillFailing(t, l) && t.flags.attempts < TWO_32 - 1
    ensures u == Step(t, l) && Reaches(s, u, n + 1)
  {
    hide Step;
    hide StillFailing;
    var labels: seq<Label> :| |labels| == n && KeepsFailing(s, labels) && Run(s, labels) == t;
    OneMore(s, labels, l);
    u := Step(t, l);
    assert |labels + [l]| == n + 1;
  }

  /** How far the core task is from storing its deadline. */
  function StepsToStore(core: CorePc): nat {
    match core
    case IoCall => 10
    case IoExchange => 9
    case IoClose => 8
    case IoMark => 7
    case CoreSchedule(p) =>
      (match p
       case AskEnabled => 6
       case AskTcp => 5
       case AskWifi => 4
       case AskCmd => 3
       case CountAttempt => 2
       case ReadClock(_) => 1
       case _ => 0)
    case _ => 0
  }

  lemma CoreApproachesStore(t: Net)
    requires Wanted(t.flags) && t.sockets.cell.None? && StepsToStore(t.core) > 0
    ensures var u := StepCore(t, false);
            && StepsToStore(u.core) == StepsToStore(t.core) - 1
            && Wanted(u.flags) && u.sockets.cell.None?
            && u.flags.pending == t.flags.pending && u.flags.cfgServer == t.flags.cfgServer
            && (StepsToStore(u.core) == 0 ==> u.core.CoreSchedule? && u.core.at.StoreDue?)
            && u.flags.attempts == (if t.core == CoreSchedule(CountAttempt) then Wrap32(t.flags.attempts + 1)
                                    else t.flags.attempts)
            && u.event == t.event && u.net == t.net && u.failures == t.failures && u.now == t.now
  {
    match t.core
    case IoCall =>
    case IoExchange =>
    case IoClose =>
    case IoMark =>
    case CoreSchedule(p) =>
  }

  /** The core task is left alone with its deadline while the other threads move. */
  predicate Holding(t: Net, core: CorePc, now: int) {
    && Wanted(t.flags) && t.flags.cfgServer && t.flags.attempts < MANY + 10
    && t.sockets.cell.None? && t.event.EventIdle? && t.core == core && t.now == now
    && core.CoreSchedule? && core.at.StoreDue?
  }

  lemma {:induction false} CoreReachesStore(s: Net, t: Net, n: nat) returns (u: Net, m: nat)
    requires Reaches(s, t, n) && Wanted(t.flags) && t.flags.cfgServer && !t.flags.pending
    requires t.flags.attempts < MANY + (if StepsToStore(t.core) < 2 then 1 else 0)
    requires t.sockets.cell.None? && t.event.EventIdle? && t.net.LoopTop? && t.failures == 0
    requires StepsToStore(t.core) > 0 || (t.core.CoreSchedule? && t.core.at.StoreDue?)
    ensures Reaches(s, u, m) && m == n + StepsToStore(t.core)
    ensures Holding(u, u.core, t.now) && !u.flags.pending && u.net.LoopTop? && u.failures == 0
    ensures u.flags.attempts <= MANY + 1
    decreases StepsToStore(t.core)
  {
    if StepsToStore(t.core) == 0 {
      u, m := t, n;
    } else {
      CoreApproachesStore(t);
      var next := Take(s, t, n, CoreStep(false));
      u, m := CoreReachesStore(s, next, n + 1);
    }
  }

  /** Time passes the held deadline, and a renewed address wakes the network task. */
  lemma WakeUp(s: Net, t: Net, n: nat) returns (u: Net)
    requires Reaches(s, t, n) && Holding(t, t.core, t.now) && !t.flags.pending && t.net.LoopTop? && t.failures == 0
    ensures Reaches(s, u, n + 4) && Holding(u, t.core, u.now) && t.core.at.due <= u.now
    ensures !u.flags.pending && u.flags.notified && u.net.LoopTop? && u.failures == 0
    ensures u.flags.attempts == t.flags.attempts
  {
    u := Take(s, t, n, Elapse(Max(0, t.core.at.due - t.now)));
    u := Take(s, u, n + 1, GotIp);
    u := Take(s, u, n + 2, EventStep);
    u := Take(s, u, n + 3, EventStep);
  }

  /** The program points of one failing attempt. */
  predicate OnTheWay(pc: NetPc) { Guarded(pc) || pc.OldExchange? || pc.OldClose? || pc.OldMark? || pc.NetSchedule? }

  /** One step of the network task that moves nothing but itself and its marks. */
  lemma NetOnce(s: Net, t: Net, n: nat, core: CorePc) returns (u: Net)
    requires Reaches(s, t, n) && Holding(t, core, t.now) && OnTheWay(t.net)
    requires t.net.NetSchedule? ==> t.flags.attempts < MANY + 9
    ensures Reaches(s, u, n + 1) && Holding(u, core, t.now)
    ensures u.flags == NetMoves(t.flags, t.now, t.net, false).flags
            && u.net == NetMoves(t.flags, t.now, t.net, false).next
    ensures u.failures == t.failures && u.lastFailure == t.lastFailure
  {
    NetKeepsWanting(t.flags, t.now, t.net, false);
    CellStaysEmpty(t.sockets, NetMoves(t.flags, t.now, t.net, false).op);
    NetKeepsServer(t.flags, t.now, t.net);
    u := Take(s, t, n, NetStep(false));
  }

  lemma NetKeepsServer(f: Flags, now: int, net: NetPc)
    requires OnTheWay(net)
    ensures var m := NetMoves(f, now, net, false);
            m.flags.cfgServer == f.cfgServer && (!net.NetSchedule? ==> m.flags.attempts == f.attempts)
  {
    match net
    case NetSchedule(p) => ScheduleKeepsServer(f, p);
    case LoopTop =>
    case LoopDue(_) =>
    case WaitForever =>
    case WaitUntil(_) =>
    case Woken =>
    case AskLink =>
    case GatePending =>
    case GateClock =>
    case GateDue(_) =>
    case OldExchange =>
    case OldClose =>
    case OldMark =>
  }

  lemma ScheduleKeepsServer(f: Flags, p: SchedulePc)
    ensures ScheduleFlag(f, p).cfgServer == f.cfgServer
  {
  }

  /** From the exchange of the old socket to the start of the attempt. */
  lemma ToAttempt(s: Net, t: Net, n: nat, core: CorePc) returns (u: Net)
    requires Reaches(s, t, n) && Holding(t, core, t.now) && t.net.OldExchange?
    ensures Reaches(s, u, n + 3) && Holding(u, core, t.now) && u.net.OpenSocket?
    ensures u.flags == t.flags.(tcpConnected := false) && u.failures == t.failures && u.lastFailure == t.lastFailure
  {
    u := NetOnce(s, t, n, core);
    u := NetOnce(s, u, n + 1, core);
    u := NetOnce(s, u, n + 2, core);
  }

  /** A notified network task with no deadline pending goes straight to an attempt, which fails at once. */
  lemma FailAttempt(s: Net, t: Net, n: nat, core: CorePc) returns (u: Net)
    requires Reaches(s, t, n) && Holding(t, core, t.now) && t.flags.attempts < MANY + 9
    requires !t.flags.pending && t.flags.notified && t.net.LoopTop? && t.failures == 0
    ensures Reaches(s, u, n + 9) && Holding(u, core, t.now) && u.flags.attempts == t.flags.attempts
    ensures u.net == NetSchedule(AskEnabled) && u.failures == 1 && u.lastFailure == t.now
  {
    u := NetOnce(s, t, n, core);
    u := NetOnce(s, u, n + 1, core);
    u := NetOnce(s, u, n + 2, core);
    u := NetOnce(s, u, n + 3, core);
    u := NetOnce(s, u, n + 4, core);
    u := ToAttempt(s, u, n + 5, core);
    u := Take(s, u, n + 8, NetStep(false));
  }

  /** One step of schedule_tcp_reconnect in the network task. */
  lemma ScheduleOnce(s: Net, t: Net, n: nat, core: CorePc) returns (u: Net)
    requires Reaches(s, t, n) && Holding(t, core, t.now) && t.flags.attempts < MANY + 9
    requires t.net.NetSchedule?
    ensures Reaches(s, u, n + 1) && Holding(u, core, t.now)
    ensures u.flags == ScheduleFlag(t.flags, t.net.at)
    ensures u.net == if t.net.at.Scheduled? then LoopTop else NetSchedule(ScheduleNext(t.flags, t.now, t.net.at))
    ensures u.failures == t.failures && u.lastFailure == t.lastFailure
  {
    u := NetOnce(s, t, n, core);
  }

  /** The failed attempt raises the pending flag and notifies the task itself. */
  lemma ScheduleFailed(s: Net, t: Net, n: nat, core: CorePc) returns (u: Net)
    requires Reaches(s, t, n) && Holding(t, core, t.now) && t.flags.attempts < MANY + 5
    requires t.net == NetSchedule(AskEnabled)
    ensures Reaches(s, u, n + 10) && Holding(u, core, t.now)
    ensures u.net.LoopTop? && u.flags.pending && u.flags.notified
    ensures u.failures == t.failures && u.lastFailure == t.lastFailure
  {
    u := CountFailed(s, t, n, core);
    u := RaisePending(s, u, n + 5, core);
    u := ScheduleOnce(s, u, n + 8, core);
    u := ScheduleOnce(s, u, n + 9, core);
  }

  lemma RaisePending(s: Net, t: Net, n: nat, core: CorePc) returns (u: Net)
    requires Reaches(s, t, n) && Holding(t, core, t.now) && t.flags.attempts < MANY + 9
    requires t.net.NetSchedule? && t.net.at.ReadClock?
    ensures Reaches(s, u, n + 3) && Holding(u, core, t.now) && u.flags.attempts < MANY + 9
    ensures u.net.NetSchedule? && u.net.at.Wake? && u.flags.pending
    ensures u.failures == t.failures && u.lastFailure == t.lastFailure
  {
    u := ScheduleOnce(s, t, n, core);
    assert u.net.at.StoreDue?;
    u := ScheduleOnce(s, u, n + 1, core);
    assert u.net.at.StorePending?;
    u := ScheduleOnce(s, u, n + 2, core);
  }

  lemma CountFailed(s: Net, t: Net, n: nat, core: CorePc) returns (u: Net)
    requires Reaches(s, t, n) && Holding(t, core, t.now) && t.flags.attempts < MANY + 5
    requires t.net == NetSchedule(AskEnabled)
    ensures Reaches(s, u, n + 5) && Holding(u, core, t.now) && u.flags.attempts < MANY + 9
    ensures u.net.NetSchedule? && u.net.at.ReadClock?
    ensures u.failures == t.failures && u.lastFailure == t.lastFailure
  {
    u := AskAll(s, t, n, core);
    u := ScheduleOnce(s, u, n + 4, core);
  }

  /** All four questions are answered in favour of a reconnect. */
  lemma AskAll(s: Net, t: Net, n: nat, core: CorePc) returns (u: Net)
    requires Reaches(s, t, n) && Holding(t, core, t.now) && t.flags.attempts < MANY + 5
    requires t.net == NetSchedule(AskEnabled)
    ensures Reaches(s, u, n + 4) && Holding(u, core, t.now)
    ensures u.net == NetSchedule(CountAttempt) && u.flags == t.flags
    ensures u.failures == t.failures && u.lastFailure == t.lastFailure
  {
    u := ScheduleOnce(s, t, n, core);
    assert u.net == NetSchedule(AskTcp) && u.flags == t.flags;
    u := ScheduleOnce(s, u, n + 1, core);
    assert u.net == NetSchedule(AskWifi) && u.flags == t.flags;
    u := ScheduleOnce(s, u, n + 2, core);
    assert u.net == NetSchedule(AskCmd) && u.flags == t.flags;
    u := ScheduleOnce(s, u, n + 3, core);
  }

  /** The held deadline, long past, overwrites the one just stored. */
  lemma Overwrite(s: Net, t: Net, n: nat) returns (u: Net)
    requires Reaches(s, t, n) && Holding(t, t.core, t.now) && t.core.at.due <= t.now
    ensures Reaches(s, u, n + 1) && u.flags == t.flags.(due := t.core.at.due) && u.core == CoreSchedule(StorePending)
    ensures u.net == t.net && u.event == t.event && u.now == t.now && u.sockets == t.sockets
    ensures u.failures == t.failures && u.lastFailure == t.lastFailure
  {
    u := Take(s, t, n, CoreStep(false));
  }

  predicate Rushing(t: Net) {
    && Wanted(t.flags) && t.flags.cfgServer && t.flags.pending && t.flags.due <= t.now && t.flags.attempts < MANY + 10
    && t.sockets.cell.None? && t.event.EventIdle?
  }

  lemma RushOnce(s: Net, t: Net, n: nat) returns (u: Net)
    requires Reaches(s, t, n) && Rushing(t) && OnTheWay(t.net) && !t.net.NetSchedule?
    ensures Reaches(s, u, n + 1) && Rushing(u) && u.now == t.now
    ensures u.net == NetMoves(t.flags, t.now, t.net, false).next
    ensures u.flags == NetMoves(t.flags, t.now, t.net, false).flags
    ensures u.failures == t.failures && u.lastFailure == t.lastFailure
  {
    CellStaysEmpty(t.sockets, NetMoves(t.flags, t.now, t.net, false).op);
    u := Take(s, t, n, NetStep(false));
  }

  /** The task notified by its own failure finds the deadline past and starts the next attempt at once. */
  lemma Rush(s: Net, t: Net, n: nat) returns (u: Net)
    requires Reaches(s, t, n) && Rushing(t) && t.net.LoopTop? && t.flags.notified
    ensures Reaches(s, u, n + 11) && u.net.OpenSocket? && u.now == t.now
    ensures u.failures == t.failures && u.lastFailure == t.lastFailure
  {
    u := RushToGate(s, t, n);
    u := RushThroughGate(s, u, n + 5);
    u := RushOnce(s, u, n + 8);
    u := RushOnce(s, u, n + 9);
    u := RushOnce(s, u, n + 10);
  }

  lemma RushThroughGate(s: Net, t: Net, n: nat) returns (u: Net)
    requires Reaches(s, t, n) && Rushing(t) && t.net.GatePending?
    ensures Reaches(s, u, n + 3) && Rushing(u) && u.net.OldExchange? && u.now == t.now
    ensures u.failures == t.failures && u.lastFailure == t.lastFailure
  {
    u := RushOnce(s, t, n);
    u := RushOnce(s, u, n + 1);
    u := RushOnce(s, u, n + 2);
  }

  lemma RushToGate(s: Net, t: Net, n: nat) returns (u: Net)
    requires Reaches(s, t, n) && Rushing(t) && t.net.LoopTop? && t.flags.notified
    ensures Reaches(s, u, n + 5) && Rushing(u) && u.net.GatePending? && u.now == t.now
    ensures u.failures == t.failures && u.lastFailure == t.lastFailure
  {
    u := RushOnce(s, t, n);
    u := RushOnce(s, u, n + 1);
    u := RushOnce(s, u, n + 2);
    u := RushOnce(s, u, n + 3);
    u := RushOnce(s, u, n + 4);
  }

  /**
   * From a lost connection whose reconnect the core task has not stored yet, an attempt can follow
   * a failure at once.
   */
  lemma SomeRunRushes(s: Net) returns (t: Net, n: nat)
    requires JustLost(s) && !NothingToStore(s.core)
    ensures Reaches(s, t, n) && !Spaced(t)
  {
    var none: seq<Label> := [];
    assert |none| == 0 && KeepsFailing(s, none) && Run(s, none) == s;
    t, n := CoreReachesStore(s, s, 0);
    var core := t.core;
    t := WakeUp(s, t, n);
    t := FailAttempt(s, t, n + 4, core);
    t := ScheduleFailed(s, t, n + 13, core);
    t := Overwrite(s, t, n + 23);
    t := Rush(s, t, n + 24);
    n := n + 35;
  }

  /**
   * Attempts are kept apart in every run of failures that starts from a lost connection if and only
   * if the core task has no reconnect deadline of its own still to store.
   */
  lemma SpacedIffNothingToStore(s: Net)
    requires JustLost(s)
    ensures AlwaysSpaced(s) <==> NothingToStore(s.core)
  {
    if NothingToStore(s.core) {
      forall labels: seq<Label> | KeepsFailing(s, labels)
        ensures Spaced(Run(s, labels))
      {
        AttemptsAreSpaced(s, labels);
      }
    } else {
      var t, n := SomeRunRushes(s);
      var labels: seq<Label> :| |labels| == n && KeepsFailing(s, labels) && Run(s, labels) == t;
      assert !Spaced(Run(s, labels));
    }
  }
}
