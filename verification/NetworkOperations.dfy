/** What each operation of the network manager achieves when it runs to its end and the other threads stand still. */
module NetworkOperations {
  import opened Basics
  import opened NetworkProtocol
  import opened ReconnectBackoff
  import NetworkSettings

  /** One thread moves n times, or the environment speaks n times. */
  function Repeat(s: Net, l: Label, n: nat): Net
    decreases n
  {
    if n == 0 then s else Repeat(Step(s, l), l, n - 1)
  }

  lemma RepeatOn(s: Net, l: Label, m: nat, n: nat)
    ensures Repeat(s, l, m + n) == Repeat(Repeat(s, l, m), l, n)
    decreases m
  {
    if m > 0 {
      RepeatOn(Step(s, l), l, m - 1, n);
    }
  }

  lemma RepeatOnce(s: Net, l: Label)
    ensures Repeat(s, l, 1) == Step(s, l)
  {
    assert Repeat(Step(s, l), l, 0) == Step(s, l);
  }

  lemma RepeatTwice(s: Net, l: Label)
    ensures Repeat(s, l, 2) == Step(Step(s, l), l)
  {
    hide Step;
    RepeatOnce(Step(s, l), l);
  }

  lemma RepeatFourTimes(s: Net, l: Label)
    ensures Repeat(s, l, 4) == Step(Step(Step(Step(s, l), l), l), l)
  {
    hide Step;
    RepeatOn(s, l, 2, 2);
    RepeatTwice(s, l);
    RepeatTwice(Step(Step(s, l), l), l);
  }

  /** clear_reconnect_policy. */
  function Forgotten(f: Flags): Flags { f.(pending := false, attempts := 0, due := 0) }

  /**
   * After the n-th failure in a row the next attempt is due min(500 * 2^n, 8000) ms later, and the
   * network task is woken.
   */
  function Rescheduled(f: Flags, now: int): Flags {
    if Wanted(f) then
      f.(attempts := Wrap32(f.attempts + 1), due := now + Min(500 * Pow2(f.attempts), 8000) * 1000,
         pending := true, notified := true)
    else f
  }

  // ---------------------------------------------------------------------------------------------
  // The network task
  // ---------------------------------------------------------------------------------------------

  lemma UpClears(s: Net, ok: bool)
    requires s.net == UpClear(ClearPending)
    ensures Repeat(s, NetStep(ok), 4) == s.(flags := Forgotten(s.flags), net := LoopTop)
  {
    hide Repeat;
    hide Step;
    var l := NetStep(ok);
    RepeatFourTimes(s, l);
    UpClearsOne(s, ok, ClearPending);
    var s1 := Step(s, l);
    UpClearsOne(s1, ok, ClearAttempts);
    var s2 := Step(s1, l);
    UpClearsOne(s2, ok, ClearDue);
    UpClearsOne(Step(s2, l), ok, Cleared);
  }

  lemma UpClearsOne(s: Net, ok: bool, p: ClearPc)
    requires s.net == UpClear(p)
    ensures Step(s, NetStep(ok))
         == s.(flags := ClearFlag(s.flags, p), net := if p.Cleared? then LoopTop else UpClear(ClearNext(p)))
  {
  }

  lemma DropClears(s: Net, ok: bool)
    requires s.net == DropClear(ClearPending)
    ensures Repeat(s, NetStep(ok), 4) == s.(flags := Forgotten(s.flags), net := DropExchange)
  {
    hide Repeat;
    hide Step;
    var l := NetStep(ok);
    RepeatFourTimes(s, l);
    DropClearsOne(s, ok, ClearPending);
    var s1 := Step(s, l);
    DropClearsOne(s1, ok, ClearAttempts);
    var s2 := Step(s1, l);
    DropClearsOne(s2, ok, ClearDue);
    DropClearsOne(Step(s2, l), ok, Cleared);
  }

  lemma DropClearsOne(s: Net, ok: bool, p: ClearPc)
    requires s.net == DropClear(p)
    ensures Step(s, NetStep(ok))
         == s.(flags := ClearFlag(s.flags, p), net := if p.Cleared? then DropExchange else DropClear(ClearNext(p)))
  {
  }

  /** A connection that is made is published, marked and kept, and the reconnect policy starts afresh. */
  lemma ConnectSucceeds(s: Net)
    requires s.net.Connect?
    ensures Repeat(s, NetStep(true), 7)
         == s.(flags := Forgotten(s.flags).(tcpConnected := true),
               sockets := s.sockets.(cell := s.sockets.net, net := None), net := LoopTop, failures := 0)
  {
    var l := NetStep(true);
    var s1 := Step(s, l);
    var s2 := Step(s1, l);
    var s3 := Step(s2, l);
    assert s3 == s.(flags := s.flags.(tcpConnected := true), sockets := s.sockets.(cell := s.sockets.net, net := None),
                    net := UpClear(ClearPending), failures := 0);
    assert Repeat(s, l, 7) == Repeat(s1, l, 6) == Repeat(s2, l, 5) == Repeat(s3, l, 4);
    UpClears(s3, true);
  }

  /** The gate that a notified task passes: APPLY, an association, an address, TCP enabled, and no wait left. */
  predicate MayConnect(f: Flags, now: int) {
    f.cmd.APPLY? && f.wifiConnected && f.cfgServer && f.cfgTcp && (f.pending ==> f.due <= now)
  }

  lemma GatePasses(s: Net, ok: bool)
    requires s.net.Woken? && MayConnect(s.flags, s.now)
    ensures Repeat(s, NetStep(ok), if s.flags.pending then 5 else 3) == s.(net := OldExchange)
  {
    var l := NetStep(ok);
    var s1 := Step(s, l);
    var s2 := Step(s1, l);
    assert s2 == s.(net := GatePending);
    if s.flags.pending {
      var s3 := Step(s2, l);
      var s4 := Step(s3, l);
      assert s4 == s.(net := GateDue(s.now));
      assert Repeat(s, l, 5) == Repeat(s1, l, 4) == Repeat(s2, l, 3) == Repeat(s3, l, 2) == Repeat(s4, l, 1);
      RepeatOnce(s4, l);
    } else {
      assert Repeat(s, l, 3) == Repeat(s1, l, 2) == Repeat(s2, l, 1);
      RepeatOnce(s2, l);
    }
  }

  /** Without all of that the task goes back to waiting, and changes nothing. */
  lemma GateHolds(s: Net, ok: bool) returns (n: nat)
    requires s.net.Woken? && s.flags.cmd.APPLY? && !MayConnect(s.flags, s.now)
    ensures n <= 5 && Repeat(s, NetStep(ok), n) == s.(net := LoopTop)
  {
    var l := NetStep(ok);
    var s1 := Step(s, l);
    var s2 := Step(s1, l);
    if s2.net.LoopTop? {
      n := 2;
      assert Repeat(s, l, 2) == Repeat(s1, l, 1);
      RepeatOnce(s1, l);
    } else {
      n := 5;
      var s3 := Step(s2, l);
      var s4 := Step(s3, l);
      assert s4 == s.(net := GateDue(s.now));
      assert Repeat(s, l, 5) == Repeat(s1, l, 4) == Repeat(s2, l, 3) == Repeat(s3, l, 2) == Repeat(s4, l, 1);
      RepeatOnce(s4, l);
    }
  }

  /** Whatever socket was published before is taken back and closed, and a new one is opened. */
  lemma OldIsReplaced(s: Net)
    requires s.net.OldExchange?
    ensures Repeat(s, NetStep(true), 4)
         == s.(flags := s.flags.(tcpConnected := false),
               sockets := s.sockets.(cell := None, net := Some(s.sockets.openCount),
                                     openCount := s.sockets.openCount + 1,
                                     closed := s.sockets.closed + One(s.sockets.cell)),
               net := Connect)
  {
    hide Repeat;
    var l := NetStep(true);
    RepeatFourTimes(s, l);
    var taken := s.sockets.(cell := None, net := s.sockets.cell);
    var s1 := Step(s, l);
    assert s1 == s.(sockets := taken, net := OldClose);
    var closed := taken.(net := None, closed := taken.closed + One(taken.net));
    var s2 := Step(s1, l);
    assert s2 == s.(sockets := closed, net := OldMark);
    var s3 := Step(s2, l);
    assert s3 == s.(flags := s.flags.(tcpConnected := false), sockets := closed, net := OpenSocket);
  }

  /** The state after an attempt that is answered. */
  function Connected(s: Net): Net {
    s.(flags := Forgotten(s.flags).(tcpConnected := true),
       sockets := s.sockets.(cell := Some(s.sockets.openCount), net := None, openCount := s.sockets.openCount + 1,
                             closed := s.sockets.closed + One(s.sockets.cell)),
       net := LoopTop, failures := 0)
  }

  /**
   * A whole attempt, from the moment the task is woken: the published socket is the one just opened,
   * the connection is marked, nothing is pending, and only the old socket was closed.
   */
  lemma AttemptConnects(s: Net)
    requires s.net.Woken? && MayConnect(s.flags, s.now)
    ensures Repeat(s, NetStep(true), if s.flags.pending then 16 else 14) == Connected(s)
  {
    hide Step;
    hide MayConnect;
    var l, n := NetStep(true), if s.flags.pending then 5 else 3;
    var passed := s.(net := OldExchange);
    GatePasses(s, true);
    OldIsReplaced(passed);
    ConnectSucceeds(Repeat(passed, l, 4));
    RepeatOn(passed, l, 4, 7);
    RepeatOn(s, l, n, 11);
  }

  // ---------------------------------------------------------------------------------------------
  // Scheduling a reconnect, on either task
  // ---------------------------------------------------------------------------------------------

  function Left(p: SchedulePc): nat {
    match p
    case AskEnabled => 9
    case AskTcp => 8
    case AskWifi => 7
    case AskCmd => 6
    case CountAttempt => 5
    case ReadClock(_) => 4
    case StoreDue(_) => 3
    case StorePending => 2
    case Wake => 1
    case Scheduled => 0
  }

  datatype Outcome = Outcome(flags: Flags, steps: nat)

  /** schedule_tcp_reconnect from p on, at one instant. */
  function Schedule(f: Flags, now: int, p: SchedulePc): Outcome
    decreases Left(p)
  {
    if p.Scheduled? then Outcome(f, 1)
    else
      var rest := Schedule(ScheduleFlag(f, p), now, ScheduleNext(f, now, p));
      Outcome(rest.flags, rest.steps + 1)
  }

  lemma ScheduleRetries(f: Flags, now: int)
    ensures Schedule(f, now, AskEnabled).flags == Rescheduled(f, now)
    ensures Schedule(f, now, AskEnabled).steps <= 10
  {
    hide ReconnectDelayMs;
    DelayIsCappedDoubling(f.attempts);
    if Wanted(f) {
      var idx := f.attempts;
      var counted := f.(attempts := Wrap32(f.attempts + 1));
      var due := now + ReconnectDelayMs(idx) * 1000;
      ScheduleOn(f, now, AskEnabled);
      ScheduleOn(f, now, AskTcp);
      ScheduleOn(f, now, AskWifi);
      ScheduleOn(f, now, AskCmd);
      ScheduleOn(f, now, CountAttempt);
      ScheduleOn(counted, now, ReadClock(idx));
      ScheduleOn(counted, now, StoreDue(due));
      ScheduleOn(counted.(due := due), now, StorePending);
      ScheduleOn(counted.(due := due, pending := true), now, Wake);
    } else {
      ScheduleOn(f, now, AskEnabled);
      ScheduleOn(f, now, AskTcp);
      ScheduleOn(f, now, AskWifi);
      ScheduleOn(f, now, AskCmd);
    }
    ScheduleIsShort(f, now, AskEnabled);
  }

  lemma ScheduleOn(f: Flags, now: int, p: SchedulePc)
    requires !p.Scheduled?
    ensures Schedule(f, now, p).flags == Schedule(ScheduleFlag(f, p), now, ScheduleNext(f, now, p)).flags
  {
  }

  lemma {:induction false} ScheduleIsShort(f: Flags, now: int, p: SchedulePc)
    ensures Schedule(f, now, p).steps <= Left(p) + 1
    decreases Left(p)
  {
    if !p.Scheduled? {
      ScheduleIsShort(ScheduleFlag(f, p), now, ScheduleNext(f, now, p));
    }
  }

  lemma {:induction false} NetSchedules(s: Net, p: SchedulePc, ok: bool)
    requires s.net == NetSchedule(p)
    ensures var o := Schedule(s.flags, s.now, p);
            Repeat(s, NetStep(ok), o.steps) == s.(flags := o.flags, net := LoopTop)
    decreases Left(p)
  {
    if p.Scheduled? {
      RepeatOnce(s, NetStep(ok));
    } else {
      NetSchedules(Step(s, NetStep(ok)), ScheduleNext(s.flags, s.now, p), ok);
    }
  }

  lemma {:induction false} CoreSchedules(s: Net, p: SchedulePc, ok: bool)
    requires s.core == CoreSchedule(p)
    ensures var o := Schedule(s.flags, s.now, p);
            Repeat(s, CoreStep(ok), o.steps) == s.(flags := o.flags, core := CoreIdle)
    decreases Left(p)
  {
    if p.Scheduled? {
      RepeatOnce(s, CoreStep(ok));
    } else {
      CoreSchedules(Step(s, CoreStep(ok)), ScheduleNext(s.flags, s.now, p), ok);
    }
  }

  /** An attempt that is refused closes its socket, is counted, and schedules the next one, if one is wanted. */
  lemma ConnectFails(s: Net)
    requires s.net.Connect?
    ensures Repeat(s, NetStep(false), Schedule(s.flags, s.now, AskEnabled).steps + 2)
         == s.(flags := Rescheduled(s.flags, s.now),
               sockets := s.sockets.(net := None, closed := s.sockets.closed + One(s.sockets.net)),
               net := LoopTop, failures := s.failures + 1, lastFailure := s.now)
  {
    hide Schedule;
    hide Repeat;
    hide Rescheduled;
    var l, n := NetStep(false), Schedule(s.flags, s.now, AskEnabled).steps;
    RepeatOn(s, l, 2, n);
    RepeatTwice(s, l);
    var s1 := Step(s, l);
    assert s1 == s.(net := GiveUp);
    var s2 := Step(s1, l);
    assert s2 == s.(sockets := s.sockets.(net := None, closed := s.sockets.closed + One(s.sockets.net)),
                    net := NetSchedule(AskEnabled), failures := s.failures + 1, lastFailure := s.now);
    NetSchedules(s2, AskEnabled, false);
    ScheduleRetries(s.flags, s.now);
  }

  /** What was published is taken back and closed, before the connection is marked lost. */
  lemma CoreDropsSocket(s: Net)
    requires s.core.IoExchange?
    ensures Step(Step(s, CoreStep(false)), CoreStep(false))
         == s.(sockets := s.sockets.(cell := None, core := None, closed := s.sockets.closed + One(s.sockets.cell)),
               core := IoMark)
  {
    var taken := s.sockets.(cell := None, core := s.sockets.cell);
    assert Step(s, CoreStep(false)) == s.(sockets := taken, core := IoClose);
  }

  lemma CoreLoses(s: Net)
    requires s.core.IoCall?
    ensures Repeat(s, CoreStep(false), 4)
         == s.(flags := s.flags.(tcpConnected := false),
               sockets := s.sockets.(cell := None, core := None, closed := s.sockets.closed + One(s.sockets.cell)),
               core := CoreSchedule(AskEnabled))
  {
    hide Repeat;
    var l := CoreStep(false);
    RepeatFourTimes(s, l);
    assert Step(s, l) == s.(core := IoExchange);
    CoreDropsSocket(s.(core := IoExchange));
  }

  /** A failed read or write takes the socket back, closes it, marks the connection lost and schedules a reconnect. */
  lemma TransferFails(s: Net)
    requires s.core.IoCall?
    ensures Repeat(s, CoreStep(false), Schedule(s.flags, s.now, AskEnabled).steps + 4)
         == s.(flags := Rescheduled(s.flags, s.now).(tcpConnected := false),
               sockets := s.sockets.(cell := None, core := None, closed := s.sockets.closed + One(s.sockets.cell)),
               core := CoreIdle)
  {
    hide Schedule;
    hide Repeat;
    hide Step;
    hide Rescheduled;
    var l, n := CoreStep(false), Schedule(s.flags, s.now, AskEnabled).steps;
    RepeatOn(s, l, 4, n);
    CoreLoses(s);
    CoreSchedules(Repeat(s, l, 4), AskEnabled, false);
    ScheduleRetries(s.flags.(tcpConnected := false), s.now);
    LostCostsTheSame(s.flags, s.now, AskEnabled);
    LostReschedules(s.flags, s.now);
  }

  lemma LostReschedules(f: Flags, now: int)
    ensures Rescheduled(f.(tcpConnected := false), now) == Rescheduled(f, now).(tcpConnected := false)
  {
  }

  lemma {:induction false} LostCostsTheSame(f: Flags, now: int, p: SchedulePc)
    ensures Schedule(f.(tcpConnected := false), now, p).steps == Schedule(f, now, p).steps
    decreases Left(p)
  {
    if !p.Scheduled? {
      LostCostsTheSame(ScheduleFlag(f, p), now, ScheduleNext(f, now, p));
    }
  }

  /** A transfer is tried only on a published socket, and one that works changes nothing. */
  lemma TransferWorks(s: Net)
    requires s.core.CoreIdle?
    ensures Step(s, StartIo).core.IoLoad?
    ensures Repeat(Step(s, StartIo), CoreStep(true), if s.sockets.cell.Some? then 2 else 1) == s
    ensures Step(Step(s, StartIo), CoreStep(true)).core.IoCall? <==> s.sockets.cell.Some?
  {
    var l := CoreStep(true);
    var s1 := Step(s, StartIo);
    var s2 := Step(s1, l);
    RepeatOnce(s1, l);
    RepeatOnce(s2, l);
    assert Repeat(s1, l, 2) == Repeat(s2, l, 1);
  }

  // ---------------------------------------------------------------------------------------------
  // Waiting
  // ---------------------------------------------------------------------------------------------

  /** With nothing pending only a notification wakes the task; otherwise it is also woken when its wait is over. */
  lemma Waits(s: Net, ok: bool)
    ensures s.net.LoopTop? && !s.flags.pending ==> Repeat(s, NetStep(ok), 1) == s.(net := WaitForever)
    ensures s.net.LoopTop? && s.flags.pending ==>
              Repeat(s, NetStep(ok), 2) == s.(net := WaitUntil(WaitEnd(s.now, s.flags.due)))
    ensures s.net.WaitForever? || s.net.WaitUntil? ==>
              Step(s, NetStep(ok))
              == if s.flags.notified then s.(flags := s.flags.(notified := false), net := Woken)
                 else if s.net.WaitUntil? && s.net.time <= s.now then s.(net := Woken) else s
  {
    var l := NetStep(ok);
    var s1 := Step(s, l);
    RepeatOnce(s, l);
    RepeatOnce(s1, l);
    assert Repeat(s, l, 2) == Repeat(s1, l, 1);
  }

  // ---------------------------------------------------------------------------------------------
  // The event loop
  // ---------------------------------------------------------------------------------------------

  /** Losing the association closes the published socket, clears both marks, and drops a reconnect that was pending. */
  lemma AssociationLost(s: Net)
    requires s.event.EventIdle?
    ensures Repeat(Step(s, WifiLost), EventStep, 5)
         == s.(flags := s.flags.(wifiConnected := false, tcpConnected := false, pending := false),
               sockets := s.sockets.(cell := None, event := None, closed := s.sockets.closed + One(s.sockets.cell)))
  {
    var l := EventStep;
    var s0 := Step(s, WifiLost);
    var s1 := Step(s0, l);
    var s2 := Step(s1, l);
    var s3 := Step(s2, l);
    var s4 := Step(s3, l);
    assert Repeat(s0, l, 5) == Repeat(s1, l, 4) == Repeat(s2, l, 3) == Repeat(s3, l, 2) == Repeat(s4, l, 1);
    RepeatOnce(s4, l);
  }

  /** An address obtained marks the association and wakes the network task. */
  lemma AddressObtained(s: Net)
    requires s.event.EventIdle?
    ensures Repeat(Step(s, GotIp), EventStep, 2) == s.(flags := s.flags.(wifiConnected := true, notified := true))
  {
    var l := EventStep;
    var s0 := Step(s, GotIp);
    var s1 := Step(s0, l);
    RepeatOnce(s1, l);
    assert Repeat(s0, l, 2) == Repeat(s1, l, 1);
  }

  // ---------------------------------------------------------------------------------------------
  // apply and disconnect
  // ---------------------------------------------------------------------------------------------

  lemma CoreClears(s: Net, ok: bool)
    requires s.core == SkipClear(ClearPending) || s.core == ApplyClear(ClearPending)
             || s.core == DiscClear(ClearPending)
    ensures Repeat(s, CoreStep(ok), 4)
         == s.(flags := Forgotten(s.flags),
               core := if s.core.SkipClear? then CoreIdle else if s.core.ApplyClear? then ApplyStation else DiscWake)
  {
    hide Repeat;
    hide Step;
    var l := CoreStep(ok);
    RepeatFourTimes(s, l);
    CoreClearsOne(s, ok, ClearPending);
    var s1 := Step(s, l);
    CoreClearsOne(s1, ok, ClearAttempts);
    assert s1 == s.(flags := s.flags.(pending := false), core := ClearingAt(s.core, ClearAttempts));
    var s2 := Step(s1, l);
    CoreClearsOne(s2, ok, ClearDue);
    assert s2 == s.(flags := s.flags.(pending := false, attempts := 0), core := ClearingAt(s.core, ClearDue));
    var s3 := Step(s2, l);
    CoreClearsOne(s3, ok, Cleared);
    assert s3 == s.(flags := Forgotten(s.flags), core := ClearingAt(s.core, Cleared));
  }

  lemma CoreClearsOne(s: Net, ok: bool, p: ClearPc)
    requires s.core == SkipClear(p) || s.core == ApplyClear(p) || s.core == DiscClear(p)
    ensures Step(s, CoreStep(ok))
         == s.(flags := ClearFlag(s.flags, p),
               core := if !p.Cleared? then ClearingAt(s.core, ClearNext(p))
                       else if s.core.SkipClear? then CoreIdle
                       else if s.core.ApplyClear? then ApplyStation else DiscWake)
  {
  }

  function ClearingAt(pc: CorePc, p: ClearPc): CorePc {
    if pc.SkipClear? then SkipClear(p) else if pc.ApplyClear? then ApplyClear(p) else DiscClear(p)
  }

  /** apply() without Wi-Fi enabled stops reconnecting, and no more. */
  lemma ApplySkips(s: Net, tcp: bool, server: bool, ok: bool)
    requires s.core.CoreIdle?
    ensures Repeat(Step(s, StartApply(false, tcp, server)), CoreStep(ok), 5)
         == s.(flags := Forgotten(s.flags).(reconnectEnabled := false))
  {
    var l := CoreStep(ok);
    var s0 := Step(s, StartApply(false, tcp, server));
    var s1 := Step(s0, l);
    CoreClears(s1, ok);
    assert Repeat(s0, l, 5) == Repeat(s1, l, 4);
  }

  lemma ApplyBegins(s: Net, tcp: bool, server: bool, ok: bool)
    requires s.core.CoreIdle?
    ensures Repeat(Step(s, StartApply(true, tcp, server)), CoreStep(ok), 2)
         == s.(flags := s.flags.(cfgTcp := tcp, cfgServer := server, reconnectEnabled := true),
               core := ApplyClear(ClearPending))
  {
    hide Repeat;
    var s0 := Step(s, StartApply(true, tcp, server));
    assert s0 == s.(core := ApplyCopy(tcp, server));
    RepeatTwice(s0, CoreStep(ok));
    assert Step(s0, CoreStep(ok)) == s.(flags := s.flags.(cfgTcp := tcp, cfgServer := server), core := ApplyEnable);
  }

  lemma ApplyEnds(s: Net, ok: bool)
    requires s.core.ApplyStation?
    ensures Repeat(s, CoreStep(ok), 2) == s.(flags := if ok then s.flags.(cmd := APPLY) else s.flags, core := CoreIdle)
  {
    hide Repeat;
    RepeatTwice(s, CoreStep(ok));
    assert Step(s, CoreStep(ok)) == s.(core := if ok then ApplyCmd else CoreIdle);
  }

  /**
   * apply() takes the profile, enables reconnecting afresh, and commits to APPLY if the station
   * could be configured.
   */
  lemma ApplyCommits(s: Net, tcp: bool, server: bool, ok: bool)
    requires s.core.CoreIdle?
    ensures Repeat(Step(s, StartApply(true, tcp, server)), CoreStep(ok), 8)
         == s.(flags := Forgotten(s.flags).(cfgTcp := tcp, cfgServer := server, reconnectEnabled := true,
                                            cmd := if ok then APPLY else s.flags.cmd))
  {
    hide Repeat;
    hide Step;
    var l, s0 := CoreStep(ok), Step(s, StartApply(true, tcp, server));
    RepeatOn(s0, l, 2, 6);
    ApplyBegins(s, tcp, server, ok);
    var s2 := Repeat(s0, l, 2);
    RepeatOn(s2, l, 4, 2);
    CoreClears(s2, ok);
    ApplyEnds(Repeat(s2, l, 4), ok);
  }

  /** disconnect() commands it, stops reconnecting and wakes the network task. */
  lemma DisconnectCommands(s: Net, ok: bool)
    requires s.core.CoreIdle?
    ensures Repeat(Step(s, StartDisconnect), CoreStep(ok), 7)
         == s.(flags := Forgotten(s.flags).(cmd := DISCONNECT, reconnectEnabled := false, notified := true))
  {
    hide Repeat;
    var l := CoreStep(ok);
    var s0 := Step(s, StartDisconnect);
    assert s0 == s.(core := DiscCmd);
    RepeatOn(s0, l, 2, 5);
    RepeatTwice(s0, l);
    var commanded := s.flags.(cmd := DISCONNECT);
    assert Step(s0, l) == s.(flags := commanded, core := DiscEnable);
    var disabled := commanded.(reconnectEnabled := false);
    var s2 := Repeat(s0, l, 2);
    assert s2 == s.(flags := disabled, core := DiscClear(ClearPending));
    CoreClears(s2, ok);
    RepeatOn(s2, l, 4, 1);
    RepeatOnce(Repeat(s2, l, 4), l);
  }

  /** Under DISCONNECT the published socket is taken back and closed. */
  lemma DropsSocket(s: Net, ok: bool)
    requires s.net.DropExchange?
    ensures Repeat(s, NetStep(ok), 4)
         == s.(flags := s.flags.(tcpConnected := false),
               sockets := s.sockets.(cell := None, net := None, closed := s.sockets.closed + One(s.sockets.cell)),
               net := LoopTop)
  {
    hide Repeat;
    var l := NetStep(ok);
    RepeatFourTimes(s, l);
    var taken := s.sockets.(cell := None, net := s.sockets.cell);
    var s1 := Step(s, l);
    assert s1 == s.(sockets := taken, net := DropClose);
    var closed := taken.(net := None, closed := taken.closed + One(taken.net));
    var s2 := Step(s1, l);
    assert s2 == s.(sockets := closed, net := DropMark);
    var s3 := Step(s2, l);
    assert s3 == s.(flags := s.flags.(tcpConnected := false), sockets := closed, net := DropWifi);
  }

  /** The network task woken under DISCONNECT closes the published socket and forgets every reconnect. */
  lemma DropCloses(s: Net, ok: bool)
    requires s.net.Woken? && s.flags.cmd.DISCONNECT?
    ensures Repeat(s, NetStep(ok), 9)
         == s.(flags := Forgotten(s.flags).(tcpConnected := false),
               sockets := s.sockets.(cell := None, net := None, closed := s.sockets.closed + One(s.sockets.cell)),
               net := LoopTop)
  {
    hide Repeat;
    var l := NetStep(ok);
    RepeatOn(s, l, 1, 8);
    RepeatOnce(s, l);
    var s1 := Step(s, l);
    assert s1 == s.(net := DropClear(ClearPending));
    DropClears(s1, ok);
    RepeatOn(s1, l, 4, 4);
    DropsSocket(Repeat(s1, l, 4), ok);
  }

  /** The step that leaves clear_reconnect_policy stores nothing, so it undoes no store made in between. */
  lemma LeavingClearStoresNothing(s: Net, ok: bool)
    ensures s.net == UpClear(Cleared) || s.net == DropClear(Cleared) ==> Step(s, NetStep(ok)).flags == s.flags
    ensures s.core == SkipClear(Cleared) || s.core == ApplyClear(Cleared) || s.core == DiscClear(Cleared) ==>
              Step(s, CoreStep(ok)).flags == s.flags
  {
  }

  // ---------------------------------------------------------------------------------------------
  // A connection from end to end
  // ---------------------------------------------------------------------------------------------

  /** apply(), the address that follows it, and the network task it wakes, one after the other. */
  function ApplyAndConnect(s: Net): Net {
    var applied := Repeat(Step(s, StartApply(true, true, true)), CoreStep(true), 8);
    var associated := Repeat(Step(applied, GotIp), EventStep, 2);
    Repeat(Step(associated, NetStep(true)), NetStep(true), 14)
  }

  /**
   * Whatever went before, they leave a connection: the published socket is one just opened, the one
   * before it is closed, and nothing is pending.
   */
  lemma ApplyConnects(s: Net)
    requires s.core.CoreIdle? && s.event.EventIdle? && s.net.WaitForever?
    ensures ApplyAndConnect(s)
         == s.(flags := Flags(true, true, true, false, 0, 0, APPLY, true, true, false),
               sockets := s.sockets.(cell := Some(s.sockets.openCount), net := None,
                                     openCount := s.sockets.openCount + 1,
                                     closed := s.sockets.closed + One(s.sockets.cell)),
               net := LoopTop, failures := 0)
  {
    hide Repeat;
    ApplyCommits(s, true, true, true);
    var applied := Repeat(Step(s, StartApply(true, true, true)), CoreStep(true), 8);
    AddressObtained(applied);
    var associated := Repeat(Step(applied, GotIp), EventStep, 2);
    Waits(associated, true);
    AttemptConnects(Step(associated, NetStep(true)));
  }

  /** The call of apply() that a profile in the registers makes. */
  function ApplyOf(settings: NetworkSettings.Settings): Label
    requires settings.serverIp != []
  {
    StartApply(Has(settings.enable, NetworkSettings.ENABLE_WIFI), Has(settings.enable, NetworkSettings.ENABLE_TCP),
               settings.serverIp[0] != 0)
  }

  /**
   * With Wi-Fi enabled, the network task that the address wakes goes on to an attempt, which connects
   * if it is answered, if and only if the profile enables TCP (bit 1) and names a server.
   */
  lemma AttemptIffProfileAllows(s: Net, settings: NetworkSettings.Settings)
    requires s.core.CoreIdle? && s.event.EventIdle? && s.net.WaitForever?
    requires settings.serverIp != [] && settings.enable & 0x01 != 0
    ensures var applied := Repeat(Step(s, ApplyOf(settings)), CoreStep(true), 8);
            var woken := Step(Repeat(Step(applied, GotIp), EventStep, 2), NetStep(true));
            && woken.net.Woken?
            && (MayConnect(woken.flags, woken.now) <==> settings.enable & 0x02 != 0 && settings.serverIp[0] != 0)
  {
    hide Repeat;
    var tcp, server := Has(settings.enable, NetworkSettings.ENABLE_TCP), settings.serverIp[0] != 0;
    ApplyCommits(s, tcp, server, true);
    var applied := Repeat(Step(s, StartApply(true, tcp, server)), CoreStep(true), 8);
    AddressObtained(applied);
    Waits(Repeat(Step(applied, GotIp), EventStep, 2), true);
  }

  // ---------------------------------------------------------------------------------------------
  // Before the first apply
  // ---------------------------------------------------------------------------------------------

  predicate NeverApplied(labels: seq<Label>) { forall l <- labels :: !l.StartApply? || !l.wifi }

  predicate CoreIsQuiet(pc: CorePc) {
    pc.CoreIdle? || pc.IoLoad? || pc.SkipEnable? || pc.SkipClear? || pc.DiscCmd? || pc.DiscEnable? || pc.DiscClear?
    || pc.DiscWake?
  }

  predicate NetIsQuiet(pc: NetPc) {
    pc.LoopTop? || pc.WaitForever? || pc.Woken? || pc.DropClear? || pc.DropExchange? || pc.DropClose? || pc.DropMark?
    || pc.DropWifi?
  }

  /** No socket, no connection, no attempt and no profile. */
  predicate Untouched(s: Net) {
    && s.sockets == Sockets(None, None, None, None, 0, multiset{})
    && !s.flags.tcpConnected && !s.flags.reconnectEnabled && !s.flags.pending
    && s.flags.attempts == 0 && s.flags.due == 0 && s.flags.cmd.DISCONNECT?
    && !s.flags.cfgTcp && !s.flags.cfgServer && s.failures == 0
    && CoreIsQuiet(s.core) && NetIsQuiet(s.net)
  }

  lemma StaysUntouched(s: Net, l: Label)
    requires Untouched(s) && (!l.StartApply? || !l.wifi)
    ensures Untouched(Step(s, l))
  {
    match l
    case CoreStep(ok) => CoreStaysUntouched(s, ok);
    case EventStep => EventStaysUntouched(s);
    case NetStep(ok) => NetStaysUntouched(s, ok);
    case _ =>
  }

  lemma CoreStaysUntouched(s: Net, ok: bool)
    requires Untouched(s)
    ensures Untouched(StepCore(s, ok))
  {
  }

  lemma EventStaysUntouched(s: Net)
    requires Untouched(s)
    ensures Untouched(StepEvent(s))
  {
  }

  lemma NetStaysUntouched(s: Net, ok: bool)
    requires Untouched(s)
    ensures Untouched(StepNet(s, ok))
  {
  }

  lemma {:induction false} RunsUntouched(s: Net, labels: seq<Label>)
    requires Untouched(s) && NeverApplied(labels)
    ensures Untouched(Run(s, labels))
    decreases |labels|
  {
    hide Step;
    hide Untouched;
    if labels != [] {
      assert labels[0] in labels;
      StaysUntouched(s, labels[0]);
      RunsUntouched(Step(s, labels[0]), labels[1..]);
    }
  }

  /**
   * From power-on, until Wi-Fi is first applied, the device opens no socket and tries no
   * connection, whatever happens.
   */
  lemma NothingBeforeApply(now: int, labels: seq<Label>)
    requires NeverApplied(labels)
    ensures Untouched(Run(Init(now), labels))
    ensures !Init(now).flags.wifiConnected && !Init(now).flags.notified && Init(now).event.EventIdle?
  {
    RunsUntouched(Init(now), labels);
  }

  /** The first apply from power-on connects with the first socket ever, and nothing has been closed. */
  lemma FirstApplyConnects(now: int)
    ensures var s := ApplyAndConnect(Repeat(Init(now), NetStep(true), 1));
            && s.sockets == Sockets(Some(0), None, None, None, 1, multiset{})
            && s.flags.tcpConnected && s.core.CoreIdle? && s.event.EventIdle? && s.net.LoopTop? && s.now == now
  {
    Waits(Init(now), true);
    ApplyConnects(Repeat(Init(now), NetStep(true), 1));
  }
}
