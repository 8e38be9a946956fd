/** Manual disconnect wins, over whole runs and against everything that was in flight. */
module ManualDisconnect {
  import opened Basics
  import opened NetworkProtocol

  /** schedule_tcp_reconnect has passed its check of the command. */
  predicate PastCmd(p: SchedulePc) { p.CountAttempt? || p.ReadClock? || p.StoreDue? || p.StorePending? }

  predicate Dropping(pc: NetPc) {
    pc.DropClear? || pc.DropExchange? || pc.DropClose? || pc.DropMark? || pc.DropWifi?
  }

  /** In a DISCONNECT iteration, after its store to the pending flag. */
  predicate Dropped(pc: NetPc) { Dropping(pc) && !(pc.DropClear? && pc.clear.ClearPending?) }

  predicate MidDisconnect(pc: CorePc) { pc.DiscEnable? || (pc.DiscClear? && pc.clear.ClearPending?) }

  /** Only the core task writes the command, so neither its schedule nor its disconnect sees it change. */
  predicate OwnsCommand(f: Flags, core: CorePc) {
    && (core.CoreSchedule? && PastCmd(core.at) ==> f.cmd.APPLY?)
    && (core.DiscEnable? || core.DiscClear? || core.DiscWake? ==> f.cmd.DISCONNECT?)
  }

  /** What a DISCONNECT iteration can rely on. */
  predicate Calm(f: Flags, core: CorePc, net: NetPc) {
    && OwnsCommand(f, core)
    && (f.cmd.DISCONNECT? && !MidDisconnect(core) && Dropped(net) ==> !f.pending)
    && (net.DropWifi? ==> !f.tcpConnected)
  }

  function ClearSteps(p: ClearPc): nat {
    match p
    case ClearPending => 4
    case ClearAttempts => 3
    case ClearDue => 2
    case Cleared => 1
  }

  function ScheduleSteps(p: SchedulePc): nat {
    match p
    case AskEnabled => 10
    case AskTcp => 9
    case AskWifi => 8
    case AskCmd => 7
    case CountAttempt => 6
    case ReadClock(_) => 5
    case StoreDue(_) => 4
    case StorePending => 3
    case Wake => 2
    case Scheduled => 1
  }

  lemma ScheduleMove(f: Flags, now: int, p: SchedulePc)
    ensures var next := ScheduleNext(f, now, p);
            var g := ScheduleFlag(f, p);
            && (PastCmd(next) ==> PastCmd(p) || (p.AskCmd? && f.cmd.APPLY?))
            && g.cmd == f.cmd && g.tcpConnected == f.tcpConnected && (f.notified ==> g.notified)
            && (g.pending ==> f.pending || PastCmd(p))
            && (p.Scheduled? || ScheduleSteps(next) < ScheduleSteps(p))
  {
  }

  lemma ClearMove(f: Flags, p: ClearPc)
    ensures var g := ClearFlag(f, p);
            && g.cmd == f.cmd && g.tcpConnected == f.tcpConnected && g.notified == f.notified
            && (g.pending ==> f.pending)
  {
    match p
    case ClearPending =>
    case ClearAttempts =>
    case ClearDue =>
    case Cleared =>
  }

  /** What a step of the core task does to the command. */
  lemma CoreCommand(f: Flags, cell: Option<Sock>, now: int, core: CorePc, ok: bool)
    requires OwnsCommand(f, core)
    ensures var m := CoreMoves(f, cell, now, core, ok);
            && OwnsCommand(m.flags, m.next)
            && (m.flags.cmd == f.cmd || (core.ApplyCmd? && m.flags.cmd.APPLY?)
                || (core.DiscCmd? && MidDisconnect(m.next)))
  {
    match core
    case CoreSchedule(p) => ScheduleMove(f, now, p);
    case SkipClear(p) => ClearMove(f, p);
    case ApplyClear(p) => ClearMove(f, p);
    case DiscClear(p) => ClearMove(f, p);
    case CoreIdle =>
    case IoLoad =>
    case IoCall =>
    case IoExchange =>
    case IoClose =>
    case IoMark =>
    case SkipEnable =>
    case ApplyCopy(_, _) =>
    case ApplyEnable =>
    case ApplyStation =>
    case ApplyCmd =>
    case DiscCmd =>
    case DiscEnable =>
    case DiscWake =>
  }

  /** Only a schedule past its check of the command raises the pending flag. */
  lemma CoreRaises(f: Flags, cell: Option<Sock>, now: int, core: CorePc, ok: bool)
    ensures var m := CoreMoves(f, cell, now, core, ok);
            && (m.flags.pending ==> f.pending || (core.CoreSchedule? && PastCmd(core.at)))
            && (m.flags.tcpConnected ==> f.tcpConnected)
            && (f.notified ==> m.flags.notified)
  {
    match core
    case CoreSchedule(p) => ScheduleMove(f, now, p);
    case SkipClear(p) => ClearMove(f, p);
    case ApplyClear(p) => ClearMove(f, p);
    case DiscClear(p) => ClearMove(f, p);
    case CoreIdle =>
    case IoLoad =>
    case IoCall =>
    case IoExchange =>
    case IoClose =>
    case IoMark =>
    case SkipEnable =>
    case ApplyCopy(_, _) =>
    case ApplyEnable =>
    case ApplyStation =>
    case ApplyCmd =>
    case DiscCmd =>
    case DiscEnable =>
    case DiscWake =>
  }

  lemma DisconnectClearsPending(f: Flags, cell: Option<Sock>, now: int, core: CorePc, ok: bool)
    requires MidDisconnect(core)
    ensures var m := CoreMoves(f, cell, now, core, ok); MidDisconnect(m.next) || !m.flags.pending
  {
  }

  lemma CoreStaysCalm(f: Flags, cell: Option<Sock>, now: int, core: CorePc, ok: bool, net: NetPc)
    requires Calm(f, core, net)
    ensures var m := CoreMoves(f, cell, now, core, ok); Calm(m.flags, m.next, net)
  {
    CoreCommand(f, cell, now, core, ok);
    CoreRaises(f, cell, now, core, ok);
    if MidDisconnect(core) {
      DisconnectClearsPending(f, cell, now, core, ok);
    }
  }

  lemma EventStaysCalm(f: Flags, core: CorePc, event: EventPc, net: NetPc)
    requires Calm(f, core, net)
    ensures Calm(EventMoves(f, event).flags, core, net)
  {
  }

  /** Only a schedule past its check of the command raises the pending flag, and only a connect the connected flag. */
  lemma NetRaises(f: Flags, now: int, net: NetPc, ok: bool)
    ensures var m := NetMoves(f, now, net, ok);
            && m.flags.cmd == f.cmd
            && (m.flags.pending ==> f.pending || (net.NetSchedule? && PastCmd(net.at)))
            && (m.flags.tcpConnected ==> f.tcpConnected || net.MarkUp?)
  {
    match net
    case NetSchedule(p) => ScheduleMove(f, now, p);
    case DropClear(p) => ClearMove(f, p);
    case UpClear(p) => ClearMove(f, p);
    case WaitForever =>
    case WaitUntil(_) =>
    case DropMark =>
    case OldMark =>
    case MarkUp =>
    case _ =>
  }

  /** An iteration is entered with its pending store still to come, and ends after both stores. */
  lemma NetDrops(f: Flags, now: int, net: NetPc, ok: bool)
    ensures var m := NetMoves(f, now, net, ok);
            && (Dropped(m.next) ==> Dropped(net) || !m.flags.pending)
            && (m.next.DropWifi? ==> net.DropMark? && !m.flags.tcpConnected)
  {
    match net
    case DropClear(p) =>
    case _ =>
  }

  lemma NetStaysCalm(f: Flags, now: int, core: CorePc, net: NetPc, ok: bool)
    requires Calm(f, core, net)
    ensures var m := NetMoves(f, now, net, ok); Calm(m.flags, core, m.next)
  {
    NetRaises(f, now, net, ok);
    NetDrops(f, now, net, ok);
  }

  predicate Orderly(s: Net) { InPlace(s) && Calm(s.flags, s.core, s.net) }

  lemma StepStaysOrderly(s: Net, l: Label)
    requires Orderly(s)
    ensures Orderly(Step(s, l))
  {
    StepStaysInPlace(s, l);
    match l
    case CoreStep(ok) => CoreStaysCalm(s.flags, s.sockets.cell, s.now, s.core, ok, s.net);
    case EventStep => EventStaysCalm(s.flags, s.core, s.event, s.net);
    case NetStep(ok) => NetStaysCalm(s.flags, s.now, s.core, s.net, ok);
    case _ =>
  }

  /** Every reachable state is orderly. */
  lemma {:induction false} RunStaysOrderly(s: Net, labels: seq<Label>)
    requires Orderly(s)
    ensures Orderly(Run(s, labels))
    decreases |labels|
  {
    if labels != [] {
      StepStaysOrderly(s, labels[0]);
      RunStaysOrderly(Step(s, labels[0]), labels[1..]);
    }
  }

  lemma InitIsOrderly(now: int)
    ensures Orderly(Init(now))
  {
  }

  predicate Waits(pc: NetPc) { pc.LoopTop? || pc.LoopDue? || pc.WaitForever? || pc.WaitUntil? || pc.Woken? }

  predicate QuietFlags(f: Flags, core: CorePc, net: NetPc) {
    && OwnsCommand(f, core)
    && f.cmd.DISCONNECT?
    && !f.tcpConnected
    && !f.pending
    && (Waits(net) || Dropping(net))
  }

  /** No socket, not connected, nothing pending, and the network task is nowhere near a connect. */
  predicate Quiet(s: Net) {
    InPlace(s) && s.sockets.cell.None? && QuietFlags(s.flags, s.core, s.net)
  }

  /** The last store of an apply(). */
  predicate CommitsApply(s: Net, l: Label) { l.CoreStep? && s.core.ApplyCmd? }

  predicate NeverCommits(s: Net, labels: seq<Label>)
    decreases |labels|
  {
    labels == [] || (!CommitsApply(s, labels[0]) && NeverCommits(Step(s, labels[0]), labels[1..]))
  }

  lemma CoreStaysQuiet(f: Flags, cell: Option<Sock>, now: int, core: CorePc, ok: bool, net: NetPc)
    requires QuietFlags(f, core, net) && !core.ApplyCmd?
    ensures var m := CoreMoves(f, cell, now, core, ok); QuietFlags(m.flags, m.next, net)
  {
    CoreCommand(f, cell, now, core, ok);
    CoreRaises(f, cell, now, core, ok);
  }

  lemma EventStaysQuiet(f: Flags, core: CorePc, event: EventPc, net: NetPc)
    requires QuietFlags(f, core, net)
    ensures QuietFlags(EventMoves(f, event).flags, core, net)
  {
  }

  lemma NetStaysQuiet(f: Flags, now: int, core: CorePc, net: NetPc, ok: bool)
    requires QuietFlags(f, core, net)
    ensures var m := NetMoves(f, now, net, ok); QuietFlags(m.flags, core, m.next) && !m.op.NetPublishes?
  {
    match net
    case NetSchedule(p) => ScheduleMove(f, now, p);
    case DropClear(p) =>
    case UpClear(p) =>
    case _ =>
  }

  lemma StepStaysQuiet(s: Net, l: Label)
    requires Quiet(s) && !CommitsApply(s, l)
    ensures Quiet(Step(s, l))
  {
    StepStaysInPlace(s, l);
    match l
    case CoreStep(ok) => CoreStaysQuiet(s.flags, s.sockets.cell, s.now, s.core, ok, s.net);
    case EventStep => EventStaysQuiet(s.flags, s.core, s.event, s.net);
    case NetStep(ok) => NetStaysQuiet(s.flags, s.now, s.core, s.net, ok);
    case _ =>
  }

  lemma {:induction false} QuietUntilApply(s: Net, labels: seq<Label>)
    requires Quiet(s) && NeverCommits(s, labels)
    ensures Quiet(Run(s, labels))
    decreases |labels|
  {
    if labels != [] {
      StepStaysQuiet(s, labels[0]);
      QuietUntilApply(Step(s, labels[0]), labels[1..]);
    }
  }

  /**
   * Once disconnect() has made its stores and the network task ends a DISCONNECT iteration, there
   * is no socket, no connection, no pending reconnect and no connect in progress, in every state
   * until an apply() makes its final store.
   */
  lemma ManualDisconnectWins(s: Net, ok: bool, labels: seq<Label>)
    requires Orderly(s) && s.net.DropWifi? && s.flags.cmd.DISCONNECT? && !MidDisconnect(s.core)
    requires NeverCommits(Step(s, NetStep(ok)), labels)
    ensures Quiet(Run(Step(s, NetStep(ok)), labels))
  {
    StepStaysInPlace(s, NetStep(ok));
    QuietUntilApply(Step(s, NetStep(ok)), labels);
  }

  // ---------------------------------------------------------------------------------------------
  // The iteration does take place
  // ---------------------------------------------------------------------------------------------

  /** A bound on the steps the network task still takes until it ends a DISCONNECT iteration. */
  function StepsToDrop(pc: NetPc): nat {
    match pc
    case DropWifi => 1
    case DropMark => 2
    case DropClose => 3
    case DropExchange => 4
    case DropClear(p) => 4 + ClearSteps(p)
    case Woken => 9
    case WaitForever => 10
    case WaitUntil(_) => 10
    case LoopDue(_) => 11
    case LoopTop => 12
    case NetSchedule(p) => 12 + ScheduleSteps(p)
    case UpClear(p) => 12 + ClearSteps(p)
    case MarkUp => 17
    case Publish => 18
    case GiveUp => 23
    case Connect => 24
    case OpenSocket => 25
    case OldMark => 26
    case OldClose => 27
    case OldExchange => 28
    case GateDue(_) => 29
    case GateClock => 30
    case GatePending => 31
    case AskLink => 32
  }

  predicate SettlingFlags(f: Flags, core: CorePc, net: NetPc) {
    && OwnsCommand(f, core)
    && f.cmd.DISCONNECT?
    && (Dropped(net) ==> !f.pending)
    && (net.DropWifi? ==> !f.tcpConnected)
    && (f.notified || net.Woken? || Dropping(net))
  }

  /** disconnect() has returned and the network task has not yet ended a DISCONNECT iteration for it. */
  predicate Settling(s: Net) { InPlace(s) && SettlingFlags(s.flags, s.core, s.net) }

  lemma CoreSettles(f: Flags, cell: Option<Sock>, now: int, core: CorePc, ok: bool, net: NetPc)
    requires SettlingFlags(f, core, net) && !core.ApplyCmd?
    ensures var m := CoreMoves(f, cell, now, core, ok); SettlingFlags(m.flags, m.next, net)
  {
    CoreCommand(f, cell, now, core, ok);
    CoreRaises(f, cell, now, core, ok);
  }

  lemma EventSettles(f: Flags, core: CorePc, event: EventPc, net: NetPc)
    requires SettlingFlags(f, core, net)
    ensures SettlingFlags(EventMoves(f, event).flags, core, net)
  {
  }

  lemma NetSettles(f: Flags, now: int, core: CorePc, net: NetPc, ok: bool)
    requires SettlingFlags(f, core, net)
    ensures var m := NetMoves(f, now, net, ok);
            if net.DropWifi? then QuietFlags(m.flags, core, m.next) else SettlingFlags(m.flags, core, m.next)
  {
    NetRaises(f, now, net, ok);
    NetDrops(f, now, net, ok);
    NetNotified(f, now, net, ok);
  }

  lemma NetNotified(f: Flags, now: int, net: NetPc, ok: bool)
    requires f.cmd.DISCONNECT? && (f.notified || net.Woken? || Dropping(net))
    ensures var m := NetMoves(f, now, net, ok);
            net.DropWifi? || m.flags.notified || m.next.Woken? || Dropping(m.next)
  {
  }

  lemma NetApproachesDrop(f: Flags, now: int, net: NetPc, ok: bool)
    requires f.cmd.DISCONNECT? && (f.notified || net.Woken? || Dropping(net)) && !net.DropWifi?
    ensures StepsToDrop(NetMoves(f, now, net, ok).next) < StepsToDrop(net)
  {
    match net
    case NetSchedule(p) => ScheduleMove(f, now, p);
    case DropClear(p) =>
    case UpClear(p) =>
    case _ =>
  }

  lemma SettlingStep(s: Net, l: Label)
    requires Settling(s) && !CommitsApply(s, l)
    ensures if l.NetStep? && s.net.DropWifi? then Quiet(Step(s, l)) else Settling(Step(s, l))
    ensures !l.NetStep? ==> StepsToDrop(Step(s, l).net) == StepsToDrop(s.net)
    ensures l.NetStep? && !s.net.DropWifi? ==> StepsToDrop(Step(s, l).net) < StepsToDrop(s.net)
  {
    StepStaysInPlace(s, l);
    match l
    case CoreStep(ok) => CoreSettles(s.flags, s.sockets.cell, s.now, s.core, ok, s.net);
    case EventStep => EventSettles(s.flags, s.core, s.event, s.net);
    case NetStep(ok) => {
      NetSettles(s.flags, s.now, s.core, s.net, ok);
      if !s.net.DropWifi? {
        NetApproachesDrop(s.flags, s.now, s.net, ok);
      }
    }
    case _ =>
  }

  function NetSteps(labels: seq<Label>): nat {
    if labels == [] then 0 else (if labels[0].NetStep? then 1 else 0) + NetSteps(labels[1..])
  }

  lemma {:induction false} SettlesWithinSteps(s: Net, labels: seq<Label>)
    requires Settling(s) && NeverCommits(s, labels) && NetSteps(labels) >= StepsToDrop(s.net)
    ensures Quiet(Run(s, labels))
    decreases |labels|
  {
    var l := labels[0];
    SettlingStep(s, l);
    if l.NetStep? && s.net.DropWifi? {
      QuietUntilApply(Step(s, l), labels[1..]);
    } else {
      SettlesWithinSteps(Step(s, l), labels[1..]);
    }
  }

  /**
   * No wake-up is lost: from the notification that ends disconnect(), whatever connect or schedule
   * is in flight and however the threads interleave, once the network task has taken 32 steps the
   * device is quiet, and it stays quiet until an apply() makes its final store.
   */
  lemma DisconnectTakesEffect(s: Net, ok: bool, labels: seq<Label>)
    requires Orderly(s) && s.core.DiscWake?
    requires NeverCommits(Step(s, CoreStep(ok)), labels) && NetSteps(labels) >= 32
    ensures Quiet(Run(Step(s, CoreStep(ok)), labels))
  {
    StepStaysOrderly(s, CoreStep(ok));
    SettlesWithinSteps(Step(s, CoreStep(ok)), labels);
  }
}
