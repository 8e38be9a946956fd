/**
 * The network manager's three threads - the core task, the Wi-Fi event loop and the network task -
 * as one machine over atomic actions: every load, store or exchange of a shared variable is a step,
 * and the threads interleave freely.
 */
module NetworkProtocol {
  import opened Basics

  datatype Cmd = APPLY | DISCONNECT

  /** The shared flags. */
  datatype Flags = Flags(
    tcpConnected: bool,
    wifiConnected: bool,
    reconnectEnabled: bool,
    pending: bool,
    attempts: uint32,
    due: int,
    cmd: Cmd,
    cfgTcp: bool,
    cfgServer: bool,
    notified: bool)

  // ---------------------------------------------------------------------------------------------
  // Sockets
  // ---------------------------------------------------------------------------------------------

  /** Each socket ever opened is a distinct instance 0, 1, 2, ..., whatever descriptor it was given. */
  type Sock = nat

  /** The shared cell, the local variable of each thread, and what has been opened and closed. */
  datatype Sockets = Sockets(
    cell: Option<Sock>,
    core: Option<Sock>,
    event: Option<Sock>,
    net: Option<Sock>,
    openCount: nat,
    closed: multiset<Sock>)

  datatype SocketOp =
    | Leave
    | CoreTakes | CoreCloses
    | EventTakes | EventCloses
    | NetTakes | NetCloses | NetOpens | NetPublishes

  function One(s: Option<Sock>): multiset<Sock> { if s.None? then multiset{} else multiset{s.value} }

  /** A thread takes with exchange(-1), closes what it took, and publishes with a plain store. */
  function Apply(k: Sockets, op: SocketOp): Sockets {
    match op
    case Leave => k
    case CoreTakes => k.(cell := None, core := k.cell)
    case CoreCloses => k.(core := None, closed := k.closed + One(k.core))
    case EventTakes => k.(cell := None, event := k.cell)
    case EventCloses => k.(event := None, closed := k.closed + One(k.event))
    case NetTakes => k.(cell := None, net := k.cell)
    case NetCloses => k.(net := None, closed := k.closed + One(k.net))
    case NetOpens => k.(net := Some(k.openCount), openCount := k.openCount + 1)
    case NetPublishes => k.(cell := k.net, net := None)
  }

  // ---------------------------------------------------------------------------------------------
  // The threads
  // ---------------------------------------------------------------------------------------------

  /** clear_reconnect_policy, up to its next store. */
  datatype ClearPc = ClearPending | ClearAttempts | ClearDue | Cleared

  /** schedule_tcp_reconnect, up to its next action. */
  datatype SchedulePc =
    | AskEnabled | AskTcp | AskWifi | AskCmd
    | CountAttempt | ReadClock(idx: uint32) | StoreDue(due: int) | StorePending | Wake | Scheduled

  /** The core task: idle, in tcp_read or tcp_write, in apply, or in disconnect. */
  datatype CorePc =
    | CoreIdle
    | IoLoad | IoCall | IoExchange | IoClose | IoMark | CoreSchedule(at: SchedulePc)
    | SkipEnable | SkipClear(clear: ClearPc)
    | ApplyCopy(tcp: bool, server: bool) | ApplyEnable | ApplyClear(clear: ClearPc) | ApplyStation | ApplyCmd
    | DiscCmd | DiscEnable | DiscClear(clear: ClearPc) | DiscWake

  /** The event loop: a lost association, or an address obtained. */
  datatype EventPc = EventIdle | LostWifi | LostTcp | LostPending | LostExchange | LostClose | GotWifi | GotWake

  /** The network task: waiting, in a DISCONNECT iteration, or in a connection attempt. */
  datatype NetPc =
    | LoopTop | LoopDue(clock: int) | WaitForever | WaitUntil(time: int) | Woken
    | DropClear(clear: ClearPc) | DropExchange | DropClose | DropMark | DropWifi
    | AskLink | GatePending | GateClock | GateDue(clock: int)
    | OldExchange | OldClose | OldMark | OpenSocket | Connect | GiveUp | Publish | MarkUp | UpClear(clear: ClearPc)
    | NetSchedule(at: SchedulePc)

  /** The history counts consecutive failed attempts and remembers when the last one failed. */
  datatype Net = Net(
    flags: Flags,
    sockets: Sockets,
    core: CorePc,
    event: EventPc,
    net: NetPc,
    now: int,
    failures: nat,
    lastFailure: int)

  function Init(now: int): Net {
    Net(Flags(false, false, false, false, 0, 0, DISCONNECT, false, false, false),
        Sockets(None, None, None, None, 0, multiset{}),
        CoreIdle, EventIdle, LoopTop, now, 0, now)
  }

  function Pow2(n: nat): (p: nat)
    ensures p >= 1
  {
    if n == 0 then 1 else 2 * Pow2(n - 1)
  }

  /** The base delay shifted by at most eight places, then capped. */
  function ReconnectDelayMs(attempt: nat): nat {
    Min(500 * Pow2(Min(attempt, 8)), 8000)
  }

  /** The end of the wait for a deadline, in ticks of one millisecond; a deadline in the past is no wait. */
  function WaitEnd(now: int, due: int): int {
    if due <= now then now else now + Max(1, Wrap32((due - now + 999) / 1000)) * 1000
  }

  function ClearFlag(f: Flags, p: ClearPc): Flags {
    match p
    case ClearPending => f.(pending := false)
    case ClearAttempts => f.(attempts := 0)
    case ClearDue => f.(due := 0)
    case Cleared => f
  }

  function ClearNext(p: ClearPc): ClearPc {
    match p
    case ClearPending => ClearAttempts
    case ClearAttempts => ClearDue
    case _ => Cleared
  }

  function ScheduleFlag(f: Flags, p: SchedulePc): Flags {
    match p
    case CountAttempt => f.(attempts := Wrap32(f.attempts + 1))
    case StoreDue(due) => f.(due := due)
    case StorePending => f.(pending := true)
    case Wake => f.(notified := true)
    case _ => f
  }

  function ScheduleNext(f: Flags, now: int, p: SchedulePc): SchedulePc {
    match p
    case AskEnabled => if f.reconnectEnabled then AskTcp else Scheduled
    case AskTcp => if f.cfgTcp then AskWifi else Scheduled
    case AskWifi => if f.wifiConnected then AskCmd else Scheduled
    case AskCmd => if f.cmd.APPLY? then CountAttempt else Scheduled
    case CountAttempt => ReadClock(f.attempts)
    case ReadClock(idx) => StoreDue(now + ReconnectDelayMs(idx) * 1000)
    case StoreDue(_) => StorePending
    case StorePending => Wake
    case _ => Scheduled
  }

  datatype CoreMove = CoreMove(flags: Flags, op: SocketOp, next: CorePc)

  function CoreMoves(f: Flags, cell: Option<Sock>, now: int, pc: CorePc, ok: bool): CoreMove {
    match pc
    case CoreIdle => CoreMove(f, Leave, CoreIdle)
    case IoLoad => CoreMove(f, Leave, if cell.Some? then IoCall else CoreIdle)
    case IoCall => CoreMove(f, Leave, if ok then CoreIdle else IoExchange)
    case IoExchange => CoreMove(f, CoreTakes, IoClose)
    case IoClose => CoreMove(f, CoreCloses, IoMark)
    case IoMark => CoreMove(f.(tcpConnected := false), Leave, CoreSchedule(AskEnabled))
    case CoreSchedule(p) =>
      CoreMove(ScheduleFlag(f, p), Leave, if p.Scheduled? then CoreIdle else CoreSchedule(ScheduleNext(f, now, p)))
    case SkipEnable => CoreMove(f.(reconnectEnabled := false), Leave, SkipClear(ClearPending))
    case SkipClear(p) => CoreMove(ClearFlag(f, p), Leave, if p.Cleared? then CoreIdle else SkipClear(ClearNext(p)))
    case ApplyCopy(tcp, server) => CoreMove(f.(cfgTcp := tcp, cfgServer := server), Leave, ApplyEnable)
    case ApplyEnable => CoreMove(f.(reconnectEnabled := true), Leave, ApplyClear(ClearPending))
    case ApplyClear(p) =>
      CoreMove(ClearFlag(f, p), Leave, if p.Cleared? then ApplyStation else ApplyClear(ClearNext(p)))
    case ApplyStation => CoreMove(f, Leave, if ok then ApplyCmd else CoreIdle)
    case ApplyCmd => CoreMove(f.(cmd := APPLY), Leave, CoreIdle)
    case DiscCmd => CoreMove(f.(cmd := DISCONNECT), Leave, DiscEnable)
    case DiscEnable => CoreMove(f.(reconnectEnabled := false), Leave, DiscClear(ClearPending))
    case DiscClear(p) => CoreMove(ClearFlag(f, p), Leave, if p.Cleared? then DiscWake else DiscClear(ClearNext(p)))
    case DiscWake => CoreMove(f.(notified := true), Leave, CoreIdle)
  }

  datatype EventMove = EventMove(flags: Flags, op: SocketOp, next: EventPc)

  function EventMoves(f: Flags, pc: EventPc): EventMove {
    match pc
    case EventIdle => EventMove(f, Leave, EventIdle)
    case LostWifi => EventMove(f.(wifiConnected := false), Leave, LostTcp)
    case LostTcp => EventMove(f.(tcpConnected := false), Leave, LostPending)
    case LostPending => EventMove(f.(pending := false), Leave, LostExchange)
    case LostExchange => EventMove(f, EventTakes, LostClose)
    case LostClose => EventMove(f, EventCloses, EventIdle)
    case GotWifi => EventMove(f.(wifiConnected := true), Leave, GotWake)
    case GotWake => EventMove(f.(notified := true), Leave, EventIdle)
  }

  datatype NetMove = NetMove(flags: Flags, op: SocketOp, next: NetPc)

  function NetMoves(f: Flags, now: int, pc: NetPc, ok: bool): NetMove {
    match pc
    case LoopTop => NetMove(f, Leave, if f.pending then LoopDue(now) else WaitForever)
    case LoopDue(clock) => NetMove(f, Leave, WaitUntil(WaitEnd(clock, f.due)))
    case WaitForever =>
      if f.notified then NetMove(f.(notified := false), Leave, Woken) else NetMove(f, Leave, WaitForever)
    case WaitUntil(time) =>
      if f.notified then NetMove(f.(notified := false), Leave, Woken)
      else NetMove(f, Leave, if time <= now then Woken else WaitUntil(time))
    case Woken => NetMove(f, Leave, if f.cmd.DISCONNECT? then DropClear(ClearPending) else AskLink)
    case DropClear(p) => NetMove(ClearFlag(f, p), Leave, if p.Cleared? then DropExchange else DropClear(ClearNext(p)))
    case DropExchange => NetMove(f, NetTakes, DropClose)
    case DropClose => NetMove(f, NetCloses, DropMark)
    case DropMark => NetMove(f.(tcpConnected := false), Leave, DropWifi)
    case DropWifi => NetMove(f, Leave, LoopTop)
    case AskLink => NetMove(f, Leave, if f.wifiConnected && f.cfgServer && f.cfgTcp then GatePending else LoopTop)
    case GatePending => NetMove(f, Leave, if f.pending then GateClock else OldExchange)
    case GateClock => NetMove(f, Leave, GateDue(now))
    case GateDue(clock) => NetMove(f, Leave, if clock < f.due then LoopTop else OldExchange)
    case OldExchange => NetMove(f, NetTakes, OldClose)
    case OldClose => NetMove(f, NetCloses, OldMark)
    case OldMark => NetMove(f.(tcpConnected := false), Leave, OpenSocket)
    case OpenSocket => if ok then NetMove(f, NetOpens, Connect) else NetMove(f, Leave, NetSchedule(AskEnabled))
    case Connect => NetMove(f, Leave, if ok then Publish else GiveUp)
    case GiveUp => NetMove(f, NetCloses, NetSchedule(AskEnabled))
    case Publish => NetMove(f, NetPublishes, MarkUp)
    case MarkUp => NetMove(f.(tcpConnected := true), Leave, UpClear(ClearPending))
    case UpClear(p) => NetMove(ClearFlag(f, p), Leave, if p.Cleared? then LoopTop else UpClear(ClearNext(p)))
    case NetSchedule(p) =>
      NetMove(ScheduleFlag(f, p), Leave, if p.Scheduled? then LoopTop else NetSchedule(ScheduleNext(f, now, p)))
  }

  /** The scheduler's choices: which thread moves, what the environment answers, how time passes. */
  datatype Label =
    | Elapse(us: nat)
    | StartIo
    | StartApply(wifi: bool, tcp: bool, server: bool)
    | StartDisconnect
    | CoreStep(ok: bool)
    | WifiLost
    | GotIp
    | EventStep
    | NetStep(ok: bool)

  function StepCore(s: Net, ok: bool): Net {
    var m := CoreMoves(s.flags, s.sockets.cell, s.now, s.core, ok);
    s.(flags := m.flags, sockets := Apply(s.sockets, m.op), core := m.next)
  }

  function StepEvent(s: Net): Net {
    var m := EventMoves(s.flags, s.event);
    s.(flags := m.flags, sockets := Apply(s.sockets, m.op), event := m.next)
  }

  predicate Fails(pc: NetPc, ok: bool) { pc.GiveUp? || (pc.OpenSocket? && !ok) }

  function StepNet(s: Net, ok: bool): Net {
    var m := NetMoves(s.flags, s.now, s.net, ok);
    s.(flags := m.flags, sockets := Apply(s.sockets, m.op), net := m.next,
       failures := if Fails(s.net, ok) then s.failures + 1 else if s.net.MarkUp? then 0 else s.failures,
       lastFailure := if Fails(s.net, ok) then s.now else s.lastFailure)
  }

  function Step(s: Net, l: Label): Net {
    match l
    case Elapse(us) => s.(now := s.now + us)
    case StartIo => if s.core.CoreIdle? then s.(core := IoLoad) else s
    case StartApply(wifi, tcp, server) =>
      if s.core.CoreIdle? then s.(core := if wifi then ApplyCopy(tcp, server) else SkipEnable) else s
    case StartDisconnect => if s.core.CoreIdle? then s.(core := DiscCmd) else s
    case CoreStep(ok) => StepCore(s, ok)
    case WifiLost => if s.event.EventIdle? then s.(event := LostWifi) else s
    case GotIp => if s.event.EventIdle? then s.(event := GotWifi) else s
    case EventStep => StepEvent(s)
    case NetStep(ok) => StepNet(s, ok)
  }

  function Run(s: Net, labels: seq<Label>): Net
    decreases |labels|
  {
    if labels == [] then s else Run(Step(s, labels[0]), labels[1..])
  }

  // ---------------------------------------------------------------------------------------------
  // Socket conservation
  // ---------------------------------------------------------------------------------------------

  function Is(held: Option<Sock>, i: Sock): nat { if held == Some(i) then 1 else 0 }

  /** In how many places socket i is held, plus how often it was closed. */
  function Places(k: Sockets, i: Sock): nat {
    Is(k.cell, i) + Is(k.core, i) + Is(k.event, i) + Is(k.net, i) + k.closed[i]
  }

  /** Every socket ever opened is in exactly one place, or was closed exactly once and is in none. */
  ghost predicate Conserved(k: Sockets) {
    forall i: Sock :: Places(k, i) == if i < k.openCount then 1 else 0
  }

  /** No operation overwrites a socket. */
  predicate Harmless(k: Sockets, op: SocketOp) {
    match op
    case CoreTakes => k.core.None?
    case EventTakes => k.event.None?
    case NetTakes => k.net.None?
    case NetOpens => k.net.None?
    case NetPublishes => k.cell.None?
    case _ => true
  }

  lemma HarmlessConserves(k: Sockets, op: SocketOp)
    requires Conserved(k) && Harmless(k, op)
    ensures Conserved(Apply(k, op))
  {
    forall i: Sock
      ensures Places(Apply(k, op), i) == if i < Apply(k, op).openCount then 1 else 0
    {
      assert Places(k, i) == if i < k.openCount then 1 else 0;
    }
  }

  predicate NetMayHold(pc: NetPc) { pc.DropClose? || pc.OldClose? || pc.Connect? || pc.GiveUp? || pc.Publish? }

  /** From the exchange of the old socket until the new one is published the shared cell stays empty. */
  predicate NetCleared(pc: NetPc) {
    || pc.DropClose? || pc.DropMark? || pc.DropWifi?
    || pc.OldClose? || pc.OldMark? || pc.OpenSocket? || pc.Connect? || pc.GiveUp? || pc.Publish? || pc.NetSchedule?
  }

  /** Locals hold sockets only where the code has put one. */
  predicate InPlace(s: Net) {
    && (s.sockets.core.Some? ==> s.core.IoClose?)
    && (s.sockets.event.Some? ==> s.event.LostClose?)
    && (s.sockets.net.Some? ==> NetMayHold(s.net))
    && (NetCleared(s.net) ==> s.sockets.cell.None?)
  }

  function OpOf(s: Net, l: Label): SocketOp {
    match l
    case CoreStep(ok) => CoreMoves(s.flags, s.sockets.cell, s.now, s.core, ok).op
    case EventStep => EventMoves(s.flags, s.event).op
    case NetStep(ok) => NetMoves(s.flags, s.now, s.net, ok).op
    case _ => Leave
  }

  lemma CoreStaysInPlace(s: Net, ok: bool)
    requires InPlace(s)
    ensures Harmless(s.sockets, OpOf(s, CoreStep(ok))) && InPlace(StepCore(s, ok))
  {
  }

  lemma EventStaysInPlace(s: Net)
    requires InPlace(s)
    ensures Harmless(s.sockets, OpOf(s, EventStep)) && InPlace(StepEvent(s))
  {
  }

  lemma NetStaysInPlace(s: Net, ok: bool)
    requires InPlace(s)
    ensures Harmless(s.sockets, OpOf(s, NetStep(ok))) && InPlace(StepNet(s, ok))
  {
  }

  lemma StepStaysInPlace(s: Net, l: Label)
    requires InPlace(s)
    ensures Harmless(s.sockets, OpOf(s, l))
    ensures Step(s, l).sockets == Apply(s.sockets, OpOf(s, l))
    ensures InPlace(Step(s, l))
  {
    match l
    case CoreStep(ok) => CoreStaysInPlace(s, ok);
    case EventStep => EventStaysInPlace(s);
    case NetStep(ok) => NetStaysInPlace(s, ok);
    case _ =>
  }

  /**
   * Over every interleaving no socket leaks, none is closed twice and none is held twice, and the
   * store that publishes a socket never overwrites a live one.
   */
  lemma {:induction false} SocketsAreConserved(s: Net, labels: seq<Label>)
    requires InPlace(s) && Conserved(s.sockets)
    ensures var end := Run(s, labels);
            InPlace(end) && Conserved(end.sockets) && (end.net.Publish? ==> end.sockets.cell.None?)
    decreases |labels|
  {
    if labels != [] {
      StepStaysInPlace(s, labels[0]);
      HarmlessConserves(s.sockets, OpOf(s, labels[0]));
      SocketsAreConserved(Step(s, labels[0]), labels[1..]);
    }
  }

  lemma InitIsInPlace(now: int)
    ensures InPlace(Init(now)) && Conserved(Init(now).sockets)
  {
  }
}
