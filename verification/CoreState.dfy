/** The whole core as one value: what a pass of the main loop and a command do to it, and what it sends. */
module CoreState {
  import opened Basics
  import opened HarpMessage
  import opened CoreRegisters
  import opened Framing
  import opened Commands
  import Scheduler
  import WrappedDeadline
  import NetworkSettings
  import Replies

  datatype Core = Core(
    sched: Scheduler.Sched,
    net: NetworkSettings.Settings,
    netStatus: bv8,
    deviceName: seq<byte>,
    timestampOffset: byte,
    heartbeat: uint16)

  /** The registers the constructor fixes, by address. */
  type FixedRegisters = map<byte, seq<byte>>

  ghost predicate FixedOk(fixed: FixedRegisters) {
    forall a: byte :: Fixed(a) ==> a in fixed && |fixed[a]| == NumBytes(a)
  }

  /** The memory image of a register whose timestamp registers were last refreshed at harpTime. */
  ghost function Image(fixed: FixedRegisters, c: Core, harpTime: uint64, address: byte): seq<byte>
    requires FixedOk(fixed) && Mapped(address)
  {
    if Fixed(address) then fixed[address]
    else
      match address
      case TIMESTAMP_SECOND => Le32(Replies.Seconds(harpTime))
      case TIMESTAMP_MICRO => Le16(Replies.Micros(harpTime))
      case OPERATION_CTRL => [c.sched.opCtrl as byte]
      case DEVICE_NAME => c.deviceName
      case CLOCK_CONFIG => [c.sched.clockConfig as byte]
      case TIMESTAMP_OFFSET => [c.timestampOffset]
      case HEARTBEAT => Le16(c.heartbeat)
      case NET_SSID => c.net.ssid
      case NET_PASSWORD => c.net.password
      case NET_SERVER_IP => c.net.serverIp
      case NET_SERVER_PORT => c.net.port
      case _ => [(c.net.enable | c.netStatus) as byte]
  }

  // ---------------------------------------------------------------------------------------------
  // What a pass does to the state
  // ---------------------------------------------------------------------------------------------

  function HeartbeatOf(s: Scheduler.Sched): uint16 {
    (if Scheduler.Mode(s.opCtrl) == Scheduler.ACTIVE then 1 else 0) + if Scheduler.Synced(s) then 2 else 0
  }

  function StatusOf(net: NetworkSettings.Settings, wifi: bool, tcp: bool): bv8
    requires net.ssid != [] && net.serverIp != []
  {
    (if net.ssid[0] != 0 && net.serverIp[0] != 0 then NetworkSettings.STATUS_CFG_VALID else 0)
    | (if wifi then NetworkSettings.STATUS_WIFI_UP | NetworkSettings.STATUS_IP_OK else 0)
    | if tcp then NetworkSettings.STATUS_TCP_CONN else 0
  }

  /** update_state, called with or without a forced mode. */
  function Updated(c: Core, forced: Option<bv8>, t: int, host: bool): Core {
    var entered := WrappedDeadline.Entered(c.sched, forced, t, host);
    c.(sched := WrappedDeadline.Check(entered, t).s,
       heartbeat := if WrappedDeadline.Refreshes(entered, t) then HeartbeatOf(entered) else c.heartbeat)
  }

  /**
   * What the environment supplies to one pass: clock readings, connection samples and the outcome
   * of flash operations.
   */
  datatype Pass = Pass(tick: TickInput, command: CommandInput)

  datatype TickInput = TickInput(t: int, host: bool, wifi: bool, tcp: bool)

  datatype CommandInput = CommandInput(t1: int, t2: int, t3: int, t4: int, host: bool, saved: bool, erased: bool)

  /** The clock readings of a command, in order, lie between two others. */
  predicate Within(i: CommandInput, from: int, to: int) { from <= i.t1 <= i.t2 <= i.t3 <= i.t4 <= to }

  predicate Sized(c: Core) {
    |c.net.ssid| == SSID_LENGTH && |c.net.serverIp| == SERVER_IP_LENGTH && |c.net.port| == 2 && |c.deviceName| == 25
  }

  /** The part of a pass before the transports are polled. */
  function Ticked(c: Core, i: TickInput): Core
    requires Sized(c)
  {
    var updated := Updated(c, None, i.t, i.host);
    updated.(heartbeat := HeartbeatOf(updated.sched), netStatus := StatusOf(c.net, i.wifi, i.tcp))
  }

  /** The core as its constructor leaves it, having read the clock at t. */
  function BootCore(name: seq<byte>, stored: Option<NetworkSettings.Cfg>, t: int, loaded: bool, saved: bool): Core
    requires |name| < 25
  {
    Core(Scheduler.Boot(t), NetworkSettings.Booted(stored, loaded, saved), 0,
         name + NetworkSettings.Zeros(25 - |name|), 0, 0)
  }

  function OpCtrlWritten(c: Core, value: bv8, t: int, host: bool): Core {
    var forced := if Scheduler.Forces(c.sched, value) then Updated(c, Some(Scheduler.Mode(value)), t, host) else c;
    forced.(sched := forced.sched.(opCtrl := value & !Scheduler.DUMP))
  }

  function NetConfigWritten(c: Core, value: bv8, saved: bool, erased: bool): Core
    requires Sized(c)
  {
    c.(net := NetworkSettings.Configured(c.net, value, saved, erased),
       netStatus := if Has(value, NetworkSettings.CLEAR) then 0 else c.netStatus & NetworkSettings.STATUS)
  }

  function ResetWritten(c: Core, value: bv8): Core
    requires Sized(c)
  {
    c.(sched := Scheduler.Step(c.sched, Scheduler.WriteResetDev(value)).s,
       deviceName := if Has(value, Scheduler.NAME_TO_DEFAULT) then [0] + c.deviceName[1..] else c.deviceName)
  }

  function TimestampWritten(c: Core, seconds: uint32, i: CommandInput): Core {
    c.(sched := Scheduler.Step(c.sched, Scheduler.WriteTimestamp(i.t1, i.t2, i.t3, i.t4, seconds)).s)
  }

  /** An accepted write of one register. */
  function Written(c: Core, address: byte, payload: seq<byte>, i: CommandInput): Core
    requires Sized(c) && Mapped(address) && |payload| == NumBytes(address)
  {
    match address
    case TIMESTAMP_SECOND => TimestampWritten(c, FromLe32(payload), i)
    case OPERATION_CTRL => OpCtrlWritten(c, payload[0] as bv8, i.t1, i.host)
    case RESET_DEV => ResetWritten(c, payload[0] as bv8)
    case CLOCK_CONFIG => c.(sched := Scheduler.Step(c.sched, Scheduler.WriteClockConfig(payload[0] as bv8)).s)
    case TIMESTAMP_OFFSET => c.(timestampOffset := 0)
    case NET_SSID => c.(net := NetworkSettings.Change1(c.net, NetworkSettings.SetSsid(payload)))
    case NET_PASSWORD => c.(net := NetworkSettings.Change1(c.net, NetworkSettings.SetPassword(payload)))
    case NET_SERVER_IP => c.(net := NetworkSettings.Change1(c.net, NetworkSettings.SetServerIp(payload)))
    case NET_SERVER_PORT => c.(net := NetworkSettings.Change1(c.net, NetworkSettings.SetPort(payload)))
    case NET_CONFIG => NetConfigWritten(c, payload[0] as bv8, i.saved, i.erased)
    case _ => c
  }

  /** One dispatched message. */
  function Executed(c: Core, frame: seq<byte>, i: CommandInput): Core
    requires Dispatchable(frame) && Sized(c)
  {
    if Accepted(frame, Scheduler.Unlocked(c.sched)) then Written(c, frame[2], Payload(frame), i) else c
  }

  /** The rest of a pass, given the message that its poll of the transports delivers, if any. */
  function Served(c: Core, received: seq<Received>, i: CommandInput): Core
    requires Sized(c) && forall r <- received :: Dispatchable(r.delivery.frame)
  {
    if received == [] then c else Executed(c, received[0].delivery.frame, i)
  }

  function Passed(c: Core, received: seq<Received>, p: Pass): Core
    requires Sized(c) && forall r <- received :: Dispatchable(r.delivery.frame)
  {
    Served(Ticked(c, p.tick), received, p.command)
  }

  /** The periodic event that a forced mode change may bring out. */
  function WriteEvent(c: Core, address: byte, payload: seq<byte>, i: CommandInput): Option<byte>
    requires Mapped(address) && |payload| == NumBytes(address)
  {
    if address == OPERATION_CTRL
    then WrappedDeadline.FirmwareStep(c.sched, Scheduler.WriteOpCtrl(i.t1, i.host, payload[0] as bv8)).event
    else None
  }

  function CommandEvent(c: Core, frame: seq<byte>, i: CommandInput): Option<byte>
    requires Dispatchable(frame)
  {
    if frame[0] == WRITE && WellTyped(frame) then WriteEvent(c, frame[2], Payload(frame), i) else None
  }

  /** The command asks for a restart of the chip. */
  predicate Restarts(address: byte, payload: seq<byte>)
    requires Mapped(address) && |payload| == NumBytes(address)
  {
    address == RESET_DEV && !ResetRejected(payload[0] as bv8) && Has(payload[0] as bv8, Scheduler.RST_DFU)
  }

  // ---------------------------------------------------------------------------------------------
  // What is sent
  // ---------------------------------------------------------------------------------------------

  /** A frame that was sent, the transport it was for (NoSource: both), and the timer reading behind its time. */
  datatype Sent = Sent(kind: byte, address: byte, payloadType: byte, payload: seq<byte>, harpTime: uint64, to: Source,
                       at: int)

  function HeadOf(e: Sent): Head { Head(e.kind, e.address, e.to) }

  /** A read handler may answer with something other than the register. */
  predicate Masked(kind: byte, address: byte) { kind == READ && (address == NET_PASSWORD || address == RESET_DEV) }

  function MaskOf(address: byte): seq<byte> {
    if address == NET_PASSWORD then NetworkSettings.Zeros(PASSWORD_LENGTH) else [Scheduler.BOOT_DEF as byte]
  }

  /** The frame carries the type and the value of its register and the Harp time at which it was sent. */
  ghost predicate Tells(e: Sent, fixed: FixedRegisters, c: Core, reading: bool)
    requires FixedOk(fixed)
  {
    && e.payloadType == RegType(SpecAddress(e.address))
    && e.harpTime == Scheduler.HarpTime(c.sched, e.at)
    && e.payload == if reading && Masked(e.kind, e.address) then MaskOf(e.address)
                    else Image(fixed, c, e.harpTime, SpecAddress(e.address))
  }

  ghost predicate Answered(sent: seq<Sent>, heads: seq<Head>, fixed: FixedRegisters, c: Core, reading: bool)
    requires FixedOk(fixed)
  {
    && |sent| == |heads|
    && forall k :: 0 <= k < |sent| ==> HeadOf(sent[k]) == heads[k] && Tells(sent[k], fixed, c, reading)
  }

  /** The frames were stamped between two timer readings. */
  predicate Timed(sent: seq<Sent>, from: int, to: int) {
    forall e <- sent :: from <= e.at <= to
  }

  lemma TimedAppend(a: seq<Sent>, b: seq<Sent>, from: int, between: int, to: int)
    requires Timed(a, from, between) && Timed(b, between, to) && from <= between <= to
    ensures Timed(a + b, from, to)
  {
  }

  /** The periodic events among the frames of a call. */
  ghost predicate Announced(sent: seq<Sent>, event: Option<byte>, fixed: FixedRegisters, c: Core)
    requires FixedOk(fixed)
  {
    Answered(sent, if event.Some? then [Head(EVENT, event.value, NoSource)] else [], fixed, c, false)
  }

  lemma AnsweredAppend(a: seq<Sent>, b: seq<Sent>, ha: seq<Head>, hb: seq<Head>, fixed: FixedRegisters, c: Core,
                       reading: bool)
    requires FixedOk(fixed) && Answered(a, ha, fixed, c, reading) && Answered(b, hb, fixed, c, reading)
    ensures Answered(a + b, ha + hb, fixed, c, reading)
  {
  }

  lemma NothingIsAnswered(fixed: FixedRegisters, c: Core)
    requires FixedOk(fixed)
    ensures Answered([], [], fixed, c, false)
  {
  }

  /** Frames about registers that did not change keep telling the truth. */
  lemma StillTells(sent: seq<Sent>, heads: seq<Head>, fixed: FixedRegisters, c: Core, after: Core, reading: bool)
    requires FixedOk(fixed) && Answered(sent, heads, fixed, c, reading)
    requires Scheduler.SameClock(c.sched, after.sched) && c.heartbeat == after.heartbeat
    requires forall h <- heads ::
               Fixed(SpecAddress(h.address)) || h.address == HEARTBEAT || h.address == TIMESTAMP_SECOND
    ensures Answered(sent, heads, fixed, after, reading)
  {
    forall k | 0 <= k < |sent|
      ensures Tells(sent[k], fixed, after, reading)
    {
      assert heads[k] in heads;
    }
  }

  /** A write of one register, accepted or refused: the new state, the event and the replies. */
  ghost predicate Handled(c: Core, after: Core, address: byte, payload: seq<byte>, i: CommandInput,
                          events: seq<Sent>, sent: seq<Sent>, to: Source, fixed: FixedRegisters)
    requires FixedOk(fixed) && Sized(c) && Mapped(address) && |payload| == NumBytes(address)
  {
    var unlocked := Scheduler.Unlocked(c.sched);
    && after == (if Accepts(address, payload, unlocked) then Written(c, address, payload, i) else c)
    && Announced(events, WriteEvent(c, address, payload, i), fixed, after)
    && Answered(sent, WriteAnswers(address, payload, to, Scheduler.Muted(c.sched), unlocked), fixed, after, false)
  }

  lemma AcknowledgedIsHandled(c: Core, after: Core, address: byte, payload: seq<byte>, i: CommandInput,
                              sent: seq<Sent>, to: Source, fixed: FixedRegisters)
    requires FixedOk(fixed) && Sized(c) && Mapped(address) && |payload| == NumBytes(address)
    requires address != OPERATION_CTRL && Accepts(address, payload, Scheduler.Unlocked(c.sched))
    requires after == Written(c, address, payload, i)
    requires Answered(sent, if Scheduler.Muted(c.sched) then [] else [Head(WRITE, address, to)], fixed, after, false)
    ensures Handled(c, after, address, payload, i, [], sent, to, fixed)
  {
  }

  lemma RefusedIsHandled(c: Core, address: byte, payload: seq<byte>, i: CommandInput, sent: seq<Sent>, to: Source,
                         fixed: FixedRegisters)
    requires FixedOk(fixed) && Sized(c) && Mapped(address) && |payload| == NumBytes(address)
    requires address != OPERATION_CTRL && !Accepts(address, payload, Scheduler.Unlocked(c.sched))
    requires Answered(sent, if Scheduler.Muted(c.sched) then [] else [Head(WRITE_ERROR, address, to)], fixed, c, false)
    ensures Handled(c, c, address, payload, i, [], sent, to, fixed)
  {
  }

  lemma OpCtrlIsHandled(c: Core, after: Core, payload: seq<byte>, i: CommandInput,
                        events: seq<Sent>, sent: seq<Sent>, to: Source, fixed: FixedRegisters)
    requires FixedOk(fixed) && Sized(c) && |payload| == 1
    requires var value := payload[0] as bv8;
             && after == (if Scheduler.Mode(value) == Scheduler.SPEED then c else OpCtrlWritten(c, value, i.t1, i.host))
             && Announced(events, WriteEvent(c, OPERATION_CTRL, payload, i), fixed, after)
             && Answered(sent, if Scheduler.Mode(value) != Scheduler.SPEED then OpCtrlAnswers(value, to)
                               else if Scheduler.Muted(c.sched) then [] else [Head(WRITE_ERROR, OPERATION_CTRL, to)],
                         fixed, after, false)
    ensures Handled(c, after, OPERATION_CTRL, payload, i, events, sent, to, fixed)
  {
  }

  /** A dispatched message: the new state, the event and the replies. */
  ghost predicate Obeyed(c: Core, after: Core, frame: seq<byte>, i: CommandInput,
                         events: seq<Sent>, sent: seq<Sent>, to: Source, fixed: FixedRegisters)
    requires FixedOk(fixed) && Sized(c) && Dispatchable(frame)
  {
    && after == Executed(c, frame, i)
    && Announced(events, CommandEvent(c, frame, i), fixed, after)
    && Answered(sent, Answers(frame, to, Scheduler.Muted(c.sched), Scheduler.Unlocked(c.sched)), fixed, after,
                frame[0] == READ)
  }

  lemma WriteIsObeyed(c: Core, after: Core, frame: seq<byte>, i: CommandInput,
                      events: seq<Sent>, sent: seq<Sent>, to: Source, fixed: FixedRegisters)
    requires FixedOk(fixed) && Sized(c) && Dispatchable(frame)
    requires frame[0] == WRITE && WellTyped(frame)
    requires Handled(c, after, frame[2], Payload(frame), i, events, sent, to, fixed)
    ensures Obeyed(c, after, frame, i, events, sent, to, fixed)
  {
    hide Answered;
    hide Written;
  }

  lemma OtherIsObeyed(c: Core, frame: seq<byte>, i: CommandInput, sent: seq<Sent>, to: Source, fixed: FixedRegisters)
    requires FixedOk(fixed) && Sized(c) && Dispatchable(frame)
    requires frame[0] != WRITE || !WellTyped(frame)
    requires var kind := if frame[0] == READ && WellTyped(frame) then READ else ErrorOf(frame[0]);
             Answered(sent, if Scheduler.Muted(c.sched) || (frame[0] != READ && frame[0] != WRITE) then []
                            else [Head(kind, frame[2], to)],
                      fixed, c, frame[0] == READ)
    ensures Obeyed(c, c, frame, i, [], sent, to, fixed)
  {
  }

  /** At most one message is handled, after the tick. */
  ghost predicate Answering(c: Core, after: Core, received: seq<Received>, i: CommandInput,
                            events: seq<Sent>, sent: seq<Sent>, fixed: FixedRegisters)
    requires FixedOk(fixed) && Sized(c) && forall r <- received :: Dispatchable(r.delivery.frame)
  {
    if received == [] then after == c && events == [] && sent == []
    else Obeyed(c, after, received[0].delivery.frame, i, events, sent, received[0].source, fixed)
  }

  ghost predicate Ticking(c: Core, after: Core, i: TickInput, ticked: seq<Sent>, fixed: FixedRegisters)
    requires FixedOk(fixed) && Sized(c)
  {
    && after == Ticked(c, i)
    && Announced(ticked, WrappedDeadline.FirmwareStep(c.sched, Scheduler.Tick(i.t, i.host)).event, fixed, after)
  }

  /** The pass ends with a restart of the chip. */
  predicate EndsInRestart(received: seq<Received>)
    requires forall r <- received :: Dispatchable(r.delivery.frame)
  {
    received != [] && CommandRestarts(received[0].delivery.frame)
  }

  predicate CommandRestarts(frame: seq<byte>)
    requires Dispatchable(frame)
  {
    frame[0] == WRITE && WellTyped(frame) && Restarts(frame[2], Payload(frame))
  }

  predicate Routed(e: Sent, transport: Source) { e.to == NoSource || e.to == transport }

  function FrameOf(e: Sent): seq<byte> { Replies.ReplyFrame(e.kind, e.address, e.payloadType, e.payload, e.harpTime) }

  /** The bytes handed to one transport. */
  function Wire(log: seq<Sent>, transport: Source): seq<byte> {
    if log == [] then []
    else (if Routed(log[0], transport) then FrameOf(log[0]) else []) + Wire(log[1..], transport)
  }

  lemma {:induction false} WireAppend(log: seq<Sent>, e: Sent, transport: Source)
    ensures Wire(log + [e], transport) == Wire(log, transport) + if Routed(e, transport) then FrameOf(e) else []
  {
    var tail := if Routed(e, transport) then FrameOf(e) else [];
    if log == [] {
      assert [e][1..] == [];
      assert tail + Wire([], transport) == tail;
    } else {
      WireAppend(log[1..], e, transport);
      assert (log + [e])[1..] == log[1..] + [e];
      Associative(if Routed(log[0], transport) then FrameOf(log[0]) else [], Wire(log[1..], transport), tail);
    }
  }

  /** A frame about a timestamp register carries in its payload the very time in its own timestamp field. */
  lemma TimestampRegistersMatchTheFrame(e: Sent, fixed: FixedRegisters, c: Core, reading: bool)
    requires FixedOk(fixed) && Tells(e, fixed, c, reading) && Printable(e)
    ensures e.address == TIMESTAMP_SECOND ==> e.payload == FrameOf(e)[5..9]
    ensures e.address == TIMESTAMP_MICRO ==> e.payload == FrameOf(e)[9..11]
  {
    Replies.FrameShape(e.kind, e.address, e.payloadType, e.payload, e.harpTime);
  }

  predicate Printable(e: Sent) { |e.payload| <= Replies.MAX_REPLY_PAYLOAD && !HasBit(e.payloadType, HAS_TIMESTAMP) }

  lemma LogAppend(log: seq<Sent>, e: Sent)
    requires (forall e <- log :: Printable(e)) && Printable(e)
    ensures forall f <- log + [e] :: Printable(f)
    ensures Wire(log + [e], Cdc) == Wire(log, Cdc) + if Routed(e, Cdc) then FrameOf(e) else []
    ensures Wire(log + [e], Tcp) == Wire(log, Tcp) + if Routed(e, Tcp) then FrameOf(e) else []
  {
    WireAppend(log, e, Cdc);
    WireAppend(log, e, Tcp);
  }

  /** What a host that calls recv_reply until its connection is exhausted makes of a stream. */
  function HostReads(stream: seq<byte>): seq<Replies.HostReply>
    decreases |stream|
  {
    match Replies.Parse(stream)
    case Reply(reply, rest) => if |rest| < |stream| then [reply] + HostReads(rest) else []
    case ConnectionClosed => []
    case Malformed => []
    case ChecksumMismatch => []
  }

  function ReadingOf(e: Sent): Replies.HostReply
    requires Printable(e)
  {
    Replies.DecodeInvertsPrint(e.kind, e.address, e.payloadType, e.payload, e.harpTime);
    Replies.Read(e.kind, e.address, e.payloadType, e.payload, e.harpTime)
  }

  function ReadingsOf(log: seq<Sent>, transport: Source): seq<Replies.HostReply>
    requires forall e <- log :: Printable(e)
  {
    if log == [] then []
    else (if Routed(log[0], transport) then [ReadingOf(log[0])] else []) + ReadingsOf(log[1..], transport)
  }

  /** A host on either transport recovers every frame routed to it, in order, and nothing else. */
  lemma {:induction false} HostReadsWhatWasSent(log: seq<Sent>, transport: Source)
    requires forall e <- log :: Printable(e)
    ensures HostReads(Wire(log, transport)) == ReadingsOf(log, transport)
  {
    if log != [] {
      var e := log[0];
      assert e in log;
      HostReadsWhatWasSent(log[1..], transport);
      if Routed(e, transport) {
        Replies.ParseInvertsPrint(e.kind, e.address, e.payloadType, e.payload, e.harpTime, Wire(log[1..], transport));
        Replies.FrameShape(e.kind, e.address, e.payloadType, e.payload, e.harpTime);
      } else {
        assert Wire(log, transport) == Wire(log[1..], transport);
      }
    }
  }
}
