/** The core itself: receive buffers, register file, scheduler state and transmitter, updated in place. */
module HarpCore {
  import opened Basics
  import opened HarpMessage
  import opened CoreRegisters
  import opened Framing
  import opened Commands
  import opened CoreState
  import Scheduler
  import WrappedDeadline
  import NetworkSettings
  import NetworkManager
  import Replies
  import Synchronizer

  /** One transport's receive buffer. */
  class RxBuffer {
    const data: array<byte>
    var index: nat

    constructor ()
      ensures Valid() && fresh(data) && Buffered() == []
    {
      data := new byte[MAX_PACKET_SIZE](_ => 0);
      index := 0;
    }

    ghost predicate Valid()
      reads this
    {
      data.Length == MAX_PACKET_SIZE && index <= MAX_PACKET_SIZE
    }

    ghost function Buffered(): (s: seq<byte>)
      reads this, data
      requires Valid()
    {
      data[..index]
    }
  }

  /** Where the payload of a reply comes from. */
  datatype Data = Register(address: byte) | Local(bytes: seq<byte>)

  class HarpCore {
    const regs: RegValues
    const net: NetworkManager.Manager
    const tcpRx: RxBuffer
    const cdcRx: RxBuffer
    var sync: Synchronizer.HarpSynchronizer?

    /** The last reading of esp_timer_get_time. */
    var now: int
    var newMsg: bool
    var active: RxBuffer?
    var source: Source
    var offset: uint64
    var disconnectHandled: bool
    var connectHandled: bool
    var syncHandled: bool
    var interval: uint32
    var next: uint32
    var restarting: bool
    var cdcOut: seq<byte>
    var tcpOut: seq<byte>

    /** The deadline that `next` stands for, everything sent so far, and the frame being handled. */
    ghost var deadline: int
    ghost var log: seq<Sent>
    ghost var pending: seq<byte>

    ghost predicate ClockOk()
      reads `now, `next, `deadline
    {
      0 <= now < TWO_64 / 2 && next == Wrap32(deadline)
    }

    ghost predicate RegsOk()
      reads net`slot
    {
      net.regs == regs && net.Valid()
    }

    /** What went out on each transport is exactly the frames routed to it. */
    ghost predicate Wired()
      reads `cdcOut, `tcpOut, `log
    {
      cdcOut == Wire(log, Cdc) && tcpOut == Wire(log, Tcp) && forall e <- log :: Printable(e)
    }

    ghost predicate Steady()
      reads `now, `next, `deadline, `cdcOut, `tcpOut, `log, net`slot
    {
      ClockOk() && RegsOk() && Wired()
    }

    /** A message is pending exactly while it has a source and a buffer that starts with it. */
    ghost predicate RxOk()
      reads `newMsg, `source, `active, `pending, tcpRx, tcpRx.data, cdcRx, cdcRx.data
    {
      && tcpRx.Valid() && cdcRx.Valid() && tcpRx != cdcRx && tcpRx.data != cdcRx.data
      && (newMsg <==> !source.NoSource?)
      && active == (match source case NoSource => null case Cdc => cdcRx case Tcp => tcpRx)
      && (newMsg ==>
            && |pending| <= MAX_PACKET_SIZE && Dispatchable(pending)
            && active.data[..|pending|] == pending)
    }

    ghost function Sched(): Scheduler.Sched
      reads `offset, `sync, `disconnectHandled, `connectHandled, `syncHandled, `interval, `deadline
      reads regs`opCtrl, regs`clockConfig, sync
    {
      Scheduler.Sched(regs.opCtrl, regs.clockConfig, offset,
                      if sync == null then None else Some(Scheduler.SyncView(sync.hasSynced, sync.offset)),
                      disconnectHandled, connectHandled, syncHandled, interval, deadline)
    }

    ghost function View(): Core
      reads `offset, `sync, `disconnectHandled, `connectHandled, `syncHandled, `interval, `deadline
      reads regs`opCtrl, regs`clockConfig, sync
      reads net`slot, net.regs`netConfig, net.regs.netSsid, net.regs.netPassword, net.regs.netServerIp,
        net.regs.netServerPort
      reads regs`netConfig, regs`timestampOffset, regs`heartbeat, regs.deviceName
    {
      Core(Sched(), net.View(), regs.netConfig & !NetworkSettings.ENABLE, regs.deviceName[..],
           regs.timestampOffset, regs.heartbeat)
    }

    constructor (fixed: FixedRegisters, name: seq<byte>, slot: NetworkManager.Slot)
      requires FixedOk(fixed) && |name| < 25 && NetworkManager.SlotOk(slot)
      ensures Ready() && Blank() && regs.AtPowerOn(name)
      ensures log == [] && regs.fixed == fixed && net.slot == slot
      ensures tcpRx.Buffered() == [] && cdcRx.Buffered() == []
      ensures fresh(regs) && fresh(regs.Arrays()) && fresh(net)
      ensures fresh(tcpRx) && fresh(tcpRx.data) && fresh(cdcRx) && fresh(cdcRx.data)
    {
      var r := new RegValues(fixed, name);
      regs := r;
      net := new NetworkManager.Manager(r, slot);
      tcpRx := new RxBuffer();
      cdcRx := new RxBuffer();
      sync, newMsg, active, source, restarting := null, false, null, NoSource, false;
      offset, disconnectHandled, connectHandled, syncHandled := 0, false, false, false;
      interval, now, next, deadline := Scheduler.STANDBY_INTERVAL, 0, 0, 0;
      cdcOut, tcpOut, log := [], [], [];
    }

    /** init(): construction, then the stored profile and the first deadline. */
    static method Init(fixed: FixedRegisters, name: seq<byte>, slot: NetworkManager.Slot)
      returns (core: HarpCore, ghost loaded: bool, ghost saved: bool, ghost t: int)
      requires FixedOk(fixed) && |name| < 25 && NetworkManager.SlotOk(slot)
      ensures fresh(core) && fresh(core.regs) && fresh(core.regs.Arrays()) && fresh(core.net)
      ensures fresh(core.tcpRx) && fresh(core.tcpRx.data) && fresh(core.cdcRx) && fresh(core.cdcRx.data)
      ensures core.Ready() && core.sync == null && core.log == [] && core.regs.fixed == fixed
      ensures core.tcpRx.Buffered() == [] && core.cdcRx.Buffered() == []
      ensures core.View() == BootCore(name, NetworkManager.StoredIn(slot), t, loaded, saved) && 0 <= t <= core.now
    {
      core := new HarpCore(fixed, name, slot);
      core.ShowsDefaults(name);
      loaded, saved, t := core.Start();
    }

    /** The core before its constructor has read flash and clock. */
    ghost predicate Blank()
      reads `offset, `sync, `disconnectHandled, `connectHandled, `syncHandled, `interval, `deadline
    {
      && offset == 0 && sync == null && !disconnectHandled && !connectHandled && !syncHandled
      && interval == Scheduler.STANDBY_INTERVAL && deadline == 0
    }

    lemma ShowsDefaults(name: seq<byte>)
      requires RegsOk() && |name| < 25 && regs.AtPowerOn(name) && Blank()
      ensures View() == Core(Scheduler.Sched(0xE4, Scheduler.UNLOCK, 0, None, false, false, false,
                                             Scheduler.STANDBY_INTERVAL, 0),
                             NetworkSettings.Defaults(NetworkManager.StoredIn(net.slot)),
                             0, name + NetworkSettings.Zeros(25 - |name|), 0, 0)
      ensures net.View() == NetworkSettings.Defaults(NetworkManager.StoredIn(net.slot)) && Sched() == View().sched
    {
      assert regs.deviceName[..] == name + NetworkSettings.Zeros(25 - |name|);
      assert regs.netSsid[..] == NetworkSettings.Zeros(SSID_LENGTH);
      assert regs.netPassword[..] == NetworkSettings.Zeros(PASSWORD_LENGTH);
      assert regs.netServerIp[..] == NetworkSettings.Zeros(SERVER_IP_LENGTH);
    }

    /** The end of the constructor: the stored profile and the first deadline. */
    method Start() returns (ghost loaded: bool, ghost saved: bool, ghost t: int)
      requires Steady() && net.View() == NetworkSettings.Defaults(NetworkManager.StoredIn(net.slot))
               && regs.netConfig == 0
      modifies `now, `next, `deadline
      modifies net`cfg, net`slot, regs`netConfig, regs.netSsid, regs.netPassword, regs.netServerIp, regs.netServerPort
      ensures Steady() && old(now) <= t <= now
      ensures View() == old(View()).(sched := Scheduler.Realign(old(Sched()), t),
                                     net := NetworkSettings.Booted(
                                              old(NetworkManager.StoredIn(net.slot)), loaded, saved),
                                     netStatus := 0)
    {
      hide Wired;
      hide NetworkSettings.Booted;
      hide Scheduler.Realign;
      var l, s := net.Restore();
      loaded, saved := l, s;
      NetworkSettings.StatusIsSeparate(regs.netConfig);
      var harpTime;
      harpTime, t := HarpTime();
      UpdateNextHeartbeat(harpTime, t);
    }

    // -------------------------------------------------------------------------------------------
    // Clock
    // -------------------------------------------------------------------------------------------

    /** esp_timer_get_time: never runs backwards. */
    method Timer() returns (t: int)
      requires 0 <= now < TWO_64 / 2
      modifies `now
      ensures old(now) <= t == now < TWO_64 / 2
    {
      var reading: int := *;
      if now <= reading < TWO_64 / 2 {
        now := reading;
      }
      t := now;
    }

    function SystemToHarp(t: int): uint64
      reads `offset, `sync, sync
    {
      if sync == null then Wrap64(t - offset) else Wrap64(t - sync.offset)
    }

    function HarpToSystem32(harpTime: int): uint32
      reads `offset, `sync, sync
    {
      if sync == null then Wrap32(Wrap64(harpTime + offset)) else Wrap32(Wrap64(harpTime + sync.offset))
    }

    method HarpTime() returns (harpTime: uint64, ghost at: int)
      requires 0 <= now < TWO_64 / 2
      modifies `now
      ensures old(now) <= at == now < TWO_64 / 2
      ensures harpTime == Scheduler.HarpTime(Sched(), at)
    {
      var t := Timer();
      at := t;
      harpTime := SystemToHarp(t);
    }

    // -------------------------------------------------------------------------------------------
    // Transmission
    // -------------------------------------------------------------------------------------------

    predicate Muted()
      reads regs`opCtrl
    {
      Has(regs.opCtrl, Scheduler.MUTE_RPL)
    }

    method SetTimestampRegs(harpTime: uint64)
      modifies regs`timestampSecond, regs`timestampMicro
      ensures regs.timestampSecond == Replies.Seconds(harpTime) && regs.timestampMicro == Replies.Micros(harpTime)
    {
      regs.timestampSecond := Wrap32(harpTime / 1_000_000);
      regs.timestampMicro := harpTime % 1_000_000 / 32;
    }

    /** Appends bytes to the packet and the checksum, and to the CDC stream if the packet goes there. */
    method PutBytes(packet: array<byte>, len: nat, checksum: byte, bytes: seq<byte>, routeCdc: bool,
                    ghost before: seq<byte>)
      returns (newLen: nat, newChecksum: byte)
      requires len + |bytes| <= packet.Length && checksum == Checksum(packet[..len])
      requires cdcOut == before + if routeCdc then packet[..len] else []
      modifies packet, `cdcOut
      ensures newLen == len + |bytes| && packet[..newLen] == old(packet[..len]) + bytes
      ensures newChecksum == Checksum(packet[..newLen])
      ensures cdcOut == before + if routeCdc then packet[..newLen] else []
    {
      newLen, newChecksum := len, checksum;
      for i := 0 to |bytes|
        invariant newLen == len + i && packet[..newLen] == old(packet[..len]) + bytes[..i]
        invariant newChecksum == Checksum(packet[..newLen])
        invariant cdcOut == before + if routeCdc then packet[..newLen] else []
      {
        newLen, newChecksum := PutByte(packet, newLen, newChecksum, bytes[i], routeCdc, before);
        assert bytes[..i + 1] == bytes[..i] + [bytes[i]];
        Associative(old(packet[..len]), bytes[..i], [bytes[i]]);
      }
      assert bytes[..|bytes|] == bytes;
    }

    method PutByte(packet: array<byte>, len: nat, checksum: byte, b: byte, routeCdc: bool, ghost before: seq<byte>)
      returns (newLen: nat, newChecksum: byte)
      requires len < packet.Length && checksum == Checksum(packet[..len])
      requires cdcOut == before + if routeCdc then packet[..len] else []
      modifies packet, `cdcOut
      ensures newLen == len + 1 && packet[..newLen] == old(packet[..len]) + [b]
      ensures newChecksum == Checksum(packet[..newLen])
      ensures cdcOut == before + if routeCdc then packet[..newLen] else []
    {
      hide Checksum;
      newChecksum := Wrap8(checksum + b);
      packet[len] := b;
      newLen := len + 1;
      ghost var printed := old(packet[..len]);
      assert packet[..newLen] == printed + [b];
      ChecksumAppend(printed, b);
      if routeCdc {
        cdcOut := cdcOut + [b];
        Associative(before, printed, [b]);
      }
    }

    /**
     * Serializes one reply or event, with the timestamp registers refreshed before the payload is
     * read, and hands the same bytes to each transport it is routed to.
     */
    method SendHarpReply(kind: byte, address: byte, data: Data, payloadType: byte, harpTime: uint64, ghost at: int)
      returns (ghost sent: seq<Sent>)
      requires Steady()
      requires if data.Register? then Mapped(data.address) else |data.bytes| <= PASSWORD_LENGTH
      requires !HasBit(payloadType, HAS_TIMESTAMP)
      modifies `cdcOut, `tcpOut, `log, regs`timestampSecond, regs`timestampMicro
      ensures Steady() && log == old(log) + sent && View() == old(View())
      ensures kind != EVENT && Muted() ==> sent == []
      ensures kind == EVENT || !Muted() ==>
                && regs.timestampSecond == Replies.Seconds(harpTime) && regs.timestampMicro == Replies.Micros(harpTime)
                && sent == [Sent(kind, address, payloadType,
                                 if data.Register? then regs.Image(data.address) else data.bytes,
                                 harpTime, if kind == EVENT then NoSource else source, at)]
    {
      hide View;
      hide Wire;
      if kind != EVENT && Muted() {
        sent := [];
        return;
      }
      SetTimestampRegs(harpTime);
      var payload := if data.Register? then regs.Image(data.address) else data.bytes;
      sent := Transmit(kind, address, payloadType, payload, harpTime, at);
    }

    /** The routing: events go everywhere, replies to the source of the message being handled. */
    method Transmit(kind: byte, address: byte, payloadType: byte, payload: seq<byte>, harpTime: uint64, ghost at: int)
      returns (ghost sent: seq<Sent>)
      requires Wired() && |payload| <= PASSWORD_LENGTH && !HasBit(payloadType, HAS_TIMESTAMP)
      requires regs.timestampSecond == Replies.Seconds(harpTime) && regs.timestampMicro == Replies.Micros(harpTime)
      modifies `cdcOut, `tcpOut, `log
      ensures Wired() && log == old(log) + sent
      ensures sent == [Sent(kind, address, payloadType, payload, harpTime,
                            if kind == EVENT then NoSource else source, at)]
    {
      var routeCdc := kind == EVENT || source.NoSource? || source.Cdc?;
      var routeTcp := kind == EVENT || source.NoSource? || source.Tcp?;
      var packet, len := PrintFrame(kind, address, payloadType, payload, harpTime, routeCdc);
      if routeTcp {
        tcpOut := tcpOut + packet[..len];
      }
      ghost var e := Sent(kind, address, payloadType, payload, harpTime,
                          if kind == EVENT then NoSource else source, at);
      sent := [e];
      LogAppend(log, e);
      log := log + sent;
    }

    method PrintFrame(kind: byte, address: byte, payloadType: byte, payload: seq<byte>, harpTime: uint64,
                      routeCdc: bool)
      returns (packet: array<byte>, len: nat)
      requires |payload| <= PASSWORD_LENGTH
      requires regs.timestampSecond == Replies.Seconds(harpTime) && regs.timestampMicro == Replies.Micros(harpTime)
      modifies `cdcOut
      ensures fresh(packet) && len <= packet.Length
      ensures packet[..len] == Replies.ReplyFrame(kind, address, payloadType, payload, harpTime)
      ensures cdcOut == old(cdcOut) + if routeCdc then packet[..len] else []
    {
      packet := new byte[MAX_PACKET_SIZE](_ => 0);
      len := 0;
      var checksum: byte := 0;
      ghost var before := cdcOut;
      assert packet[..0] == [] && before + [] == before;
      var header := Replies.ReplyHeader(kind, address, payloadType, |payload|);
      len, checksum := PutBytes(packet, len, checksum, header, routeCdc, before);
      len, checksum := PutBytes(packet, len, checksum, Le32(regs.timestampSecond), routeCdc, before);
      len, checksum := PutBytes(packet, len, checksum, Le16(regs.timestampMicro), routeCdc, before);
      assert packet[..len] == header + Replies.TimestampBytes(harpTime);
      len, checksum := PutBytes(packet, len, checksum, payload, routeCdc, before);
      ghost var body := packet[..len];
      assert body == Replies.ReplyBody(kind, address, payloadType, payload, harpTime);
      len, checksum := PutByte(packet, len, checksum, checksum, routeCdc, before);
    }

    /** The image of a register, given the time at which the timestamp registers were refreshed. */
    lemma ImageIsView(harpTime: uint64, address: byte)
      requires RegsOk() && Mapped(address)
      requires regs.timestampSecond == Replies.Seconds(harpTime) && regs.timestampMicro == Replies.Micros(harpTime)
      ensures regs.Image(address) == Image(regs.fixed, View(), harpTime, address)
    {
      assert regs.netConfig == (regs.netConfig & NetworkSettings.ENABLE) | (regs.netConfig & !NetworkSettings.ENABLE);
    }

    lemma TellsRegister(e: Sent, reading: bool)
      requires RegsOk() && !(reading && Masked(e.kind, e.address))
      requires regs.timestampSecond == Replies.Seconds(e.harpTime) && regs.timestampMicro == Replies.Micros(e.harpTime)
      requires e.payloadType == RegType(SpecAddress(e.address)) && e.payload == regs.Image(SpecAddress(e.address))
      requires e.harpTime == Scheduler.HarpTime(Sched(), e.at)
      ensures Tells(e, regs.fixed, View(), reading)
    {
      ImageIsView(e.harpTime, SpecAddress(e.address));
    }

    /** send_harp_reply for a register, at the current time. */
    method Reply(kind: byte, address: byte, ghost reading: bool) returns (ghost sent: seq<Sent>)
      requires Steady() && !(reading && Masked(kind, address))
      modifies `now, `cdcOut, `tcpOut, `log, regs`timestampSecond, regs`timestampMicro
      ensures Steady() && log == old(log) + sent && View() == old(View())
      ensures old(now) <= now && Timed(sent, old(now), now)
      ensures Answered(sent, if kind == EVENT then [Head(EVENT, address, NoSource)]
                             else if Muted() then [] else [Head(kind, address, source)], regs.fixed, View(), reading)
    {
      hide Wire;
      hide Wired;
      hide View;
      hide Image;
      hide Tells;
      var harpTime, at := HarpTime();
      var spec := SpecAddress(address);
      sent := SendHarpReply(kind, address, Register(spec), RegType(spec), harpTime, at);
      if sent != [] {
        TellsRegister(sent[0], reading);
      }
    }

    // -------------------------------------------------------------------------------------------
    // update_state
    // -------------------------------------------------------------------------------------------

    predicate IsSynced()
      reads `sync, sync
    {
      sync != null && sync.hasSynced
    }

    method UpdateNextHeartbeat(harpTime: uint64, ghost t: int)
      requires harpTime == Scheduler.HarpTime(Sched(), t)
      modifies `next, `deadline
      ensures next == Wrap32(deadline) && Sched() == Scheduler.Realign(old(Sched()), t)
    {
      var remainder := harpTime % 1_000_000;
      next := Wrap32(HarpToSystem32(harpTime - remainder) + interval);
      deadline := t - harpTime % 1_000_000 + interval;
      WrappedDeadline.HarpToSystem32(t, Scheduler.OffsetInUse(Sched()), remainder);
      WrappedDeadline.WrappedSum(t - remainder, interval);
    }

    method Latch(hostConnected: bool, harpTime: uint64, ghost t: int)
      requires next == Wrap32(deadline) && harpTime == Scheduler.HarpTime(Sched(), t)
      modifies `syncHandled, `disconnectHandled, `connectHandled, `next, `deadline
      ensures next == Wrap32(deadline) && Sched() == Scheduler.Observe(old(Sched()), t, hostConnected)
    {
      var isSynced := IsSynced();
      syncHandled := if isSynced then syncHandled else false;
      disconnectHandled := if hostConnected then false else disconnectHandled;
      connectHandled := if hostConnected then connectHandled else false;
      if !hostConnected && !disconnectHandled {
        disconnectHandled := true;
      }
      if isSynced && !syncHandled {
        UpdateNextHeartbeat(harpTime, t);
        syncHandled := true;
      }
    }

    method NextState(state: bv8, forced: Option<bv8>, hostConnected: bool) returns (nextState: bv8)
      requires state == Scheduler.Mode(regs.opCtrl)
      ensures nextState == if forced.Some? then forced.value
              else Scheduler.NextMode(state, hostConnected, connectHandled)
    {
      nextState := state;
      if forced.Some? {
        nextState := forced.value;
      } else if state == Scheduler.STANDBY || state == Scheduler.ACTIVE {
        if state == Scheduler.STANDBY && hostConnected && !connectHandled {
          nextState := Scheduler.ACTIVE;
        }
        if !hostConnected {
          nextState := Scheduler.STANDBY;
        }
      }
    }

    method SwitchMode(forced: Option<bv8>, hostConnected: bool)
      modifies `connectHandled, `interval, regs`opCtrl
      ensures Sched() == Scheduler.EnterMode(old(Sched()),
                           if forced.Some? then forced.value
                           else Scheduler.NextMode(Scheduler.Mode(old(regs.opCtrl)), hostConnected,
                                                   old(connectHandled)))
    {
      hide Scheduler.Mode;
      hide Scheduler.WithMode;
      hide Scheduler.NextMode;
      var state := Scheduler.Mode(regs.opCtrl);
      var nextState := NextState(state, forced, hostConnected);
      if state != Scheduler.ACTIVE && nextState == Scheduler.ACTIVE {
        connectHandled := true;
        interval := Scheduler.ACTIVE_INTERVAL;
      }
      if state == Scheduler.ACTIVE && nextState == Scheduler.STANDBY {
        interval := Scheduler.STANDBY_INTERVAL;
      }
      regs.opCtrl := Scheduler.WithMode(regs.opCtrl, nextState);
    }

    method RefreshHeartbeatRegister()
      modifies regs`heartbeat
      ensures regs.heartbeat == HeartbeatOf(Sched())
    {
      regs.heartbeat := (if regs.opCtrl & Scheduler.OP_MODE == Scheduler.ACTIVE then 1 else 0)
                        + if IsSynced() then 2 else 0;
    }

    /** The 32-bit comparison; a deadline that is reached is moved on, and reported in ACTIVE mode. */
    method CheckDeadline(time: uint32, ghost t: int) returns (ghost sent: seq<Sent>)
      requires Steady() && time == Wrap32(t)
      modifies `now, `next, `deadline, `cdcOut, `tcpOut, `log
      modifies regs`heartbeat, regs`timestampSecond, regs`timestampMicro
      ensures Steady() && log == old(log) + sent
      ensures old(now) <= now && Timed(sent, old(now), now)
      ensures View() == old(View()).(
                sched := WrappedDeadline.Check(old(Sched()), t).s,
                heartbeat := if WrappedDeadline.Refreshes(old(Sched()), t)
                             then HeartbeatOf(old(Sched())) else old(regs.heartbeat))
      ensures Announced(sent, WrappedDeadline.Check(old(Sched()), t).event, regs.fixed, View())
    {
      hide Wired;
      hide Tells;
      sent := [];
      WrappedDifference(time, t);
      if Signed32(Wrap32(time - next)) >= 0 {
        WrappedDeadline.WrappedSum(deadline, interval);
        next := Wrap32(next + interval);
        deadline := deadline + interval;
        sent := ReportIfActive();
      }
    }

    method ReportIfActive() returns (ghost sent: seq<Sent>)
      requires Steady()
      modifies `now, `cdcOut, `tcpOut, `log, regs`heartbeat, regs`timestampSecond, regs`timestampMicro
      ensures Steady() && log == old(log) + sent
      ensures old(now) <= now && Timed(sent, old(now), now)
      ensures View() == old(View()).(
                heartbeat := if Scheduler.Mode(regs.opCtrl) == Scheduler.ACTIVE && !Muted()
                             then HeartbeatOf(old(Sched())) else old(regs.heartbeat))
      ensures Announced(sent, Scheduler.EventRegister(old(Sched())), regs.fixed, View())
    {
      hide Wired;
      hide Tells;
      hide HeartbeatOf;
      sent := [];
      if Scheduler.Mode(regs.opCtrl) == Scheduler.ACTIVE && !Muted() {
        RefreshHeartbeatRegister();
        sent := SendPeriodicEvent();
      }
    }

    method SendPeriodicEvent() returns (ghost sent: seq<Sent>)
      requires Steady() && Scheduler.Mode(regs.opCtrl) == Scheduler.ACTIVE && !Muted()
      modifies `now, `cdcOut, `tcpOut, `log, regs`timestampSecond, regs`timestampMicro
      ensures Steady() && log == old(log) + sent && View() == old(View())
      ensures old(now) <= now && Timed(sent, old(now), now)
      ensures Announced(sent, Scheduler.EventRegister(Sched()), regs.fixed, View())
    {
      sent := [];
      if Has(regs.opCtrl, Scheduler.HEARTBEAT_EN) {
        sent := Reply(EVENT, HEARTBEAT, false);
      } else if Has(regs.opCtrl, Scheduler.ALIVE_EN) {
        sent := Reply(EVENT, TIMESTAMP_SECOND, false);
      }
    }

    lemma WrappedDifference(time: uint32, t: int)
      requires ClockOk() && time == Wrap32(t)
      ensures Signed32(Wrap32(time - next)) >= 0 <==> WrappedDeadline.Due(Sched(), t)
    {
    }

    /** Latches, realignment and mode of one call. */
    method ObserveAndSwitch(forced: Option<bv8>, hostConnected: bool, harpTime: uint64, ghost t: int)
      requires Steady() && harpTime == Scheduler.HarpTime(Sched(), t)
      modifies `syncHandled, `disconnectHandled, `connectHandled, `interval, `next, `deadline, regs`opCtrl
      ensures Steady()
      ensures View() == old(View()).(sched := WrappedDeadline.Entered(old(Sched()), forced, t, hostConnected))
    {
      hide Wire;
      hide Scheduler.Observe;
      hide Scheduler.EnterMode;
      hide Scheduler.NextMode;
      Latch(hostConnected, harpTime, t);
      SwitchMode(forced, hostConnected);
    }

    /** The Harp time, and the system time recomputed from it. */
    method SampleClock() returns (harpTime: uint64, time: uint32, ghost t: int)
      requires 0 <= now < TWO_64 / 2
      modifies `now
      ensures old(now) <= t == now < TWO_64 / 2
      ensures harpTime == Scheduler.HarpTime(Sched(), t) && time == Wrap32(t)
    {
      harpTime, t := HarpTime();
      time := HarpToSystem32(harpTime);
      WrappedDeadline.HarpToSystem32(t, Scheduler.OffsetInUse(Sched()), 0);
    }

    /** One call of update_state: exactly the firmware's step of the scheduler, and the event it emits. */
    method UpdateState(forced: Option<bv8>) returns (ghost t: int, ghost host: bool, ghost sent: seq<Sent>)
      requires Steady()
      modifies `now, `syncHandled, `disconnectHandled, `connectHandled, `interval, `next, `deadline
      modifies `cdcOut, `tcpOut, `log
      modifies regs`opCtrl, regs`heartbeat, regs`timestampSecond, regs`timestampMicro
      ensures Steady() && log == old(log) + sent
      ensures old(now) <= t <= now && Timed(sent, old(now), now)
      ensures View() == Updated(old(View()), forced, t, host)
      ensures Announced(sent, WrappedDeadline.Update(old(Sched()), forced, t, host).event, regs.fixed, View())
    {
      hide Wired;
      hide Announced;
      hide WrappedDeadline.Entered;
      hide WrappedDeadline.Check;
      hide WrappedDeadline.Refreshes;
      var harpTime, time;
      harpTime, time, t := SampleClock();
      var usbConnected: bool, tcpConnected: bool := *, *;
      var hostConnected := usbConnected || tcpConnected;
      host := hostConnected;
      ObserveAndSwitch(forced, hostConnected, harpTime, t);
      sent := CheckDeadline(time, t);
    }

    // -------------------------------------------------------------------------------------------
    // Reception
    // -------------------------------------------------------------------------------------------

    /** How much the next read may ask for. */
    method MaxBytesToRead(rx: RxBuffer) returns (maxBytes: nat)
      requires rx.Valid()
      modifies rx`index
      ensures rx.Valid() && maxBytes == MaxRead(old(rx.Buffered()))
      ensures rx.index == if old(rx.index) == MAX_PACKET_SIZE then 0 else old(rx.index)
    {
      if rx.index >= MAX_PACKET_SIZE {
        rx.index := 0;
      }
      maxBytes := MAX_PACKET_SIZE - rx.index;
      if rx.index >= HEADER_SIZE {
        var msgSize := Min(MsgSize(rx.data[1]), MAX_PACKET_SIZE);
        maxBytes := if msgSize > rx.index then Min(maxBytes, msgSize - rx.index) else 0;
      }
    }

    /** A complete message becomes the pending one. */
    method TryDeliver(rx: RxBuffer, from: Source) returns (ghost delivery: Option<Delivery>)
      requires RxOk() && !newMsg && rx == (match from case Tcp => tcpRx case Cdc => cdcRx case NoSource => null)
      modifies rx`index, `newMsg, `active, `source, `pending
      ensures RxOk() && newMsg == delivery.Some?
      ensures delivery == if Dispatchable(old(rx.Buffered())) then Some(Deliver(old(rx.Buffered()))) else None
      ensures rx.Buffered() == if newMsg then [] else old(rx.Buffered())
      ensures newMsg ==> source == from && pending == delivery.value.frame
    {
      delivery := None;
      if rx.index < HEADER_SIZE {
        return;
      }
      var msgSize := Min(MsgSize(rx.data[1]), MAX_PACKET_SIZE);
      if rx.index < msgSize {
        return;
      }
      delivery := Some(Deliver(rx.Buffered()));
      pending := delivery.value.frame;
      active, source := rx, from;
      rx.index := 0;
      newMsg := true;
    }

    /** One poll of a transport: exactly what Feed says of its buffer, and nothing while a message is pending. */
    method ProcessTransportInput(rx: RxBuffer, from: Source, offered: seq<byte>)
      returns (ghost delivery: Option<Delivery>)
      requires RxOk() && rx == (match from case Tcp => tcpRx case Cdc => cdcRx case NoSource => null)
      modifies rx, rx.data, `newMsg, `active, `source, `pending
      ensures RxOk()
      ensures old(newMsg) ==> delivery == None && rx.Buffered() == old(rx.Buffered()) && newMsg
                              && source == old(source) && pending == old(pending)
      ensures !old(newMsg) ==> Feed(old(rx.Buffered()), offered) == Fed(rx.Buffered(), delivery)
                               && newMsg == delivery.Some?
      ensures !old(newMsg) && newMsg ==> source == from && pending == delivery.value.frame
    {
      delivery := None;
      if newMsg {
        return;
      }
      var maxBytes := MaxBytesToRead(rx);
      var bytesRead := Min(|offered|, maxBytes);
      if bytesRead <= 0 {
        return;
      }
      ReceiveInto(rx, offered[..bytesRead]);
      delivery := TryDeliver(rx, from);
    }

    /** The read call fills the buffer from the index on. */
    method ReceiveInto(rx: RxBuffer, bytes: seq<byte>)
      requires rx.Valid() && rx.index + |bytes| <= MAX_PACKET_SIZE
      modifies rx, rx.data
      ensures rx.Valid() && rx.Buffered() == old(rx.Buffered()) + bytes
    {
      var start := rx.index;
      for i := 0 to |bytes|
        invariant rx.index == start && rx.data[..start + i] == old(rx.Buffered()) + bytes[..i]
      {
        rx.data[start + i] := bytes[i];
        assert rx.data[..start + i + 1] == rx.data[..start + i] + [bytes[i]];
        assert bytes[..i + 1] == bytes[..i] + [bytes[i]];
        Associative(old(rx.Buffered()), bytes[..i], [bytes[i]]);
      }
      assert bytes[..|bytes|] == bytes;
      rx.index := start + |bytes|;
    }

    method ClearMsg()
      requires RxOk()
      modifies `newMsg, `source, `active
      ensures RxOk() && !newMsg
    {
      newMsg, source, active := false, NoSource, null;
    }

    /** TCP first; a message it completes takes the turn of CDC. */
    method PollTransports(a: Arrival) returns (ghost received: seq<Received>)
      requires RxOk() && !newMsg
      modifies tcpRx, tcpRx.data, cdcRx, cdcRx.data, `newMsg, `active, `source, `pending
      ensures RxOk()
      ensures Poll(old(tcpRx.Buffered()), old(cdcRx.Buffered()), a)
              == Pair(tcpRx.Buffered(), cdcRx.Buffered(), received)
      ensures if newMsg then |received| == 1 && received[0].source == source && received[0].delivery.frame == pending
              else received == []
    {
      ghost var t := ProcessTransportInput(tcpRx, Tcp, a.tcp);
      ghost var c := ProcessTransportInput(cdcRx, Cdc, a.cdc);
      received := if t.Some? then [Received(Tcp, t.value)] else if c.Some? then [Received(Cdc, c.value)] else [];
    }

    // -------------------------------------------------------------------------------------------
    // Read handlers
    // -------------------------------------------------------------------------------------------

    function Told(kind: byte, address: byte): seq<Head>
      reads `source, regs`opCtrl
    {
      if Muted() then [] else [Head(kind, address, source)]
    }

    /** A reply whose payload is not the register. */
    method ReplyMask(address: byte) returns (ghost sent: seq<Sent>)
      requires Steady() && Masked(READ, address)
      modifies `now, `cdcOut, `tcpOut, `log, regs`timestampSecond, regs`timestampMicro
      ensures Steady() && log == old(log) + sent && View() == old(View())
      ensures old(now) <= now && Timed(sent, old(now), now)
      ensures Answered(sent, Told(READ, address), regs.fixed, View(), true)
    {
      hide Wired;
      hide Image;
      var harpTime, at := HarpTime();
      sent := SendHarpReply(READ, address, Local(MaskOf(address)), U8, harpTime, at);
    }

    method Read(address: byte) returns (ghost sent: seq<Sent>)
      requires Steady() && Mapped(address)
      modifies `now, `cdcOut, `tcpOut, `log, regs`timestampSecond, regs`timestampMicro
      ensures Steady() && log == old(log) + sent && View() == old(View())
      ensures old(now) <= now && Timed(sent, old(now), now)
      ensures Answered(sent, Told(READ, address), regs.fixed, View(), true)
    {
      hide Wired;
      hide View;
      hide Tells;
      if Masked(READ, address) {
        sent := ReplyMask(address);
      } else {
        if address == TIMESTAMP_SECOND || address == TIMESTAMP_MICRO {
          var harpTime, at := HarpTime();
          SetTimestampRegs(harpTime);
        }
        sent := Reply(READ, address, true);
      }
    }

    // -------------------------------------------------------------------------------------------
    // Write handlers
    // -------------------------------------------------------------------------------------------

    method Refuse(address: byte) returns (ghost sent: seq<Sent>)
      requires Steady()
      modifies `now, `cdcOut, `tcpOut, `log, regs`timestampSecond, regs`timestampMicro
      ensures Steady() && log == old(log) + sent && View() == old(View())
      ensures old(now) <= now && Timed(sent, old(now), now)
      ensures Answered(sent, Told(WRITE_ERROR, address), regs.fixed, View(), false)
    {
      sent := Reply(WRITE_ERROR, address, false);
    }

    ghost function Syncs(): set<Synchronizer.HarpSynchronizer>
      reads `sync
    {
      if sync == null then {} else {sync}
    }

    method SetHarpTime(harpTime: uint64) returns (ghost t2: int, ghost t3: int)
      requires 0 <= now < TWO_64 / 2
      modifies `now, `offset, Syncs()`offset
      ensures old(now) <= t2 <= t3 == now < TWO_64 / 2
      ensures Sched() == Scheduler.SetHarpTime(old(Sched()), harpTime, t2, t3)
    {
      t2 := now;
      if sync != null {
        var t := Timer();
        sync.SetHarpTime(harpTime, t);
        t2 := t;
      }
      var t := Timer();
      offset := Wrap64(t - harpTime);
      t3 := t;
    }

    method WriteTimestampSecond(seconds: uint32) returns (ghost i: CommandInput, ghost sent: seq<Sent>)
      requires Steady()
      modifies `now, `offset, `next, `deadline, Syncs()`offset
      modifies `cdcOut, `tcpOut, `log, regs`timestampSecond, regs`timestampMicro
      ensures Steady() && log == old(log) + sent
      ensures Within(i, old(now), now) && Timed(sent, old(now), now)
      ensures View() == TimestampWritten(old(View()), seconds, i)
      ensures Answered(sent, Told(if Scheduler.Unlocked(old(Sched())) then WRITE else WRITE_ERROR, TIMESTAMP_SECOND),
                       regs.fixed, View(), false)
    {
      hide Wired;
      hide Tells;
      hide View;
      SchedInView();
      var unlocked := Has(regs.clockConfig, Scheduler.UNLOCK) && !Has(regs.clockConfig, Scheduler.LOCK);
      if !unlocked {
        i := CommandInput(now, now, now, now, false, false, false);
        sent := Refuse(TIMESTAMP_SECOND);
        return;
      }
      i := MoveHarpTime(seconds);
      sent := Reply(WRITE, TIMESTAMP_SECOND, false);
    }

    /** The whole seconds are the host's, the fraction is kept, and the next heartbeat is realigned. */
    method MoveClock(seconds: uint32) returns (ghost i: CommandInput)
      requires 0 <= now < TWO_64 / 2 && Scheduler.Unlocked(Sched())
      modifies `now, `offset, `next, `deadline, Syncs()`offset
      ensures ClockOk() && Within(i, old(now), now)
      ensures Sched() == Scheduler.Step(old(Sched()), Scheduler.WriteTimestamp(i.t1, i.t2, i.t3, i.t4, seconds)).s
    {
      hide Scheduler.HarpTime;
      hide Scheduler.Realign;
      hide Scheduler.SetHarpTime;
      hide Scheduler.Step;
      hide Scheduler.Unlocked;
      var harpTime, t1 := HarpTime();
      var newHarpTime := seconds * 1_000_000 + harpTime % 1_000_000;
      var t2, t3 := SetHarpTime(newHarpTime);
      var realigned, t4 := HarpTime();
      UpdateNextHeartbeat(realigned, t4);
      i := CommandInput(t1, t2, t3, t4, false, false, false);
      Scheduler.TimestampStep(old(Sched()), t1, t2, t3, t4, seconds);
    }

    method MoveHarpTime(seconds: uint32) returns (ghost i: CommandInput)
      requires Steady() && Scheduler.Unlocked(Sched())
      modifies `now, `offset, `next, `deadline, Syncs()`offset
      ensures Steady() && Within(i, old(now), now)
      ensures View() == TimestampWritten(old(View()), seconds, i)
    {
      hide Wired;
      hide Scheduler.Step;
      i := MoveClock(seconds);
    }

    method WriteClockConfig(requested: bv8) returns (ghost sent: seq<Sent>)
      requires Steady()
      modifies `now, `cdcOut, `tcpOut, `log, regs`clockConfig, regs`timestampSecond, regs`timestampMicro
      ensures Steady() && log == old(log) + sent
      ensures old(now) <= now && Timed(sent, old(now), now)
      ensures View() == old(View()).(sched := Scheduler.Step(old(Sched()), Scheduler.WriteClockConfig(requested)).s)
      ensures Answered(sent, Told(WRITE, CLOCK_CONFIG), regs.fixed, View(), false)
    {
      hide Wired;
      hide Tells;
      hide Scheduler.NextClockConfig;
      regs.clockConfig := NextClockConfig(regs.clockConfig, requested);
      sent := Reply(WRITE, CLOCK_CONFIG, false);
    }

    method NextClockConfig(current: bv8, requested: bv8) returns (nextConfig: bv8)
      ensures nextConfig == Scheduler.NextClockConfig(current, requested)
    {
      var modeMask := Scheduler.CLK_REP | Scheduler.CLK_GEN;
      var capMask := Scheduler.REP_ABLE | Scheduler.GEN_ABLE;
      nextConfig := (current & !modeMask) | (requested & modeMask);
      if Has(requested, Scheduler.LOCK) {
        nextConfig := (nextConfig | Scheduler.LOCK) & !Scheduler.UNLOCK;
      } else if Has(requested, Scheduler.UNLOCK) {
        nextConfig := (nextConfig | Scheduler.UNLOCK) & !Scheduler.LOCK;
      }
      nextConfig := (nextConfig & !capMask) | (current & capMask);
    }

    method WriteTimestampOffset() returns (ghost sent: seq<Sent>)
      requires Steady()
      modifies `now, `cdcOut, `tcpOut, `log, regs`timestampOffset, regs`timestampSecond, regs`timestampMicro
      ensures Steady() && log == old(log) + sent
      ensures old(now) <= now && Timed(sent, old(now), now)
      ensures View() == old(View()).(timestampOffset := 0)
      ensures Answered(sent, Told(WRITE, TIMESTAMP_OFFSET), regs.fixed, View(), false)
    {
      regs.timestampOffset := 0;
      sent := Reply(WRITE, TIMESTAMP_OFFSET, false);
    }

    /** DEVICE_NAME and SERIAL_NUMBER acknowledge a write and keep their value. */
    method WriteIgnored(address: byte) returns (ghost sent: seq<Sent>)
      requires Steady() && (address == DEVICE_NAME || address == SERIAL_NUMBER)
      modifies `now, `cdcOut, `tcpOut, `log, regs`timestampSecond, regs`timestampMicro
      ensures Steady() && log == old(log) + sent && View() == old(View())
      ensures old(now) <= now && Timed(sent, old(now), now)
      ensures Answered(sent, Told(WRITE, address), regs.fixed, View(), false)
    {
      sent := Reply(WRITE, address, false);
    }

    /** The acknowledgement goes out before anything is reset. */
    method WriteResetDev(value: bv8) returns (ghost sent: seq<Sent>)
      requires Steady()
      modifies `now, `cdcOut, `tcpOut, `log, `restarting, regs`opCtrl, regs.deviceName
      modifies regs`timestampSecond, regs`timestampMicro
      ensures Steady() && log == old(log) + sent
      ensures old(now) <= now && Timed(sent, old(now), now)
      ensures View() == if ResetRejected(value) then old(View()) else ResetWritten(old(View()), value)
      ensures restarting == (old(restarting) || (!ResetRejected(value) && Has(value, Scheduler.RST_DFU)))
      ensures Answered(sent, old(Told(if ResetRejected(value) then WRITE_ERROR else WRITE, RESET_DEV)), regs.fixed,
                       View(), false)
    {
      hide Wired;
      hide Answered;
      hide View;
      hide ResetWritten;
      hide Has;
      if Has(value, Scheduler.BOOT_DEF) || Has(value, Scheduler.BOOT_EE)
         || Has(value, Scheduler.RST_EE) || Has(value, Scheduler.SAVE) {
        sent := Refuse(RESET_DEV);
        return;
      }
      sent := AcknowledgeAndReset(value);
    }

    method AcknowledgeAndReset(value: bv8) returns (ghost sent: seq<Sent>)
      requires Steady() && !ResetRejected(value)
      modifies `now, `cdcOut, `tcpOut, `log, `restarting, regs`opCtrl, regs.deviceName
      modifies regs`timestampSecond, regs`timestampMicro
      ensures Steady() && log == old(log) + sent
      ensures old(now) <= now && Timed(sent, old(now), now)
      ensures View() == ResetWritten(old(View()), value)
      ensures restarting == (old(restarting) || Has(value, Scheduler.RST_DFU))
      ensures Answered(sent, old(Told(WRITE, RESET_DEV)), regs.fixed, View(), false)
    {
      hide Wired;
      hide Tells;
      hide ResetWritten;
      hide ResetRejected;
      sent := Reply(WRITE, RESET_DEV, false);
      ghost var acknowledged := View();
      Reset(value);
      StillTells(sent, old(Told(WRITE, RESET_DEV)), regs.fixed, acknowledged, View(), false);
    }

    method Reset(value: bv8)
      requires RegsOk() && !ResetRejected(value)
      modifies `restarting, regs`opCtrl, regs.deviceName
      ensures View() == ResetWritten(old(View()), value)
      ensures Scheduler.SameClock(old(Sched()), Sched()) && View().heartbeat == old(View().heartbeat)
      ensures restarting == (old(restarting) || Has(value, Scheduler.RST_DFU))
    {
      hide Scheduler.Step;
      if Has(value, Scheduler.NAME_TO_DEFAULT) {
        regs.deviceName[0] := 0;
        assert regs.deviceName[..] == [0] + old(regs.deviceName[..])[1..];
      }
      ResetMode(value);
    }

    method ResetMode(value: bv8)
      requires !ResetRejected(value)
      modifies `restarting, regs`opCtrl
      ensures Sched() == Scheduler.Step(old(Sched()), Scheduler.WriteResetDev(value)).s
      ensures restarting == (old(restarting) || Has(value, Scheduler.RST_DFU))
    {
      hide Scheduler.Step;
      Scheduler.ResetStep(Sched(), value);
      if Has(value, Scheduler.RST_DFU) {
        restarting := true;
      } else if Has(value, Scheduler.RST_DEF) {
        regs.opCtrl := regs.opCtrl & !Scheduler.OP_MODE;
      }
    }

    /** Reads out the registers first, first + 1, ..., past - 1, whatever their read handlers do. */
    method DumpRange(first: byte, past: byte) returns (ghost sent: seq<Sent>)
      requires Steady() && !Muted() && first <= past && forall a: byte :: first <= a < past ==> Mapped(a)
      modifies `now, `cdcOut, `tcpOut, `log, regs`timestampSecond, regs`timestampMicro
      ensures Steady() && log == old(log) + sent && View() == old(View())
      ensures old(now) <= now && Timed(sent, old(now), now)
      ensures Answered(sent, DumpOf(first, past, source), regs.fixed, View(), false)
    {
      hide Wired;
      hide View;
      hide Tells;
      sent := [];
      var address := first;
      while address < past
        invariant first <= address <= past
        invariant Steady() && log == old(log) + sent && View() == old(View())
        invariant old(now) <= now && Timed(sent, old(now), now)
        invariant Answered(sent, DumpOf(first, address, source), regs.fixed, View(), false)
      {
        label before:
        ghost var more := Reply(READ, address, false);
        TimedAppend(sent, more, old(now), old@before(now), now);
        AnsweredAppend(sent, more, DumpOf(first, address, source), [Head(READ, address, source)], regs.fixed, View(),
                       false);
        assert DumpOf(first, address + 1, source) == DumpOf(first, address, source) + [Head(READ, address, source)];
        Associative(old(log), sent, more);
        sent := sent + more;
        address := address + 1;
      }
    }

    /** The core block, then the extension block. */
    method DumpRegisters() returns (ghost sent: seq<Sent>)
      requires Steady() && !Muted()
      modifies `now, `cdcOut, `tcpOut, `log, regs`timestampSecond, regs`timestampMicro
      ensures Steady() && log == old(log) + sent && View() == old(View())
      ensures old(now) <= now && Timed(sent, old(now), now)
      ensures Answered(sent, Dump(source), regs.fixed, View(), false)
    {
      hide Wired;
      hide View;
      hide Tells;
      sent := DumpRange(0, CORE_REG_COUNT);
      label between:
      var extension := CORE_EXTENSION_START + CORE_EXTENSION_COUNT;
      ghost var more := DumpRange(CORE_EXTENSION_START, extension);
      TimedAppend(sent, more, old(now), old@between(now), now);
      AnsweredAppend(sent, more, DumpOf(0, CORE_REG_COUNT, source), DumpOf(CORE_EXTENSION_START, extension, source),
                     regs.fixed, View(), false);
      Associative(old(log), sent, more);
      sent := sent + more;
    }

    /** A mode that differs from the current one is forced through update_state. */
    method ForceMode(value: bv8) returns (ghost t: int, ghost host: bool, ghost events: seq<Sent>)
      requires Steady()
      modifies `now, `syncHandled, `disconnectHandled, `connectHandled, `interval, `next, `deadline
      modifies `cdcOut, `tcpOut, `log
      modifies regs`opCtrl, regs`heartbeat, regs`timestampSecond, regs`timestampMicro
      ensures Steady() && log == old(log) + events
      ensures old(now) <= t <= now && Timed(events, old(now), now)
      ensures View() == if Scheduler.Mode(value) != Scheduler.Mode(old(regs.opCtrl))
                        then Updated(old(View()), Some(Scheduler.Mode(value)), t, host) else old(View())
      ensures Announced(events, if Scheduler.Mode(value) != Scheduler.Mode(old(regs.opCtrl))
                                then WrappedDeadline.Update(old(Sched()), Some(Scheduler.Mode(value)), t, host).event
                                else None, regs.fixed, View())
    {
      hide Wired;
      hide Tells;
      hide Updated;
      hide WrappedDeadline.Update;
      hide Scheduler.Mode;
      t, host, events := now, false, [];
      var state := Scheduler.Mode(regs.opCtrl);
      var nextState := Scheduler.Mode(value);
      if state != nextState {
        t, host, events := UpdateState(Some(nextState));
      }
    }

    /** The acknowledgement of an accepted write, and the dump it may ask for. */
    method AcknowledgeOpCtrl(value: bv8) returns (ghost sent: seq<Sent>)
      requires Steady() && regs.opCtrl == value & !Scheduler.DUMP
      modifies `now, `cdcOut, `tcpOut, `log, regs`timestampSecond, regs`timestampMicro
      ensures Steady() && log == old(log) + sent && View() == old(View())
      ensures old(now) <= now && Timed(sent, old(now), now)
      ensures Answered(sent, OpCtrlAnswers(value, source), regs.fixed, View(), false)
    {
      hide Wired;
      hide View;
      hide Tells;
      sent := [];
      if Muted() {
        return;
      }
      sent := Reply(WRITE, OPERATION_CTRL, false);
      label between:
      if Has(value, Scheduler.DUMP) {
        ghost var more := DumpRegisters();
        TimedAppend(sent, more, old(now), old@between(now), now);
        AnsweredAppend(sent, more, [Head(WRITE, OPERATION_CTRL, source)], Dump(source), regs.fixed, View(), false);
        Associative(old(log), sent, more);
        sent := sent + more;
      }
    }

    method SetOpCtrl(value: bv8, ghost events: seq<Sent>, ghost event: Option<byte>)
      requires Steady() && Announced(events, event, regs.fixed, View())
      requires event.Some? ==> event.value == HEARTBEAT || event.value == TIMESTAMP_SECOND
      modifies regs`opCtrl
      ensures Steady() && regs.opCtrl == value & !Scheduler.DUMP
      ensures View() == old(View()).(sched := old(Sched()).(opCtrl := value & !Scheduler.DUMP))
      ensures Announced(events, event, regs.fixed, View())
    {
      hide Wired;
      hide Tells;
      regs.opCtrl := value & !Scheduler.DUMP;
      StillTells(events, if event.Some? then [Head(EVENT, event.value, NoSource)] else [], regs.fixed,
                 old(View()), View(), false);
    }

    /** SPEED is refused; any other mode is entered through update_state before the register takes the value. */
    method WriteOperationCtrl(value: bv8)
      returns (ghost t: int, ghost host: bool, ghost events: seq<Sent>, ghost sent: seq<Sent>)
      requires Steady()
      modifies `now, `syncHandled, `disconnectHandled, `connectHandled, `interval, `next, `deadline
      modifies `cdcOut, `tcpOut, `log
      modifies regs`opCtrl, regs`heartbeat, regs`timestampSecond, regs`timestampMicro
      ensures Steady() && log == old(log) + events + sent
      ensures old(now) <= t <= now && Timed(events + sent, old(now), now)
      ensures View() == if Scheduler.Mode(value) == Scheduler.SPEED then old(View())
                        else OpCtrlWritten(old(View()), value, t, host)
      ensures Announced(events, WrappedDeadline.FirmwareStep(old(Sched()), Scheduler.WriteOpCtrl(t, host, value)).event,
                        regs.fixed, View())
      ensures Answered(sent, if Scheduler.Mode(value) == Scheduler.SPEED then old(Told(WRITE_ERROR, OPERATION_CTRL))
                             else OpCtrlAnswers(value, source), regs.fixed, View(), false)
    {
      hide Wired;
      hide Tells;
      hide Updated;
      hide WrappedDeadline.Update;
      hide Scheduler.Mode;
      if Scheduler.Mode(value) == Scheduler.SPEED {
        t, host, events := now, false, [];
        sent := Refuse(OPERATION_CTRL);
        assert log == old(log) + events + sent && events + sent == sent;
        return;
      }
      t, host, events := ForceMode(value);
      label between:
      ghost var event := WrappedDeadline.FirmwareStep(old(Sched()), Scheduler.WriteOpCtrl(t, host, value)).event;
      WrappedDeadline.EventRegisters(old(Sched()), Scheduler.WriteOpCtrl(t, host, value));
      SetOpCtrl(value, events, event);
      sent := AcknowledgeOpCtrl(value);
      TimedAppend(events, sent, old(now), old@between(now), now);
    }

    // -------------------------------------------------------------------------------------------
    // Network registers
    // -------------------------------------------------------------------------------------------

    /** A string register takes the payload, but for its last byte, which stays NUL. */
    method CopyString(a: array<byte>, payload: seq<byte>)
      requires a.Length == |payload| > 0
      modifies a
      ensures a[..] == NetworkSettings.Terminate(payload)
    {
      CopyInto(a, payload);
      a[a.Length - 1] := 0;
    }

    method WriteNetSsid(payload: seq<byte>) returns (ghost sent: seq<Sent>)
      requires Steady() && |payload| == SSID_LENGTH
      modifies `now, `cdcOut, `tcpOut, `log, regs.netSsid, regs`timestampSecond, regs`timestampMicro
      ensures Steady() && log == old(log) + sent
      ensures old(now) <= now && Timed(sent, old(now), now)
      ensures View() == old(View()).(net := NetworkSettings.Change1(old(View()).net, NetworkSettings.SetSsid(payload)))
      ensures Answered(sent, Told(WRITE, NET_SSID), regs.fixed, View(), false)
    {
      hide Wired;
      hide Tells;
      CopyString(regs.netSsid, payload);
      sent := Reply(WRITE, NET_SSID, false);
    }

    method WriteNetPassword(payload: seq<byte>) returns (ghost sent: seq<Sent>)
      requires Steady() && |payload| == PASSWORD_LENGTH
      modifies `now, `cdcOut, `tcpOut, `log, regs.netPassword, regs`timestampSecond, regs`timestampMicro
      ensures Steady() && log == old(log) + sent
      ensures old(now) <= now && Timed(sent, old(now), now)
      ensures View() == old(View()).(
                net := NetworkSettings.Change1(old(View()).net, NetworkSettings.SetPassword(payload)))
      ensures Answered(sent, Told(WRITE, NET_PASSWORD), regs.fixed, View(), false)
    {
      hide Wired;
      hide Tells;
      CopyString(regs.netPassword, payload);
      sent := Reply(WRITE, NET_PASSWORD, false);
    }

    method WriteNetServerAddr(payload: seq<byte>) returns (ghost sent: seq<Sent>)
      requires Steady() && |payload| == SERVER_IP_LENGTH
      modifies `now, `cdcOut, `tcpOut, `log, regs.netServerIp, regs`timestampSecond, regs`timestampMicro
      ensures Steady() && log == old(log) + sent
      ensures old(now) <= now && Timed(sent, old(now), now)
      ensures View() == old(View()).(
                net := NetworkSettings.Change1(old(View()).net, NetworkSettings.SetServerIp(payload)))
      ensures Answered(sent, Told(WRITE, NET_SERVER_IP), regs.fixed, View(), false)
    {
      hide Wired;
      hide Tells;
      CopyString(regs.netServerIp, payload);
      sent := Reply(WRITE, NET_SERVER_IP, false);
    }

    method WriteNetServerPort(payload: seq<byte>) returns (ghost sent: seq<Sent>)
      requires Steady() && |payload| == 2
      modifies `now, `cdcOut, `tcpOut, `log, regs.netServerPort, regs`timestampSecond, regs`timestampMicro
      ensures Steady() && log == old(log) + sent
      ensures old(now) <= now && Timed(sent, old(now), now)
      ensures View() == old(View()).(net := NetworkSettings.Change1(old(View()).net, NetworkSettings.SetPort(payload)))
      ensures Answered(sent, Told(WRITE, NET_SERVER_PORT), regs.fixed, View(), false)
    {
      hide Wired;
      hide Tells;
      CopyInto(regs.netServerPort, payload);
      sent := Reply(WRITE, NET_SERVER_PORT, false);
    }

    /** Enable bits from the host, status bits kept; then APPLY, then CLEAR. */
    method ConfigureNet(value: bv8) returns (saved: bool, erased: bool)
      requires RegsOk()
      modifies net`cfg, net`slot, regs`netConfig, regs.netPassword
      ensures RegsOk()
      ensures net.View() == NetworkSettings.Configured(old(net.View()), value, saved, erased)
      ensures regs.netConfig & !NetworkSettings.ENABLE ==
                if Has(value, NetworkSettings.CLEAR) then 0 else old(regs.netConfig) & NetworkSettings.STATUS
    {
      saved, erased := false, false;
      regs.netConfig := (value & NetworkSettings.ENABLE) | (regs.netConfig & NetworkSettings.STATUS);
      if Has(value, NetworkSettings.APPLY) {
        saved := net.Apply();
      }
      if Has(value, NetworkSettings.CLEAR) {
        erased := net.Disconnect();
        regs.netConfig := 0;
      }
    }

    method WriteNetConfig(value: bv8) returns (ghost i: CommandInput, ghost sent: seq<Sent>)
      requires Steady()
      modifies `now, `cdcOut, `tcpOut, `log, regs`timestampSecond, regs`timestampMicro
      modifies net`cfg, net`slot, regs`netConfig, regs.netPassword
      ensures Steady() && log == old(log) + sent
      ensures old(now) <= now && Timed(sent, old(now), now)
      ensures Within(i, old(now), now)
      ensures Sized(old(View())) && View() == NetConfigWritten(old(View()), value, i.saved, i.erased)
      ensures Answered(sent, Told(WRITE, NET_CONFIG), regs.fixed, View(), false)
    {
      hide Wired;
      hide Tells;
      hide NetworkSettings.Configured;
      var saved, erased := ConfigureNet(value);
      i := CommandInput(now, now, now, now, false, saved, erased);
      sent := Reply(WRITE, NET_CONFIG, false);
    }

    // -------------------------------------------------------------------------------------------
    // Dispatch
    // -------------------------------------------------------------------------------------------

    lemma ViewIsSized()
      requires RegsOk()
      ensures Sized(View())
    {
    }

    lemma SchedInView()
      ensures Scheduler.Muted(View().sched) == Muted() && View().sched == Sched()
    {
    }

    method WriteNetConfigRegister(payload: seq<byte>) returns (ghost i: CommandInput, ghost sent: seq<Sent>)
      requires Steady() && |payload| == 1
      modifies `now, `cdcOut, `tcpOut, `log, regs`timestampSecond, regs`timestampMicro
      modifies net`cfg, net`slot, regs`netConfig, regs.netPassword
      ensures Steady() && log == old(log) + sent
      ensures Within(i, old(now), now) && Timed(sent, old(now), now)
      ensures Sized(old(View())) && Handled(old(View()), View(), NET_CONFIG, payload, i, [], sent, source, regs.fixed)
    {
      hide Wired;
      hide View;
      hide Handled;
      hide Answered;
      ViewIsSized();
      SchedInView();
      i, sent := WriteNetConfig(payload[0] as bv8);
      AcknowledgedIsHandled(old(View()), View(), NET_CONFIG, payload, i, sent, source, regs.fixed);
    }

    /** The handler table of the network registers. */
    method WriteNetRegister(address: byte, payload: seq<byte>) returns (ghost i: CommandInput, ghost sent: seq<Sent>)
      requires Steady() && IsExtension(address) && |payload| == NumBytes(address)
      modifies `now, `cdcOut, `tcpOut, `log, regs`timestampSecond, regs`timestampMicro
      modifies net`cfg, net`slot, regs`netConfig, regs.netSsid, regs.netPassword, regs.netServerIp, regs.netServerPort
      ensures Steady() && log == old(log) + sent
      ensures Within(i, old(now), now) && Timed(sent, old(now), now)
      ensures Sized(old(View())) && Handled(old(View()), View(), address, payload, i, [], sent, source, regs.fixed)
    {
      hide Wired;
      hide View;
      hide Handled;
      hide Answered;
      hide NetworkSettings.Change1;
      ViewIsSized();
      SchedInView();
      i := CommandInput(now, now, now, now, false, false, false);
      match address {
        case NET_SSID => sent := WriteNetSsid(payload);
        case NET_PASSWORD => sent := WriteNetPassword(payload);
        case NET_SERVER_IP => sent := WriteNetServerAddr(payload);
        case NET_SERVER_PORT => sent := WriteNetServerPort(payload);
        case _ =>
          i, sent := WriteNetConfigRegister(payload);
          return;
      }
      AcknowledgedIsHandled(old(View()), View(), address, payload, i, sent, source, regs.fixed);
    }

    method WriteOpCtrlRegister(payload: seq<byte>)
      returns (ghost i: CommandInput, ghost events: seq<Sent>, ghost sent: seq<Sent>)
      requires Steady() && |payload| == 1
      modifies `now, `syncHandled, `disconnectHandled, `connectHandled, `interval, `next, `deadline
      modifies `cdcOut, `tcpOut, `log
      modifies regs`opCtrl, regs`heartbeat, regs`timestampSecond, regs`timestampMicro
      ensures Steady() && log == old(log) + events + sent
      ensures Within(i, old(now), now) && Timed(events + sent, old(now), now)
      ensures Sized(old(View()))
      ensures Handled(old(View()), View(), OPERATION_CTRL, payload, i, events, sent, source, regs.fixed)
    {
      hide Wired;
      hide View;
      hide Answered;
      hide Announced;
      hide OpCtrlWritten;
      ViewIsSized();
      SchedInView();
      ghost var t, host;
      t, host, events, sent := WriteOperationCtrl(payload[0] as bv8);
      i := CommandInput(t, t, t, t, host, false, false);
      OpCtrlIsHandled(old(View()), View(), payload, i, events, sent, source, regs.fixed);
    }

    method WriteTimestampRegister(payload: seq<byte>) returns (ghost i: CommandInput, ghost sent: seq<Sent>)
      requires Steady() && |payload| == 4
      modifies `now, `offset, `next, `deadline, Syncs()`offset
      modifies `cdcOut, `tcpOut, `log, regs`timestampSecond, regs`timestampMicro
      ensures Steady() && log == old(log) + sent
      ensures Within(i, old(now), now) && Timed(sent, old(now), now)
      ensures Sized(old(View()))
      ensures Handled(old(View()), View(), TIMESTAMP_SECOND, payload, i, [], sent, source, regs.fixed)
    {
      hide Wired;
      hide View;
      hide Answered;
      hide Handled;
      ViewIsSized();
      SchedInView();
      i, sent := WriteTimestampSecond(FromLe32(payload));
      if Scheduler.Unlocked(old(Sched())) {
        AcknowledgedIsHandled(old(View()), View(), TIMESTAMP_SECOND, payload, i, sent, source, regs.fixed);
      } else {
        RefusedIsHandled(old(View()), TIMESTAMP_SECOND, payload, i, sent, source, regs.fixed);
      }
    }

    method WriteResetRegister(payload: seq<byte>) returns (ghost i: CommandInput, ghost sent: seq<Sent>)
      requires Steady() && |payload| == 1
      modifies `now, `restarting, regs`opCtrl, regs.deviceName
      modifies `cdcOut, `tcpOut, `log, regs`timestampSecond, regs`timestampMicro
      ensures Steady() && log == old(log) + sent
      ensures Within(i, old(now), now) && Timed(sent, old(now), now)
      ensures restarting == (old(restarting) || Restarts(RESET_DEV, payload))
      ensures Sized(old(View())) && Handled(old(View()), View(), RESET_DEV, payload, i, [], sent, source, regs.fixed)
    {
      hide Wired;
      hide View;
      hide Answered;
      hide Handled;
      ViewIsSized();
      SchedInView();
      i := CommandInput(now, now, now, now, false, false, false);
      sent := WriteResetDev(payload[0] as bv8);
      if ResetRejected(payload[0] as bv8) {
        RefusedIsHandled(old(View()), RESET_DEV, payload, i, sent, source, regs.fixed);
      } else {
        AcknowledgedIsHandled(old(View()), View(), RESET_DEV, payload, i, sent, source, regs.fixed);
      }
    }

    /** Registers whose write has at most an effect on themselves. */
    method WritePlainRegister(address: byte, payload: seq<byte>) returns (ghost i: CommandInput, ghost sent: seq<Sent>)
      requires Steady() && address < CORE_REG_COUNT && |payload| == NumBytes(address)
      requires address != OPERATION_CTRL && address != TIMESTAMP_SECOND && address != RESET_DEV
      modifies `now, `cdcOut, `tcpOut, `log, regs`timestampSecond, regs`timestampMicro
      modifies regs`clockConfig, regs`timestampOffset
      ensures Steady() && log == old(log) + sent
      ensures Within(i, old(now), now) && Timed(sent, old(now), now)
      ensures Sized(old(View())) && Handled(old(View()), View(), address, payload, i, [], sent, source, regs.fixed)
    {
      hide Wired;
      hide View;
      hide Answered;
      hide Handled;
      ViewIsSized();
      SchedInView();
      i := CommandInput(now, now, now, now, false, false, false);
      match address {
        case DEVICE_NAME => sent := WriteIgnored(DEVICE_NAME);
        case SERIAL_NUMBER => sent := WriteIgnored(SERIAL_NUMBER);
        case CLOCK_CONFIG => sent := WriteClockConfig(payload[0] as bv8);
        case TIMESTAMP_OFFSET => sent := WriteTimestampOffset();
        case _ =>
          sent := Refuse(address);
          RefusedIsHandled(old(View()), address, payload, i, sent, source, regs.fixed);
          return;
      }
      AcknowledgedIsHandled(old(View()), View(), address, payload, i, sent, source, regs.fixed);
    }

    /** The two handler tables, of the core block and of the extension block. */
    method WriteRegister(address: byte, payload: seq<byte>)
      returns (ghost i: CommandInput, ghost events: seq<Sent>, ghost sent: seq<Sent>)
      requires Steady() && Mapped(address) && |payload| == NumBytes(address)
      modifies `now, `offset, `next, `deadline, `restarting, Syncs()`offset
      modifies `syncHandled, `disconnectHandled, `connectHandled, `interval, `cdcOut, `tcpOut, `log
      modifies regs, regs.deviceName, regs.netSsid, regs.netPassword, regs.netServerIp, regs.netServerPort, net
      ensures Steady() && log == old(log) + events + sent
      ensures Within(i, old(now), now) && Timed(events + sent, old(now), now)
      ensures restarting == (old(restarting) || Restarts(address, payload))
      ensures Sized(old(View()))
      ensures Handled(old(View()), View(), address, payload, i, events, sent, source, regs.fixed)
    {
      hide Wired;
      hide View;
      hide Handled;
      events := [];
      match address {
        case TIMESTAMP_SECOND => i, sent := WriteTimestampRegister(payload);
        case OPERATION_CTRL => i, events, sent := WriteOpCtrlRegister(payload);
        case RESET_DEV => i, sent := WriteResetRegister(payload);
        case _ =>
          if address < CORE_REG_COUNT {
            i, sent := WritePlainRegister(address, payload);
          } else {
            i, sent := WriteNetRegister(address, payload);
          }
      }
      if address != OPERATION_CTRL {
        assert old(log) + events == old(log) && events + sent == sent;
      }
    }

    /** An error reply to a READ or WRITE, and none to anything else. */
    method RefuseCommand(kind: byte, address: byte) returns (ghost sent: seq<Sent>)
      requires Steady()
      modifies `now, `cdcOut, `tcpOut, `log, regs`timestampSecond, regs`timestampMicro
      ensures Steady() && log == old(log) + sent && View() == old(View())
      ensures old(now) <= now && Timed(sent, old(now), now)
      ensures Answered(sent, if kind == READ || kind == WRITE then Told(ErrorOf(kind), address) else [],
                       regs.fixed, View(), kind == READ)
    {
      hide Wired;
      hide View;
      hide Tells;
      sent := [];
      if kind == READ {
        sent := Reply(READ_ERROR, address, true);
      } else if kind == WRITE {
        sent := Reply(WRITE_ERROR, address, false);
      }
    }

    /** A message that is not a well-typed write leaves the state alone. */
    method HandleOther(kind: byte, address: byte, wellTyped: bool)
      returns (ghost i: CommandInput, ghost sent: seq<Sent>)
      requires Steady() && Dispatchable(pending)
      requires kind == pending[0] && address == pending[2] && wellTyped == WellTyped(pending)
      requires kind != WRITE || !wellTyped
      modifies `now, `cdcOut, `tcpOut, `log, regs`timestampSecond, regs`timestampMicro
      ensures Steady() && log == old(log) + sent && View() == old(View())
      ensures Within(i, old(now), now) && Timed(sent, old(now), now)
      ensures Sized(old(View())) && Obeyed(old(View()), View(), pending, i, [], sent, source, regs.fixed)
    {
      hide Wired;
      hide View;
      hide Answered;
      hide Obeyed;
      ViewIsSized();
      SchedInView();
      i := CommandInput(now, now, now, now, false, false, false);
      if kind == READ && wellTyped {
        sent := Read(address);
      } else if wellTyped {
        sent := [];
        NothingIsAnswered(regs.fixed, View());
      } else {
        sent := RefuseCommand(kind, address);
      }
      OtherIsObeyed(old(View()), pending, i, sent, source, regs.fixed);
    }

    /** get_buffered_msg: the header fields of the pending message. */
    method BufferedHeader() returns (kind: byte, rawLength: byte, address: byte, payloadType: byte)
      requires RxOk() && newMsg
      ensures kind == pending[0] && rawLength == pending[1] && address == pending[2] && payloadType == pending[4]
    {
      var data := active.data;
      assert active.data[..|pending|] == pending;
      kind, rawLength, address, payloadType := data[0], data[1], data[2], data[4];
    }

    /** get_buffered_msg: the payload, as long as the register it is meant for. */
    method BufferedPayload() returns (payload: seq<byte>)
      requires RxOk() && newMsg && pending[0] == WRITE && WellTyped(pending)
      ensures payload == Payload(pending)
    {
      AcceptedWriteIsComplete(pending);
      var data := active.data;
      assert active.data[..|pending|] == pending;
      var base := PayloadBase(data[4]);
      payload := data[base..base + NumBytes(data[2])];
      SliceOfPrefix(data[..], |pending|, HEADER_SIZE, HEADER_SIZE + NumBytes(data[2]));
    }

    /** A well-typed write. */
    method HandleWrite() returns (ghost i: CommandInput, ghost events: seq<Sent>, ghost sent: seq<Sent>)
      requires Steady() && RxOk() && newMsg && !restarting && pending[0] == WRITE && WellTyped(pending)
      modifies `now, `offset, `next, `deadline, `restarting, Syncs()`offset
      modifies `syncHandled, `disconnectHandled, `connectHandled, `interval, `cdcOut, `tcpOut, `log
      modifies regs, regs.deviceName, regs.netSsid, regs.netPassword, regs.netServerIp, regs.netServerPort, net
      ensures Steady() && log == old(log) + events + sent
      ensures Within(i, old(now), now) && Timed(events + sent, old(now), now)
      ensures Sized(old(View())) && Obeyed(old(View()), View(), pending, i, events, sent, source, regs.fixed)
      ensures restarting == Restarts(pending[2], Payload(pending))
    {
      hide Wired;
      hide View;
      hide Handled;
      hide Obeyed;
      hide Restarts;
      ViewIsSized();
      var kind, rawLength, address, payloadType := BufferedHeader();
      var payload := BufferedPayload();
      AcceptedWriteIsComplete(pending);
      i, events, sent := WriteRegister(address, payload);
      WriteIsObeyed(old(View()), View(), pending, i, events, sent, source, regs.fixed);
    }

    /** Checks and dispatch of the pending message; an unmapped address gets its error from run(). */
    method HandleBufferedMessage() returns (ghost i: CommandInput, ghost events: seq<Sent>, ghost sent: seq<Sent>)
      requires Steady() && RxOk() && newMsg && !restarting
      modifies `now, `offset, `next, `deadline, `restarting, Syncs()`offset
      modifies `syncHandled, `disconnectHandled, `connectHandled, `interval, `cdcOut, `tcpOut, `log
      modifies regs, regs.deviceName, regs.netSsid, regs.netPassword, regs.netServerIp, regs.netServerPort, net
      ensures Steady() && log == old(log) + events + sent
      ensures Within(i, old(now), now) && Timed(events + sent, old(now), now)
      ensures Sized(old(View())) && Obeyed(old(View()), View(), pending, i, events, sent, source, regs.fixed)
      ensures restarting == CommandRestarts(pending)
    {
      hide Wired;
      hide View;
      hide Obeyed;
      hide Restarts;
      events := [];
      var kind, rawLength, address, payloadType := BufferedHeader();
      var wellTyped := Mapped(address) && payloadType == RegType(address)
                       && (kind == WRITE ==> PayloadLength(rawLength, payloadType) == NumBytes(address));
      if kind == WRITE && wellTyped {
        i, events, sent := HandleWrite();
      } else {
        i, sent := HandleOther(kind, address, wellTyped);
        assert old(log) + events == old(log) && events + sent == sent;
      }
    }

    // -------------------------------------------------------------------------------------------
    // The main loop
    // -------------------------------------------------------------------------------------------

    ghost predicate Ready()
      reads `now, `next, `deadline, `cdcOut, `tcpOut, `log, net`slot
      reads `newMsg, `source, `active, `pending, `restarting, tcpRx, tcpRx.data, cdcRx, cdcRx.data
    {
      Steady() && RxOk() && !newMsg && !restarting
    }

    /** Wi-Fi and TCP flags are sampled from the other threads. */
    method RefreshNetConfigStatusBits() returns (wifi: bool, tcp: bool)
      requires RegsOk()
      modifies regs`netConfig
      ensures Sized(old(View())) && View() == old(View()).(netStatus := StatusOf(old(View()).net, wifi, tcp))
    {
      wifi, tcp := *, *;
      var enableBits := regs.netConfig & NetworkSettings.ENABLE;
      var statusBits: bv8 := 0;
      if regs.netSsid[0] != 0 && regs.netServerIp[0] != 0 {
        statusBits := NetworkSettings.STATUS_CFG_VALID;
      }
      if wifi {
        statusBits := statusBits | NetworkSettings.STATUS_WIFI_UP | NetworkSettings.STATUS_IP_OK;
      }
      if tcp {
        statusBits := statusBits | NetworkSettings.STATUS_TCP_CONN;
      }
      regs.netConfig := enableBits | (statusBits & NetworkSettings.STATUS);
    }

    /** The part of run() before the transports are polled. */
    method RunUpdates() returns (ghost i: TickInput, ghost ticked: seq<Sent>)
      requires Steady()
      modifies `now, `syncHandled, `disconnectHandled, `connectHandled, `interval, `next, `deadline
      modifies `cdcOut, `tcpOut, `log
      modifies regs`opCtrl, regs`heartbeat, regs`netConfig, regs`timestampSecond, regs`timestampMicro
      ensures Steady() && log == old(log) + ticked
      ensures old(now) <= i.t <= now && Timed(ticked, old(now), now)
      ensures Sized(old(View())) && Ticking(old(View()), View(), i, ticked, regs.fixed)
    {
      hide Wired;
      hide Tells;
      hide WrappedDeadline.Update;
      ViewIsSized();
      ghost var t, host;
      t, host, ticked := UpdateState(None);
      ghost var updated := View();
      RefreshHeartbeatRegister();
      var wifi, tcp := RefreshNetConfigStatusBits();
      i := TickInput(t, host, wifi, tcp);
      TickTells(ticked, old(View()), updated, View(), t, host);
    }

    lemma TickTells(ticked: seq<Sent>, c: Core, updated: Core, after: Core, t: int, host: bool)
      requires RegsOk() && updated == Updated(c, None, t, host)
      requires after == updated.(heartbeat := HeartbeatOf(updated.sched), netStatus := after.netStatus)
      requires Announced(ticked, WrappedDeadline.Update(c.sched, None, t, host).event, regs.fixed, updated)
      ensures Announced(ticked, WrappedDeadline.FirmwareStep(c.sched, Scheduler.Tick(t, host)).event, regs.fixed, after)
    {
      var event := WrappedDeadline.Update(c.sched, None, t, host).event;
      if event.Some? {
        WrappedDeadline.EventRegisters(c.sched, Scheduler.Tick(t, host));
        StillTells(ticked, [Head(EVENT, event.value, NoSource)], regs.fixed, updated, after, false);
      }
    }

    /** Dispatch of the pending message, after which none is pending, unless the chip is restarting. */
    method RunCommand() returns (ghost i: CommandInput, ghost events: seq<Sent>, ghost sent: seq<Sent>)
      requires Steady() && RxOk() && newMsg && !restarting
      modifies `now, `offset, `next, `deadline, `restarting, Syncs()`offset
      modifies `syncHandled, `disconnectHandled, `connectHandled, `interval, `cdcOut, `tcpOut, `log
      modifies `newMsg, `active, `source
      modifies regs, regs.deviceName, regs.netSsid, regs.netPassword, regs.netServerIp, regs.netServerPort, net
      ensures Steady() && RxOk() && newMsg == restarting
      ensures log == old(log) + events + sent
      ensures Within(i, old(now), now) && Timed(events + sent, old(now), now)
      ensures Sized(old(View())) && Obeyed(old(View()), View(), pending, i, events, sent, old(source), regs.fixed)
      ensures restarting == CommandRestarts(pending)
    {
      hide Wired;
      hide View;
      hide Obeyed;
      hide CommandRestarts;
      i, events, sent := HandleBufferedMessage();
      if !restarting {
        ClearMsg();
      }
    }

    /** The part of run() after update_state. */
    method RunMessages(a: Arrival)
      returns (ghost i: CommandInput, ghost received: seq<Received>, ghost events: seq<Sent>, ghost sent: seq<Sent>)
      requires Ready()
      modifies `now, `offset, `next, `deadline, `restarting, Syncs()`offset
      modifies `syncHandled, `disconnectHandled, `connectHandled, `interval, `cdcOut, `tcpOut, `log
      modifies `newMsg, `active, `source, `pending, tcpRx, tcpRx.data, cdcRx, cdcRx.data
      modifies regs, regs.deviceName, regs.netSsid, regs.netPassword, regs.netServerIp, regs.netServerPort, net
      ensures Steady() && RxOk() && newMsg == restarting
      ensures Poll(old(tcpRx.Buffered()), old(cdcRx.Buffered()), a)
              == Pair(tcpRx.Buffered(), cdcRx.Buffered(), received)
      ensures log == old(log) + events + sent
      ensures Within(i, old(now), now) && Timed(events + sent, old(now), now)
      ensures Sized(old(View())) && Answering(old(View()), View(), received, i, events, sent, regs.fixed)
      ensures restarting == EndsInRestart(received)
    {
      hide Wired;
      hide View;
      hide Obeyed;
      hide CommandRestarts;
      hide Dispatchable;
      hide Feed;
      ViewIsSized();
      received := PollTransports(a);
      i, events, sent := CommandInput(now, now, now, now, false, false, false), [], [];
      if newMsg {
        i, events, sent := RunCommand();
      }
    }

    /**
     * One pass of the main loop: what it receives is what the two framers deliver, what it does to
     * the state is Passed, what it sends is the tick's event and then the answers to the message.
     */
    method Run(a: Arrival)
      returns (ghost p: Pass, ghost received: seq<Received>, ghost ticked: seq<Sent>, ghost events: seq<Sent>,
               ghost sent: seq<Sent>)
      requires Ready()
      modifies `now, `offset, `next, `deadline, `restarting, Syncs()`offset
      modifies `syncHandled, `disconnectHandled, `connectHandled, `interval, `cdcOut, `tcpOut, `log
      modifies `newMsg, `active, `source, `pending, tcpRx, tcpRx.data, cdcRx, cdcRx.data
      modifies regs, regs.deviceName, regs.netSsid, regs.netPassword, regs.netServerIp, regs.netServerPort, net
      ensures Steady() && RxOk() && newMsg == restarting
      ensures Poll(old(tcpRx.Buffered()), old(cdcRx.Buffered()), a)
              == Pair(tcpRx.Buffered(), cdcRx.Buffered(), received)
      ensures log == old(log) + ticked + (events + sent)
      ensures old(now) <= p.tick.t && Within(p.command, p.tick.t, now) && Timed(ticked + (events + sent), old(now), now)
      ensures Sized(old(View())) && View() == Passed(old(View()), received, p)
      ensures Sized(Ticked(old(View()), p.tick))
      ensures Ticking(old(View()), Ticked(old(View()), p.tick), p.tick, ticked, regs.fixed)
      ensures Answering(Ticked(old(View()), p.tick), View(), received, p.command, events, sent, regs.fixed)
      ensures restarting == EndsInRestart(received)
    {
      hide Wired;
      hide View;
      hide Ticked;
      hide EndsInRestart;
      hide Announced;
      hide Poll;
      hide Executed;
      ViewIsSized();
      ghost var tick, i;
      tick, ticked := RunUpdates();
      label updated:
      ViewIsSized();
      i, received, events, sent := RunMessages(a);
      p := Pass(tick, i);
      TimedAppend(ticked, events + sent, old(now), old@updated(now), now);
      Associative(old(log) + ticked, events, sent);
    }
  }
}
