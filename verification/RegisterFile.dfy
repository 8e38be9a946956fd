/** What an accepted write does to the register file, register by register. */
module RegisterFile {
  import opened Basics
  import opened HarpMessage
  import opened CoreRegisters
  import opened Framing
  import opened Commands
  import opened CoreState
  import Scheduler
  import WrappedDeadline
  import NetworkSettings

  /** A write of `address` may change the image of `other`. */
  predicate Touches(address: byte, other: byte) {
    || other == address
    || (address == OPERATION_CTRL && other == HEARTBEAT)
    || (address == RESET_DEV && (other == OPERATION_CTRL || other == DEVICE_NAME))
    || (address == NET_CONFIG && other == NET_PASSWORD)
  }

  /** Two states agree on what is behind a register. */
  predicate AgreeOn(a: Core, b: Core, address: byte)
    requires Mapped(address)
  {
    match address
    case OPERATION_CTRL => a.sched.opCtrl == b.sched.opCtrl
    case DEVICE_NAME => a.deviceName == b.deviceName
    case CLOCK_CONFIG => a.sched.clockConfig == b.sched.clockConfig
    case TIMESTAMP_OFFSET => a.timestampOffset == b.timestampOffset
    case HEARTBEAT => a.heartbeat == b.heartbeat
    case NET_SSID => a.net.ssid == b.net.ssid
    case NET_PASSWORD => a.net.password == b.net.password
    case NET_SERVER_IP => a.net.serverIp == b.net.serverIp
    case NET_SERVER_PORT => a.net.port == b.net.port
    case NET_CONFIG => a.net.enable == b.net.enable && a.netStatus == b.netStatus
    case _ => true
  }

  lemma AgreementShows(fixed: FixedRegisters, a: Core, b: Core, harpTime: uint64, address: byte)
    requires FixedOk(fixed) && Mapped(address) && AgreeOn(a, b, address)
    ensures Image(fixed, a, harpTime, address) == Image(fixed, b, harpTime, address)
  {
  }

  /** Apart from these couplings a write leaves every other register as it was. */
  lemma OnlyTheAddressedRegister(fixed: FixedRegisters, c: Core, frame: seq<byte>, i: CommandInput, harpTime: uint64,
                                 other: byte)
    requires FixedOk(fixed) && Sized(c) && Dispatchable(frame) && Mapped(other)
    requires !Touches(frame[2], other)
    ensures Image(fixed, Executed(c, frame, i), harpTime, other) == Image(fixed, c, harpTime, other)
  {
    hide Written;
    hide Image;
    hide Scheduler.Unlocked;
    if Accepted(frame, Scheduler.Unlocked(c.sched)) {
      WriteLeavesOthers(c, frame[2], Payload(frame), i);
      if frame[2] == NET_CONFIG {
        ConfigLeavesStrings(c, Payload(frame), i);
      }
      AgreementShows(fixed, Executed(c, frame, i), c, harpTime, other);
    }
  }

  /** The parts of the state behind the registers. */
  lemma WriteLeavesOthers(c: Core, address: byte, payload: seq<byte>, i: CommandInput)
    requires Sized(c) && Mapped(address) && |payload| == NumBytes(address)
    ensures var after := Written(c, address, payload, i);
            && (address != OPERATION_CTRL && address != RESET_DEV ==> after.sched.opCtrl == c.sched.opCtrl)
            && (address != CLOCK_CONFIG ==> after.sched.clockConfig == c.sched.clockConfig)
            && (address != RESET_DEV ==> after.deviceName == c.deviceName)
            && (address != TIMESTAMP_OFFSET ==> after.timestampOffset == c.timestampOffset)
            && (address != OPERATION_CTRL ==> after.heartbeat == c.heartbeat)
            && (address != NET_SSID && address != NET_CONFIG ==> after.net.ssid == c.net.ssid)
            && (address != NET_PASSWORD && address != NET_CONFIG ==> after.net.password == c.net.password)
            && (address != NET_SERVER_IP && address != NET_CONFIG ==> after.net.serverIp == c.net.serverIp)
            && (address != NET_SERVER_PORT && address != NET_CONFIG ==> after.net.port == c.net.port)
            && (address != NET_CONFIG ==> after.net.enable == c.net.enable && after.netStatus == c.netStatus)
  {
    hide Updated;
    hide NetworkSettings.Configured;
    hide NetworkSettings.Terminate;
    hide Scheduler.Realign;
    hide Scheduler.NextClockConfig;
    hide Scheduler.WithMode;
    if address == OPERATION_CTRL {
      OpCtrlLeavesOthers(c, payload[0] as bv8, i.t1, i.host);
    } else if address == TIMESTAMP_SECOND {
      TimestampLeavesRegisters(c.sched, i, FromLe32(payload));
    }
  }

  lemma TimestampLeavesRegisters(s: Scheduler.Sched, i: CommandInput, seconds: uint32)
    ensures var after := Scheduler.Step(s, Scheduler.WriteTimestamp(i.t1, i.t2, i.t3, i.t4, seconds)).s;
            after.opCtrl == s.opCtrl && after.clockConfig == s.clockConfig
  {
  }

  lemma OpCtrlLeavesOthers(c: Core, value: bv8, t: int, host: bool)
    ensures var after := OpCtrlWritten(c, value, t, host);
            && after.sched.clockConfig == c.sched.clockConfig
            && after.net == c.net && after.netStatus == c.netStatus
            && after.deviceName == c.deviceName && after.timestampOffset == c.timestampOffset
  {
    hide Scheduler.Mode;
    hide Scheduler.WithMode;
    hide Scheduler.NextMode;
    hide WrappedDeadline.Due;
  }

  lemma ConfigLeavesStrings(c: Core, payload: seq<byte>, i: CommandInput)
    requires Sized(c) && |payload| == 1
    ensures var after := Written(c, NET_CONFIG, payload, i);
            && after.net.ssid == c.net.ssid && after.net.serverIp == c.net.serverIp && after.net.port == c.net.port
            && after.sched == c.sched && after.deviceName == c.deviceName
            && after.timestampOffset == c.timestampOffset && after.heartbeat == c.heartbeat
  {
    hide NetworkSettings.Configured;
    ConfiguredLeavesStrings(c.net, payload[0] as bv8, i.saved, i.erased);
  }

  lemma ConfiguredLeavesStrings(s: NetworkSettings.Settings, value: bv8, saved: bool, erased: bool)
    requires |s.port| == 2
    ensures var after := NetworkSettings.Configured(s, value, saved, erased);
            after.ssid == s.ssid && after.serverIp == s.serverIp && after.port == s.port
  {
    hide Has;
    hide NetworkSettings.Snapshot;
  }

  /** Only the two timestamp registers depend on when they are looked at. */
  lemma ClockRegistersAreTheRest(fixed: FixedRegisters, c: Core, harpTime: uint64, later: uint64, address: byte)
    requires FixedOk(fixed) && Mapped(address) && address != TIMESTAMP_SECOND && address != TIMESTAMP_MICRO
    ensures Image(fixed, c, harpTime, address) == Image(fixed, c, later, address)
  {
  }

  /** So whenever they are looked at, all registers but these two and those a write touches stay as they were. */
  lemma OthersStayAsTheyWere(fixed: FixedRegisters, c: Core, frame: seq<byte>, i: CommandInput,
                             harpTime: uint64, later: uint64, other: byte)
    requires FixedOk(fixed) && Sized(c) && Dispatchable(frame) && Mapped(other)
    requires !Touches(frame[2], other) && other != TIMESTAMP_SECOND && other != TIMESTAMP_MICRO
    ensures Image(fixed, Executed(c, frame, i), later, other) == Image(fixed, c, harpTime, other)
  {
    hide Executed;
    hide Image;
    OnlyTheAddressedRegister(fixed, c, frame, i, harpTime, other);
    ClockRegistersAreTheRest(fixed, Executed(c, frame, i), harpTime, later, other);
  }

  /** What a READ shows of a string, the port, and of registers a host cannot set. */
  predicate PlainReadsBack(before: seq<byte>, address: byte, payload: seq<byte>, shown: seq<byte>)
    requires Mapped(address) && |payload| == NumBytes(address)
  {
    && (address == NET_SSID || address == NET_PASSWORD || address == NET_SERVER_IP ==>
          shown == payload[..|payload| - 1] + [0])
    && (address == NET_SERVER_PORT ==> shown == payload)
    && (address == TIMESTAMP_OFFSET ==> shown == [0])
    && (address == DEVICE_NAME || address == SERIAL_NUMBER || address == RESET_DEV ==> shown == before)
  }

  lemma PlainWritesReadBack(fixed: FixedRegisters, c: Core, frame: seq<byte>, i: CommandInput, harpTime: uint64)
    requires FixedOk(fixed) && Sized(c) && Dispatchable(frame) && Accepted(frame, Scheduler.Unlocked(c.sched))
    ensures PlainReadsBack(Image(fixed, c, harpTime, frame[2]), frame[2], Payload(frame),
                           Image(fixed, Executed(c, frame, i), harpTime, frame[2]))
  {
    hide Updated;
    hide NetworkSettings.Configured;
    hide Scheduler.Realign;
    hide Scheduler.NextClockConfig;
  }

  /** What a READ shows of the three control registers. */
  predicate ControlReadsBack(c: Core, address: byte, value: bv8, shown: bv8) {
    && (address == OPERATION_CTRL ==>
          shown | Scheduler.DUMP == value | Scheduler.DUMP && !Has(shown, Scheduler.DUMP))
    && (address == CLOCK_CONFIG ==>
          && Scheduler.SameCapabilities(c.sched.clockConfig, shown)
          && (Has(shown, Scheduler.CLK_REP) <==> Has(value, Scheduler.CLK_REP))
          && (Has(shown, Scheduler.CLK_GEN) <==> Has(value, Scheduler.CLK_GEN))
          && (Has(value, Scheduler.LOCK) ==> Has(shown, Scheduler.LOCK) && !Has(shown, Scheduler.UNLOCK))
          && (!Has(value, Scheduler.LOCK) && Has(value, Scheduler.UNLOCK) ==>
                !Has(shown, Scheduler.LOCK) && Has(shown, Scheduler.UNLOCK)))
    && (address == NET_CONFIG ==>
          if Has(value, NetworkSettings.CLEAR) then shown == 0
          else && shown & NetworkSettings.ENABLE == value & NetworkSettings.ENABLE
               && shown & NetworkSettings.STATUS == c.netStatus & NetworkSettings.STATUS
               && !Has(shown, NetworkSettings.APPLY))
  }

  lemma OpCtrlReadsBack(c: Core, value: bv8)
    ensures ControlReadsBack(c, OPERATION_CTRL, value, value & !Scheduler.DUMP)
  {
    Scheduler.DumpIsCleared(value);
  }

  lemma ClockConfigReadsBack(c: Core, value: bv8)
    ensures ControlReadsBack(c, CLOCK_CONFIG, value, Scheduler.NextClockConfig(c.sched.clockConfig, value))
  {
    hide Scheduler.NextClockConfig;
    Scheduler.ClockConfigStep(c.sched.clockConfig, value);
  }

  lemma ConfigBits(enable: bv8, status: bv8, value: bv8)
    requires enable == value & NetworkSettings.ENABLE
    ensures var shown := enable | (status & NetworkSettings.STATUS);
            && shown & NetworkSettings.ENABLE == value & NetworkSettings.ENABLE
            && shown & NetworkSettings.STATUS == status & NetworkSettings.STATUS
            && !Has(shown, NetworkSettings.APPLY)
  {
  }

  lemma NetConfigReadsBack(c: Core, value: bv8, saved: bool, erased: bool)
    requires Sized(c)
    ensures var after := NetConfigWritten(c, value, saved, erased);
            ControlReadsBack(c, NET_CONFIG, value, after.net.enable | after.netStatus)
  {
    ConfigBits(value & NetworkSettings.ENABLE, c.netStatus, value);
  }

  /** After an accepted write of a control register a READ shows what was asked for, as far as a host may ask. */
  lemma ControlWritesReadBack(fixed: FixedRegisters, c: Core, frame: seq<byte>, i: CommandInput, harpTime: uint64)
    requires FixedOk(fixed) && Sized(c) && Dispatchable(frame) && Accepted(frame, Scheduler.Unlocked(c.sched))
    requires frame[2] == OPERATION_CTRL || frame[2] == CLOCK_CONFIG || frame[2] == NET_CONFIG
    ensures var shown := Image(fixed, Executed(c, frame, i), harpTime, frame[2]);
            |shown| == 1 && ControlReadsBack(c, frame[2], Payload(frame)[0] as bv8, shown[0] as bv8)
  {
    hide Image;
    hide Executed;
    hide ControlReadsBack;
    hide WellTyped;
    hide Accepts;
    var value := Payload(frame)[0] as bv8;
    if frame[2] == OPERATION_CTRL {
      OpCtrlReadsBack(c, value);
      SameBits(value & !Scheduler.DUMP);
      OpCtrlImage(fixed, c, frame, i, harpTime);
    } else if frame[2] == CLOCK_CONFIG {
      ClockConfigReadsBack(c, value);
      SameBits(Scheduler.NextClockConfig(c.sched.clockConfig, value));
      ClockConfigImage(fixed, c, frame, i, harpTime);
    } else {
      NetConfigReadsBack(c, value, i.saved, i.erased);
      var after := NetConfigWritten(c, value, i.saved, i.erased);
      SameBits(after.net.enable | after.netStatus);
      NetConfigImage(fixed, c, frame, i, harpTime);
    }
  }

  lemma OpCtrlImage(fixed: FixedRegisters, c: Core, frame: seq<byte>, i: CommandInput, harpTime: uint64)
    requires FixedOk(fixed) && Sized(c) && Dispatchable(frame) && Accepted(frame, Scheduler.Unlocked(c.sched))
    requires frame[2] == OPERATION_CTRL
    ensures Image(fixed, Executed(c, frame, i), harpTime, OPERATION_CTRL)
         == [((Payload(frame)[0] as bv8) & !Scheduler.DUMP) as byte]
  {
    hide Updated;
    hide Accepted;
  }

  lemma ClockConfigImage(fixed: FixedRegisters, c: Core, frame: seq<byte>, i: CommandInput, harpTime: uint64)
    requires FixedOk(fixed) && Sized(c) && Dispatchable(frame) && Accepted(frame, Scheduler.Unlocked(c.sched))
    requires frame[2] == CLOCK_CONFIG
    ensures Image(fixed, Executed(c, frame, i), harpTime, CLOCK_CONFIG)
         == [Scheduler.NextClockConfig(c.sched.clockConfig, Payload(frame)[0] as bv8) as byte]
  {
    hide Scheduler.NextClockConfig;
    hide Accepted;
  }

  lemma NetConfigImage(fixed: FixedRegisters, c: Core, frame: seq<byte>, i: CommandInput, harpTime: uint64)
    requires FixedOk(fixed) && Sized(c) && Dispatchable(frame) && Accepted(frame, Scheduler.Unlocked(c.sched))
    requires frame[2] == NET_CONFIG
    ensures var after := NetConfigWritten(c, Payload(frame)[0] as bv8, i.saved, i.erased);
            Image(fixed, Executed(c, frame, i), harpTime, NET_CONFIG) == [(after.net.enable | after.netStatus) as byte]
  {
    hide NetConfigWritten;
    hide Accepts;
    hide WellTyped;
    hide Image;
    ConfigImage(fixed, NetConfigWritten(c, Payload(frame)[0] as bv8, i.saved, i.erased), harpTime);
  }

  lemma ConfigImage(fixed: FixedRegisters, c: Core, harpTime: uint64)
    requires FixedOk(fixed)
    ensures Image(fixed, c, harpTime, NET_CONFIG) == [(c.net.enable | c.netStatus) as byte]
  {
  }

  /** The clock that a TIMESTAMP_SECOND write set runs on: what a READ shows at a later time t. */
  lemma TimestampReadsBack(fixed: FixedRegisters, c: Core, frame: seq<byte>, i: CommandInput, t: int)
    requires FixedOk(fixed) && Sized(c) && Dispatchable(frame) && Accepted(frame, Scheduler.Unlocked(c.sched))
    requires frame[2] == TIMESTAMP_SECOND && 0 <= i.t1 && Within(i, i.t1, t) && t < TWO_64 / 2
    ensures var after := Executed(c, frame, i);
            var elapsed := t - (if c.sched.sync.Some? then i.t2 else i.t3);
            var fraction := Scheduler.HarpTime(c.sched, i.t1) % Scheduler.SECOND;
            && Image(fixed, after, Scheduler.HarpTime(after.sched, t), TIMESTAMP_SECOND)
               == Le32(Wrap32(FromLe32(Payload(frame)) + (fraction + elapsed) / Scheduler.SECOND))
            && (fraction + elapsed < Scheduler.SECOND ==>
                  Image(fixed, after, Scheduler.HarpTime(after.sched, t), TIMESTAMP_SECOND) == Payload(frame))
  {
    hide Le32;
    hide FromLe32;
    hide Scheduler.Step;
    hide Scheduler.HarpTime;
    var seconds := FromLe32(Payload(frame));
    Scheduler.ClockRunsOnFromWrite(c.sched, i.t1, i.t2, i.t3, i.t4, seconds, t);
    Le32Inverts(Payload(frame));
  }
}
