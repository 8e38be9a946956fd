/** The register map by address and by bit: what exists, what can be written, and what the bits say. */
module RegisterMap {
  import opened Basics
  import opened HarpMessage
  import opened CoreRegisters
  import opened Framing
  import opened Commands
  import opened CoreState
  import Scheduler
  import WrappedDeadline
  import NetworkSettings
  import Replies

  // ---------------------------------------------------------------------------------------------
  // Addresses
  // ---------------------------------------------------------------------------------------------

  /** Addresses 0 to 19 and 32 to 36, with their sizes in bytes; six are of 16 bits and one of 32 bits. */
  lemma MapByAddress(address: byte)
    ensures Mapped(address) <==> address < 20 || 32 <= address <= 36
    ensures address < 20 ==>
              NumBytes(address) == [2, 1, 1, 1, 1, 1, 1, 1, 4, 2, 1, 1, 25, 2, 1, 1, 16, 8, 2, 32][address]
    ensures 32 <= address <= 36 ==> NumBytes(address) == [32, 64, 16, 2, 1][address - 32]
    ensures Mapped(address) ==>
              RegType(address) == if address == 8 then 4 else if address in {0, 9, 13, 18, 35} then 2 else 1
  {
  }

  /** A register of a wider type holds exactly one value of it. */
  lemma TypesFitSizes(address: byte)
    requires Mapped(address)
    ensures RegType(address) > 1 ==> NumBytes(address) == RegType(address)
  {
  }

  /** What is behind each address that is not fixed by the constructor. */
  lemma ImagesByAddress(fixed: FixedRegisters, c: Core, harpTime: uint64)
    requires FixedOk(fixed)
    ensures forall a: byte :: Fixed(a) <==> a < 8 || a in {11, 13, 16, 17, 19}
    ensures Image(fixed, c, harpTime, 10) == [c.sched.opCtrl as byte]
    ensures Image(fixed, c, harpTime, 12) == c.deviceName
    ensures Image(fixed, c, harpTime, 14) == [c.sched.clockConfig as byte]
    ensures Image(fixed, c, harpTime, 15) == [c.timestampOffset]
    ensures Image(fixed, c, harpTime, 32) == c.net.ssid
    ensures Image(fixed, c, harpTime, 33) == c.net.password
    ensures Image(fixed, c, harpTime, 34) == c.net.serverIp
    ensures Image(fixed, c, harpTime, 35) == c.net.port
    ensures Image(fixed, c, harpTime, 36) == [(c.net.enable | c.netStatus) as byte]
  {
  }

  /** The two timestamp registers and the heartbeat are little-endian words. */
  lemma WordsByAddress(fixed: FixedRegisters, c: Core, harpTime: uint64)
    requires FixedOk(fixed)
    ensures harpTime < TWO_32 * 1_000_000 ==>
              var second, micro := Image(fixed, c, harpTime, 8), Image(fixed, c, harpTime, 9);
              && |second| == 4 && |micro| == 2
              && second[0] as int + 256 * (second[1] as int + 256 * (second[2] as int + 256 * (second[3] as int)))
                 == harpTime / 1_000_000
              && micro[0] as int + 256 * (micro[1] as int) == harpTime % 1_000_000 / 32
    ensures var heartbeat := Image(fixed, c, harpTime, 18);
            |heartbeat| == 2 && heartbeat[0] as int + 256 * (heartbeat[1] as int) == c.heartbeat
  {
    Le32RoundTrip(Replies.Seconds(harpTime));
    Le16RoundTrip(Replies.Micros(harpTime));
    Le16RoundTrip(c.heartbeat);
    if harpTime < TWO_32 * 1_000_000 {
      assert harpTime / 1_000_000 < TWO_32;
    }
  }

  /** Unmuted, a WRITE of one of these is refused, whatever it brings, and changes nothing. */
  lemma ReadOnlyIsRefused(c: Core, frame: seq<byte>, i: CommandInput, to: Source)
    requires Sized(c) && Dispatchable(frame) && frame[0] == 2
    requires frame[2] < 8 || frame[2] in {9, 16, 17, 18, 19} || 20 <= frame[2] < 32 || 36 < frame[2]
    ensures Executed(c, frame, i) == c
    ensures Answers(frame, to, false, Scheduler.Unlocked(c.sched)) == [Head(10, frame[2], to)]
  {
    hide Written;
    hide Scheduler.Unlocked;
  }

  /** Unmuted, a WRITE of the right type and size of one of these is always acknowledged. */
  lemma PlainIsAcknowledged(frame: seq<byte>, to: Source, unlocked: bool)
    requires Dispatchable(frame) && frame[0] == 2 && WellTyped(frame)
    requires frame[2] in {12, 13, 14, 15, 32, 33, 34, 35, 36}
    ensures Accepted(frame, unlocked) && Answers(frame, to, false, unlocked) == [Head(2, frame[2], to)]
  {
  }

  /** TIMESTAMP_SECOND is acknowledged if and only if the clock is unlocked. */
  lemma ClockIsSetIff(frame: seq<byte>, to: Source, unlocked: bool)
    requires Dispatchable(frame) && frame[0] == 2 && WellTyped(frame) && frame[2] == 8
    ensures Answers(frame, to, false, unlocked) == [Head(if unlocked then 2 else 10, 8, to)]
  {
  }

  /** OPERATION_CTRL refuses SPEED alone, and RESET_DEV the bits that ask for EEPROM or boot source. */
  lemma ControlIsRefusedIff(frame: seq<byte>, to: Source, unlocked: bool)
    requires Dispatchable(frame) && frame[0] == 2 && WellTyped(frame) && (frame[2] == 10 || frame[2] == 11)
    ensures var value, answers := Payload(frame)[0] as bv8, Answers(frame, to, false, unlocked);
            && (frame[2] == 10 && value & 3 == 3 ==> answers == [Head(10, 10, to)])
            && (frame[2] == 10 && value & 3 != 3 && value & 0x10 != 0 ==> answers == [])
            && (frame[2] == 10 && value & 3 != 3 && value & 0x10 == 0 ==>
                  |answers| == (if value & 0x08 != 0 then 26 else 1) && answers[0] == Head(2, 10, to))
            && (frame[2] == 11 ==> answers == [Head(if value & 0xC6 != 0 then 10 else 2, 11, to)])
  {
    hide WellTyped;
    hide Has;
    hide Scheduler.Mode;
    RefusedBits(Payload(frame)[0] as bv8);
  }

  lemma RefusedBits(value: bv8)
    ensures Scheduler.Mode(value) == Scheduler.SPEED <==> value & 3 == 3
    ensures ResetRejected(value) <==> value & 0xC6 != 0
    ensures Has(value, Scheduler.MUTE_RPL) <==> value & 0x10 != 0
    ensures Has(value, Scheduler.DUMP) <==> value & 0x08 != 0
  {
  }

  /** A READ of RESET_DEV shows 0x40 and one of NET_PASSWORD 64 zeros; every other shows its register. */
  lemma MasksByAddress(address: byte)
    ensures Masked(1, address) <==> address == 11 || address == 33
    ensures MaskOf(11) == [0x40]
    ensures |MaskOf(33)| == 64 && forall k :: 0 <= k < 64 ==> MaskOf(33)[k] == 0
    ensures !Masked(2, address) && !Masked(3, address) && !Masked(9, address) && !Masked(10, address)
  {
  }

  // ---------------------------------------------------------------------------------------------
  // Bits
  // ---------------------------------------------------------------------------------------------

  /** NET_CONFIG status: bit 2 a profile that can be used, bits 3 and 4 the association, bit 5 the connection. */
  lemma StatusBits(net: NetworkSettings.Settings, wifi: bool, tcp: bool)
    requires net.ssid != [] && net.serverIp != []
    ensures var status := StatusOf(net, wifi, tcp);
            && (status & 0x04 != 0 <==> net.ssid[0] != 0 && net.serverIp[0] != 0)
            && (status & 0x08 != 0 <==> wifi) && (status & 0x10 != 0 <==> wifi)
            && (status & 0x20 != 0 <==> tcp)
            && status & 0xC3 == 0
  {
  }

  /** After the first part of a pass NET_CONFIG shows the enable bits it had and the status just sampled. */
  lemma PassShowsStatus(fixed: FixedRegisters, c: Core, i: TickInput, harpTime: uint64)
    requires FixedOk(fixed) && Sized(c) && c.net.enable & 3 == c.net.enable
    ensures var shown := Image(fixed, Ticked(c, i), harpTime, 36);
            |shown| == 1
            && var b := shown[0] as bv8;
               && b & 3 == c.net.enable && b & 0xC0 == 0
               && (b & 0x04 != 0 <==> c.net.ssid[0] != 0 && c.net.serverIp[0] != 0)
               && (b & 0x08 != 0 <==> i.wifi) && (b & 0x10 != 0 <==> i.wifi) && (b & 0x20 != 0 <==> i.tcp)
  {
    hide Updated;
    hide HeartbeatOf;
    hide StatusOf;
    assert Updated(c, None, i.t, i.host).net == c.net by { UpdateKeepsNet(c, None, i.t, i.host); }
    ImagesByAddress(fixed, Ticked(c, i), harpTime);
    SameBits(c.net.enable | StatusOf(c.net, i.wifi, i.tcp));
    StatusBits(c.net, i.wifi, i.tcp);
    JoinedBits(c.net.enable, StatusOf(c.net, i.wifi, i.tcp));
  }

  lemma UpdateKeepsNet(c: Core, forced: Option<bv8>, t: int, host: bool)
    ensures Updated(c, forced, t, host).net == c.net
  {
  }

  lemma JoinedBits(enable: bv8, status: bv8)
    requires enable & 3 == enable && status & 0xC3 == 0
    ensures (enable | status) & 3 == enable && (enable | status) & 0xC0 == 0
    ensures (enable | status) & 0x04 == status & 0x04 && (enable | status) & 0x08 == status & 0x08
    ensures (enable | status) & 0x10 == status & 0x10 && (enable | status) & 0x20 == status & 0x20
  {
  }

  /** An accepted RESET_DEV write empties the device name if bit 3 is set; bit 0 without bit 5 puts it in STANDBY. */
  lemma ResetBits(c: Core, value: bv8)
    requires Sized(c) && value & 0xC6 == 0
    ensures var after := ResetWritten(c, value);
            && (value & 0x08 != 0 ==> after.deviceName == [0] + c.deviceName[1..])
            && (value & 0x08 == 0 ==> after.deviceName == c.deviceName)
            && (value & 0x21 == 0x01 ==> after.sched == c.sched.(opCtrl := c.sched.opCtrl & 0xFC))
            && (value & 0x21 != 0x01 ==> after.sched == c.sched)
            && after.net == c.net && after.heartbeat == c.heartbeat
  {
  }

  /** A pass ends in a restart if and only if it delivers a RESET_DEV write with bit 5 and none of the bits refused. */
  lemma RestartIff(received: seq<Received>)
    requires forall r <- received :: Dispatchable(r.delivery.frame)
    ensures EndsInRestart(received) <==>
              && received != []
              && var frame := received[0].delivery.frame;
                 && frame[0] == 2 && WellTyped(frame) && frame[2] == 11
                 && (Payload(frame)[0] as bv8) & 0x20 != 0 && (Payload(frame)[0] as bv8) & 0xC6 == 0
  {
    hide ResetRejected;
    if received != [] {
      assert received[0] in received;
      var frame := received[0].delivery.frame;
      if frame[0] == 2 && WellTyped(frame) {
        RefusedBits(Payload(frame)[0] as bv8);
      }
    }
  }

  /**
   * A write of NET_CONFIG by its bits: 0x40 with 0x01 stores the profile and blanks the password,
   * 0x80 erases it all.
   */
  lemma NetConfigBits(s: NetworkSettings.Settings, value: bv8, saved: bool, erased: bool)
    requires |s.port| == 2
    ensures var after := NetworkSettings.Configured(s, value, saved, erased);
            var applies, clears := value & 0x41 == 0x41, value & 0x80 != 0;
            && after.enable == (if clears then 0 else value & 3)
            && after.password == (if applies then NetworkSettings.Zeros(64) else s.password)
            && after.ssid == s.ssid && after.serverIp == s.serverIp && after.port == s.port
            && (clears && erased ==> after.stored == None)
            && (!(clears && erased) && applies && saved ==>
                  && after.stored.Some? && after.stored.value.enable == value & 3
                  && after.stored.value.port == s.port[0] as int + 256 * (s.port[1] as int)
                  && after.stored.value.ssid == NetworkSettings.Terminate(s.ssid)
                  && after.stored.value.password == NetworkSettings.Terminate(s.password)
                  && after.stored.value.serverIp == NetworkSettings.Terminate(s.serverIp))
            && (!(clears && erased) && !(applies && saved) ==> after.stored == s.stored)
  {
    NetworkSettings.EnableBits(value);
  }
}
