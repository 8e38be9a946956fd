/** The wire formats byte for byte, and what the host makes of frames that are not as printed. */
module WireFormat {
  import opened Basics
  import opened HarpMessage
  import opened CoreRegisters
  import opened Replies
  import opened Framing
  import Scheduler
  import Commands
  import SyncDecoding

  // ---------------------------------------------------------------------------------------------
  // Frames in full
  // ---------------------------------------------------------------------------------------------

  lemma SumOfFive(a: byte, b: byte, c: byte, d: byte, e: byte)
    ensures ByteSum([a, b, c, d, e]) == a as int + b as int + c as int + d as int + e as int
  {
    assert [a, b, c, d, e][1..] == [b, c, d, e] && [b, c, d, e][1..] == [c, d, e];
    assert [c, d, e][1..] == [d, e] && [d, e][1..] == [e] && [e][1..] == [];
    assert ByteSum([d, e]) == d as int + ByteSum([e]);
    assert ByteSum([b, c, d, e]) == b as int + (c as int + ByteSum([d, e]));
  }

  /** READ of WHO_AM_I, as U16: 01 04 00 FF 02 06. */
  lemma ReadOnTheWire()
    ensures BuildRead(0) == [0x01, 0x04, 0x00, 0xFF, 0x02, 0x06]
  {
    SumOfFive(0x01, 0x04, 0x00, 0xFF, 0x02);
    var none: seq<byte> := [];
    assert [1, 4, 0, 255, 2] + none == [1, 4, 0, 255, 2];
  }

  /** WRITE of ACTIVE with DUMP to OPERATION_CTRL, as U8: 02 05 0A FF 01 09 1A. */
  lemma WriteOnTheWire()
    ensures BuildWrite(10, U8, [0x09]) == [0x02, 0x05, 0x0A, 0xFF, 0x01, 0x09, 0x1A]
  {
    SumOfFive(0x02, 0x05, 0x0A, 0xFF, 0x01);
    var body: seq<byte> := [0x02, 0x05, 0x0A, 0xFF, 0x01];
    ByteSumAppend(body, 0x09);
    assert body + [0x09] == [0x02, 0x05, 0x0A, 0xFF, 0x01, 0x09];
  }

  /** The reply to the READ at 2.500064 s: kind, length, address, port, type, time, value and sum, all little-endian. */
  lemma ReplyOnTheWire()
    ensures ReplyFrame(READ, 0, U16, [0x01, 0x00], 2_500_064)
         == [0x01, 0x0C, 0x00, 0xFF, 0x12, 0x02, 0x00, 0x00, 0x00, 0x0B, 0x3D, 0x01, 0x00, 0x69]
  {
    hide ByteSum;
    hide Checksum;
    var body := ReplyBody(READ, 0, U16, [0x01, 0x00], 2_500_064);
    TimeOnTheWire();
    assert body == [0x01, 0x0C, 0x00, 0xFF, 0x12, 0x02, 0x00, 0x00, 0x00, 0x0B, 0x3D, 0x01, 0x00];
    ChecksumIsLowByteOfSum(body);
    SumOfFive(0x01, 0x0C, 0x00, 0xFF, 0x12);
    SumOfFive(0x02, 0x00, 0x00, 0x00, 0x0B);
    SumOfFive(0x3D, 0x01, 0x00, 0x00, 0x00);
    var head, time, rest := body[..5], body[5..10], body[10..];
    assert head == [0x01, 0x0C, 0x00, 0xFF, 0x12] && time == [0x02, 0x00, 0x00, 0x00, 0x0B]
      && rest == [0x3D, 0x01, 0x00];
    ByteSumAppend(rest, 0);
    ByteSumAppend(rest + [0], 0);
    assert (rest + [0]) + [0] == [0x3D, 0x01, 0x00, 0x00, 0x00];
    ByteSumSplit(head, time);
    ByteSumSplit(head + time, rest);
    assert (head + time) + rest == body;
  }

  lemma TimeOnTheWire()
    ensures TimestampBytes(2_500_064) == [0x02, 0x00, 0x00, 0x00, 0x0B, 0x3D]
  {
    assert 2_500_064 / 1_000_000 == 2 && 2_500_064 % 1_000_000 == 500_064;
  }

  /** The type byte of a reply is the register's with bit 4 set, as a bitwise or sets it. */
  lemma TypeByte(payloadType: bv8)
    ensures SetBit(payloadType as byte, 0x10) == (payloadType | 0x10) as int
  {
    if payloadType & 0x10 != 0 {
      assert payloadType | 0x10 == payloadType;
    }
  }

  /** The header arithmetic for stamped frames leads from a reply back to its payload. */
  lemma StampedArithmetic(kind: byte, address: byte, payloadType: byte, payload: seq<byte>, harpTime: uint64)
    requires |payload| <= MAX_REPLY_PAYLOAD && !HasBit(payloadType, HAS_TIMESTAMP)
    ensures var f := ReplyFrame(kind, address, payloadType, payload, harpTime);
            && |f| == MsgSize(f[1])
            && PayloadLength(f[1], f[4]) == |payload|
            && f[PayloadBase(f[4])..PayloadBase(f[4]) + PayloadLength(f[1], f[4])] == payload
  {
    hide ReplyFrame;
    FrameShape(kind, address, payloadType, payload, harpTime);
  }

  /** Events and the two errors differ from it in their first byte. */
  lemma KindsOnTheWire(address: byte, payloadType: byte, payload: seq<byte>, harpTime: uint64)
    requires |payload| <= MAX_REPLY_PAYLOAD && !HasBit(payloadType, HAS_TIMESTAMP)
    ensures ReplyFrame(READ, address, payloadType, payload, harpTime)[0] == 1
    ensures ReplyFrame(WRITE, address, payloadType, payload, harpTime)[0] == 2
    ensures ReplyFrame(EVENT, address, payloadType, payload, harpTime)[0] == 3
    ensures ReplyFrame(Commands.ErrorOf(READ), address, payloadType, payload, harpTime)[0] == 0x09
    ensures ReplyFrame(Commands.ErrorOf(WRITE), address, payloadType, payload, harpTime)[0] == 0x0A
  {
    FrameShape(READ, address, payloadType, payload, harpTime);
    FrameShape(WRITE, address, payloadType, payload, harpTime);
    FrameShape(EVENT, address, payloadType, payload, harpTime);
    FrameShape(READ_ERROR, address, payloadType, payload, harpTime);
    FrameShape(WRITE_ERROR, address, payloadType, payload, harpTime);
  }

  /** The synchronization packet of second 0x01020304: AA AF 04 03 02 01, heard as 0x01020305. */
  lemma PacketOnTheWire()
    ensures SyncDecoding.Packet(0x0102_0304) == [0xAA, 0xAF, 0x04, 0x03, 0x02, 0x01]
    ensures SyncDecoding.Decode(SyncDecoding.AwaitHeader0, [0xAA, 0xAF, 0x04, 0x03, 0x02, 0x01]).seconds
            == [0x0102_0305]
  {
    SyncDecoding.PacketDecodes(0x0102_0304);
  }

  // ---------------------------------------------------------------------------------------------
  // The host's parser on any stream
  // ---------------------------------------------------------------------------------------------

  lemma ByteSumUpdate(s: seq<byte>, i: nat, b: byte)
    requires i < |s|
    ensures ByteSum(s[i := b]) == ByteSum(s) - s[i] as int + b as int
  {
    var head, tail := s[..i], s[i + 1..];
    assert s == (head + [s[i]]) + tail && s[i := b] == (head + [b]) + tail;
    ByteSumSplit(head + [s[i]], tail);
    ByteSumSplit(head + [b], tail);
    ByteSumAppend(head, s[i]);
    ByteSumAppend(head, b);
  }

  /** Any one byte of a printed frame changed, but for its length byte, is noticed by the host. */
  lemma CorruptionIsDetected(kind: byte, address: byte, payloadType: byte, payload: seq<byte>, harpTime: uint64,
                             i: nat, b: byte, more: seq<byte>)
    requires |payload| <= MAX_REPLY_PAYLOAD && !HasBit(payloadType, HAS_TIMESTAMP)
    requires i < |payload| + 12 && i != 1
    ensures |ReplyFrame(kind, address, payloadType, payload, harpTime)| == |payload| + 12
    ensures var f := ReplyFrame(kind, address, payloadType, payload, harpTime);
            b != f[i] ==> Parse(f[i := b] + more) == ChecksumMismatch
  {
    hide ReplyFrame;
    FrameShape(kind, address, payloadType, payload, harpTime);
    var f := ReplyFrame(kind, address, payloadType, payload, harpTime);
    var g, n := f[i := b], |f| - 1;
    if b != f[i] {
      if i < n {
        ByteSumUpdate(f[..n], i, b);
        assert g[..n] == f[..n][i := b];
        DifferentLowBytes(ByteSum(f[..n]), f[i], b);
      } else {
        assert g[..n] == f[..n];
      }
      assert (g + more)[..|g|] == g;
      MismatchIsReported(g);
    }
  }

  lemma DifferentLowBytes(sum: nat, a: byte, b: byte)
    requires a != b
    ensures (sum - a as int + b as int) % 256 != sum % 256
  {
  }

  lemma MismatchIsReported(full: seq<byte>)
    requires |full| >= HEADER_SIZE + 6 && ByteSum(full[..|full| - 1]) % 256 != full[|full| - 1] as int
    ensures Decode(full) == ChecksumMismatch
  {
  }

  /** How many bytes the host waits for. */
  function Announced(stream: seq<byte>): nat
    requires |stream| >= 2
  {
    Max(5, stream[1] as int + 2)
  }

  /** recv_reply on any stream at all: which outcome, and how much of the stream it takes. */
  lemma ParseOutcome(stream: seq<byte>)
    ensures Parse(stream) == ConnectionClosed <==> |stream| < 5 || |stream| < Announced(stream)
    ensures Parse(stream).Reply? ==>
              && Parse(stream).reply.raw == stream[..Announced(stream)]
              && Parse(stream).rest == stream[Announced(stream)..]
              && (Parse(stream).reply.seconds.Some? <==> HasBit(stream[4], 0x10))
    ensures |stream| >= 5 && |stream| >= Announced(stream) ==>
              var full := stream[..Announced(stream)];
              && (Parse(stream) == Malformed <==> HasBit(stream[4], 0x10) && |full| < 11)
              && (Parse(stream).Reply? <==>
                    !(HasBit(stream[4], 0x10) && |full| < 11) && ByteSum(full[..|full| - 1]) % 256 == full[|full| - 1])
  {
    hide ByteSum;
  }

  /** A frame without a timestamp is read back too: the payload starts after the header. */
  lemma UnstampedIsRead(kind: byte, address: byte, payloadType: byte, payload: seq<byte>, more: seq<byte>)
    requires |payload| <= 249 && !HasBit(payloadType, HAS_TIMESTAMP)
    ensures var f := BuildCommand(kind, address, payloadType, payload);
            Parse(f + more) == Reply(HostReply(kind, address, payloadType, None, None, payload, f), more)
  {
    hide ByteSum;
    CommandShape(kind, address, payloadType, payload);
    var f := BuildCommand(kind, address, payloadType, payload);
    assert (f + more)[..|f|] == f && (f + more)[|f|..] == more;
    assert f[HEADER_SIZE..][0..|payload|] == payload;
  }
}
