/** The timestamped reply frame the device prints, and the parser the host reads it with. */
module Replies {
  import opened Basics
  import opened HarpMessage
  import opened CoreRegisters

  const MAX_REPLY_PAYLOAD := 243
  const PORT_DEFAULT: byte := 255

  /** The Harp time as the two timestamp registers hold it: seconds, and units of 32 us. */
  function Seconds(harpTime: uint64): uint32 { Wrap32(harpTime / 1_000_000) }

  function Micros(harpTime: uint64): uint16 { harpTime % 1_000_000 / 32 }

  function TimestampBytes(harpTime: uint64): (s: seq<byte>)
    ensures |s| == 6
  {
    Le32(Seconds(harpTime)) + Le16(Micros(harpTime))
  }

  function ReplyHeader(kind: byte, address: byte, payloadType: byte, length: nat): (s: seq<byte>)
    ensures |s| == HEADER_SIZE
  {
    [kind, Wrap8(length + 10), address, PORT_DEFAULT, Wrap8(SetBit(payloadType, HAS_TIMESTAMP))]
  }

  function ReplyBody(kind: byte, address: byte, payloadType: byte, payload: seq<byte>, harpTime: uint64): seq<byte> {
    ReplyHeader(kind, address, payloadType, |payload|) + TimestampBytes(harpTime) + payload
  }

  function ReplyFrame(kind: byte, address: byte, payloadType: byte, payload: seq<byte>, harpTime: uint64): seq<byte> {
    var body := ReplyBody(kind, address, payloadType, payload, harpTime);
    body + [Checksum(body)]
  }

  // ---------------------------------------------------------------------------------------------
  // The host
  // ---------------------------------------------------------------------------------------------

  datatype HostReply = HostReply(
    kind: byte,
    address: byte,
    payloadType: byte,
    seconds: Option<uint32>,
    micros: Option<uint16>,
    payload: seq<byte>,
    raw: seq<byte>)

  /** A reply and the bytes after it, or the exception that is raised. */
  datatype Parsed =
    | Reply(reply: HostReply, rest: seq<byte>)
    | ConnectionClosed
    | Malformed
    | ChecksumMismatch

  /** The slice of rest from `start` for a payload of `length` bytes; an empty slice when nothing is left. */
  function PayloadSlice(rest: seq<byte>, start: nat, end: int): seq<byte> {
    if start < end <= |rest| then rest[start..end] else []
  }

  /** sum(data) & 0xFF, which the device never computes: it accumulates a uint8_t. */
  function HostChecksum(data: seq<byte>): byte { ByteSum(data) % 256 }

  function Decode(full: seq<byte>): Parsed
    requires |full| >= HEADER_SIZE
  {
    var rest := full[HEADER_SIZE..];
    var stamped := HasBit(full[4], HAS_TIMESTAMP);
    if stamped && |rest| < 6 then Malformed
    else
      var start := if stamped then 6 else 0;
      var reply := HostReply(full[0], full[2], full[4],
                             if stamped then Some(FromLe32(rest[0..4])) else None,
                             if stamped then Some(FromLe16(rest[4..6])) else None,
                             PayloadSlice(rest, start, full[1] as int - 4), full);
      if HostChecksum(full[..|full| - 1]) == full[|full| - 1] then Reply(reply, []) else ChecksumMismatch
  }

  /** recv_reply on everything the peer sends. */
  function Parse(stream: seq<byte>): Parsed {
    if |stream| < HEADER_SIZE then ConnectionClosed
    else
      var size := HEADER_SIZE + Max(0, stream[1] as int + 2 - HEADER_SIZE);
      if |stream| < size then ConnectionClosed
      else
        match Decode(stream[..size])
        case Reply(reply, _) => Reply(reply, stream[size..])
        case other => other
  }

  /** The socket of the host's test connection; receive calls return what happens to have arrived. */
  class HostSocket {
    var incoming: seq<byte>

    constructor (stream: seq<byte>)
      ensures incoming == stream
    {
      incoming := stream;
    }

    method Recv(max: nat) returns (chunk: seq<byte>)
      requires max > 0
      modifies this
      ensures chunk + incoming == old(incoming) && |chunk| <= max
      ensures chunk == [] <==> old(incoming) == []
    {
      var n: int := *;
      n := Max(Min(1, |incoming|), Min(n, Min(max, |incoming|)));
      chunk, incoming := incoming[..n], incoming[n..];
    }

    /** Collects n bytes over as many receive calls as it takes. */
    method RecvExact(n: int) returns (bytes: Option<seq<byte>>)
      modifies this
      ensures var size := Max(0, n);
              if |old(incoming)| < size then bytes == None
              else bytes == Some(old(incoming)[..size]) && incoming == old(incoming)[size..]
    {
      var buf := [];
      while |buf| < n
        invariant buf + incoming == old(incoming) && |buf| <= Max(0, n)
        decreases n - |buf|
      {
        var chunk := Recv(n - |buf|);
        if chunk == [] {
          assert |buf| == |old(incoming)|;
          return None;
        }
        assert (buf + chunk) + incoming == old(incoming);
        buf := buf + chunk;
      }
      assert buf == old(incoming)[..|buf|] && incoming == old(incoming)[|buf|..];
      return Some(buf);
    }

    /** However the stream is cut into receive calls, the reply is the one the whole stream starts with. */
    method RecvReply() returns (parsed: Parsed)
      modifies this
      ensures old(Parse(incoming)).Reply? ==> parsed == Reply(old(Parse(incoming)).reply, incoming)
                                              && incoming == old(Parse(incoming)).rest
      ensures !old(Parse(incoming)).Reply? ==> parsed == old(Parse(incoming))
    {
      var header := RecvExact(HEADER_SIZE);
      if header.None? {
        return ConnectionClosed;
      }
      var remaining := header.value[1] as int + 2 - HEADER_SIZE;
      var rest := RecvExact(remaining);
      if rest.None? {
        return ConnectionClosed;
      }
      var full := header.value + rest.value;
      assert full == old(incoming)[..HEADER_SIZE + Max(0, remaining)];
      parsed := Decode(full);
      if parsed.Reply? {
        parsed := Reply(parsed.reply, incoming);
      }
    }
  }

  // ---------------------------------------------------------------------------------------------
  // Round trip
  // ---------------------------------------------------------------------------------------------

  lemma FrameShape(kind: byte, address: byte, payloadType: byte, payload: seq<byte>, harpTime: uint64)
    requires |payload| <= MAX_REPLY_PAYLOAD && !HasBit(payloadType, HAS_TIMESTAMP)
    ensures payloadType < 240
    ensures var f := ReplyFrame(kind, address, payloadType, payload, harpTime);
            && |f| == |payload| + 12 && WellFormed(f)
            && f[0] == kind && f[1] == |payload| + 10 && f[2] == address && f[3] == 255 && f[4] == payloadType + 16
            && f[5..9] == Le32(Seconds(harpTime)) && f[9..11] == Le16(Micros(harpTime))
            && f[11..|f| - 1] == payload
            && f[|f| - 1] == ByteSum(f[..|f| - 1]) % 256
  {
    var body := ReplyBody(kind, address, payloadType, payload, harpTime);
    var f := ReplyFrame(kind, address, payloadType, payload, harpTime);
    assert f[..|f| - 1] == body;
    ChecksumIsLowByteOfSum(body);
    var stamp := TimestampBytes(harpTime);
    assert f[5..11] == stamp;
    assert f[5..9] == stamp[..4] && f[9..11] == stamp[4..];
    assert payloadType < 240;
  }

  /** What the host makes of a frame. */
  function Read(kind: byte, address: byte, payloadType: byte, payload: seq<byte>, harpTime: uint64): HostReply
    requires payloadType < 240
  {
    HostReply(kind, address, payloadType + HAS_TIMESTAMP, Some(Seconds(harpTime)), Some(Micros(harpTime)), payload,
              ReplyFrame(kind, address, payloadType, payload, harpTime))
  }

  lemma DecodeInvertsPrint(kind: byte, address: byte, payloadType: byte, payload: seq<byte>, harpTime: uint64)
    requires |payload| <= MAX_REPLY_PAYLOAD && !HasBit(payloadType, HAS_TIMESTAMP)
    ensures payloadType < 240
    ensures Decode(ReplyFrame(kind, address, payloadType, payload, harpTime))
         == Reply(Read(kind, address, payloadType, payload, harpTime), [])
  {
    hide Checksum;
    hide ReplyFrame;
    FrameShape(kind, address, payloadType, payload, harpTime);
    Le32RoundTrip(Seconds(harpTime));
    Le16RoundTrip(Micros(harpTime));
    var f := ReplyFrame(kind, address, payloadType, payload, harpTime);
    var rest := f[HEADER_SIZE..];
    assert rest[0..4] == f[5..9] && rest[4..6] == f[9..11];
    assert PayloadSlice(rest, 6, f[1] as int - 4) == f[11..|f| - 1];
  }

  /**
   * Parsing inverts printing: for every kind, address, payload of at most 243 bytes and Harp time
   * the host recovers all fields from the frame and goes on with what follows it.
   */
  lemma ParseInvertsPrint(kind: byte, address: byte, payloadType: byte, payload: seq<byte>, harpTime: uint64,
                          more: seq<byte>)
    requires |payload| <= MAX_REPLY_PAYLOAD && !HasBit(payloadType, HAS_TIMESTAMP)
    ensures payloadType < 240
    ensures Parse(ReplyFrame(kind, address, payloadType, payload, harpTime) + more)
         == Reply(Read(kind, address, payloadType, payload, harpTime), more)
  {
    DecodeInvertsPrint(kind, address, payloadType, payload, harpTime);
    FrameShape(kind, address, payloadType, payload, harpTime);
    var f := ReplyFrame(kind, address, payloadType, payload, harpTime);
    assert (f + more)[..|f|] == f && (f + more)[|f|..] == more;
  }

  /** The time the host computes from a reply. */
  function HostTime(seconds: uint32, micros: uint16): int { seconds * 1_000_000 + micros * 32 }

  /** The decoded time is at most the true time, less than 32 us behind it, and monotone in it. */
  lemma DecodedTime(t: uint64, u: uint64)
    requires t <= u < TWO_32 * 1_000_000
    ensures Micros(t) <= 31249
    ensures HostTime(Seconds(t), Micros(t)) <= t < HostTime(Seconds(t), Micros(t)) + 32
    ensures HostTime(Seconds(t), Micros(t)) <= HostTime(Seconds(u), Micros(u))
  {
    assert t / 1_000_000 < TWO_32 && u / 1_000_000 < TWO_32;
    var a, b := t / 1_000_000, u / 1_000_000;
    assert t == a * 1_000_000 + t % 1_000_000;
    assert u == b * 1_000_000 + u % 1_000_000;
    if a < b {
      assert a * 1_000_000 + 1_000_000 <= b * 1_000_000;
    } else {
      assert a == b;
    }
  }

  // ---------------------------------------------------------------------------------------------
  // Host commands
  // ---------------------------------------------------------------------------------------------

  function BuildCommand(kind: byte, address: byte, payloadType: byte, payload: seq<byte>): seq<byte>
    requires |payload| <= 249
  {
    var body := [kind, 4 + |payload|, address, PORT_DEFAULT, payloadType] + payload;
    body + [HostChecksum(body)]
  }

  /** The payload type the host assumes for a register it reads. */
  function ReadType(address: byte): (t: byte)
    ensures !HasBit(t, HAS_TIMESTAMP)
  {
    match address
    case WHO_AM_I => U16
    case TIMESTAMP_SECOND => U32
    case TIMESTAMP_MICRO => U16
    case HEARTBEAT => U16
    case NET_SERVER_PORT => U16
    case _ => U8
  }

  function BuildRead(address: byte): seq<byte> { BuildCommand(READ, address, ReadType(address), []) }

  function BuildWrite(address: byte, payloadType: byte, payload: seq<byte>): seq<byte>
    requires |payload| <= 249
  {
    BuildCommand(WRITE, address, payloadType, payload)
  }

  /** A command is a well-formed frame whose header arithmetic leads back to its payload. */
  lemma CommandShape(kind: byte, address: byte, payloadType: byte, payload: seq<byte>)
    requires |payload| <= 249 && !HasBit(payloadType, HAS_TIMESTAMP)
    ensures var f := BuildCommand(kind, address, payloadType, payload);
            && WellFormed(f)
            && f[0] == kind && f[2] == address && f[3] == 255 && f[4] == payloadType
            && f[|f| - 1] == ByteSum(f[..|f| - 1]) % 256
            && PayloadLength(f[1], f[4]) == |payload|
            && f[PayloadBase(f[4])..PayloadBase(f[4]) + PayloadLength(f[1], f[4])] == payload
  {
    var f := BuildCommand(kind, address, payloadType, payload);
    assert f[..|f| - 1] == [kind, 4 + |payload|, address, PORT_DEFAULT, payloadType] + payload;
  }
}
