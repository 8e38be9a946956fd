/** The Harp synchronization clock format: 0xAA 0xAF and four little-endian bytes, one packet a second. */
module SyncDecoding {
  import opened Basics

  const HEADER_0: byte := 0xAA
  const HEADER_1: byte := 0xAF

  datatype Fsm = AwaitHeader0 | AwaitHeader1 | InTimestamp(got: seq<byte>)

  predicate Reachable(f: Fsm) { f.InTimestamp? ==> |f.got| < 4 }

  datatype Decoded = Decoded(fsm: Fsm, seconds: seq<uint32>)

  /** The packet names the previous second. */
  function SecondNamedBy(packet: seq<byte>): uint32
    requires |packet| == 4
  {
    Wrap32(FromLe32(packet) + 1)
  }

  function Next(f: Fsm, b: byte): (d: Decoded)
    requires Reachable(f)
    ensures Reachable(d.fsm)
  {
    match f
    case AwaitHeader0 => Decoded(if b == HEADER_0 then AwaitHeader1 else AwaitHeader0, [])
    case AwaitHeader1 => Decoded(if b == HEADER_1 then InTimestamp([]) else AwaitHeader0, [])
    case InTimestamp(got) =>
      if |got| == 3 then Decoded(AwaitHeader0, [SecondNamedBy(got + [b])])
      else Decoded(InTimestamp(got + [b]), [])
  }

  /** The seconds announced by a byte stream, whole. */
  function Decode(f: Fsm, bytes: seq<byte>): (d: Decoded)
    requires Reachable(f)
    ensures Reachable(d.fsm)
    decreases |bytes|
  {
    if bytes == [] then Decoded(f, [])
    else
      var first := Next(f, bytes[0]);
      var rest := Decode(first.fsm, bytes[1..]);
      Decoded(rest.fsm, first.seconds + rest.seconds)
  }

  lemma {:induction false} DecodeAppend(f: Fsm, a: seq<byte>, b: seq<byte>)
    requires Reachable(f)
    ensures var d := Decode(f, a);
            var e := Decode(d.fsm, b);
            Decode(f, a + b) == Decoded(e.fsm, d.seconds + e.seconds)
    decreases |a|
  {
    if a == [] {
      assert a + b == b;
    } else {
      var first := Next(f, a[0]);
      DecodeAppend(first.fsm, a[1..], b);
      assert (a + b)[1..] == a[1..] + b;
      var d := Decode(first.fsm, a[1..]);
      Associative(first.seconds, d.seconds, Decode(d.fsm, b).seconds);
    }
  }

  lemma DecodeOneMore(f: Fsm, a: seq<byte>, b: byte)
    requires Reachable(f)
    ensures var d := Decode(f, a);
            var e := Next(d.fsm, b);
            Decode(f, a + [b]) == Decoded(e.fsm, d.seconds + e.seconds)
  {
    DecodeAppend(f, a, [b]);
    var d := Decode(f, a);
    assert [b][1..] == [];
    assert Decode(d.fsm, [b]).seconds == Next(d.fsm, b).seconds;
  }

  // ---------------------------------------------------------------------------------------------
  // One receive interrupt
  // ---------------------------------------------------------------------------------------------

  /** The receiver between interrupts: its state, and the bytes still queued. */
  datatype Receiver = Receiver(fsm: Fsm, queue: seq<byte>)

  datatype Heard = Heard(receiver: Receiver, second: Option<uint32>)

  /** The interrupt takes queued bytes until the queue is empty or one packet is complete. */
  function Callback(r: Receiver): (h: Heard)
    requires Reachable(r.fsm)
    ensures Reachable(h.receiver.fsm)
    decreases |r.queue|
  {
    if r.queue == [] then Heard(r, None)
    else
      var d := Next(r.fsm, r.queue[0]);
      if d.seconds != [] then Heard(Receiver(d.fsm, r.queue[1..]), Some(d.seconds[0]))
      else Callback(Receiver(d.fsm, r.queue[1..]))
  }

  /** What an interrupt reports and what it leaves decode as what was queued; it stops early only for a packet. */
  lemma {:induction false} CallbackDecodes(r: Receiver)
    requires Reachable(r.fsm)
    ensures var h := Callback(r);
            var left := Decode(h.receiver.fsm, h.receiver.queue);
            && Decode(r.fsm, r.queue)
               == Decoded(left.fsm, (if h.second.Some? then [h.second.value] else []) + left.seconds)
            && (h.second.None? ==> h.receiver.queue == [])
            && (r.queue != [] ==> |h.receiver.queue| < |r.queue|)
    decreases |r.queue|
  {
    if r.queue != [] {
      var d := Next(r.fsm, r.queue[0]);
      if d.seconds == [] {
        CallbackDecodes(Receiver(d.fsm, r.queue[1..]));
        var rest := Decode(d.fsm, r.queue[1..]);
        assert d.seconds + rest.seconds == rest.seconds;
      } else {
        assert d.seconds == [d.seconds[0]];
      }
    }
  }

  /** A receiver after some interrupts, each with the bytes that came before it, and the seconds reported. */
  datatype Listened = Listened(receiver: Receiver, seconds: seq<uint32>)

  function OneOrNone(second: Option<uint32>): seq<uint32> { if second.Some? then [second.value] else [] }

  function Interrupted(r: Receiver, bytes: seq<byte>): (h: Heard)
    requires Reachable(r.fsm)
    ensures Reachable(h.receiver.fsm)
  {
    Callback(Receiver(r.fsm, r.queue + bytes))
  }

  function Listen(r: Receiver, chunks: seq<seq<byte>>): (l: Listened)
    requires Reachable(r.fsm)
    ensures Reachable(l.receiver.fsm)
    decreases |chunks|
  {
    if chunks == [] then Listened(r, [])
    else
      var before := Listen(r, chunks[..|chunks| - 1]);
      var h := Interrupted(before.receiver, chunks[|chunks| - 1]);
      Listened(h.receiver, before.seconds + OneOrNone(h.second))
  }

  lemma ListenGrows(r: Receiver, chunks: seq<seq<byte>>, bytes: seq<byte>)
    requires Reachable(r.fsm)
    ensures var before := Listen(r, chunks);
            var h := Interrupted(before.receiver, bytes);
            Listen(r, chunks + [bytes]) == Listened(h.receiver, before.seconds + OneOrNone(h.second))
  {
    assert (chunks + [bytes])[..|chunks|] == chunks;
  }

  /** However the bytes are cut, the seconds reported and the bytes left decode as the whole stream. */
  lemma {:induction false} ListenDecodes(r: Receiver, chunks: seq<seq<byte>>)
    requires Reachable(r.fsm)
    ensures var l := Listen(r, chunks);
            var left := Decode(l.receiver.fsm, l.receiver.queue);
            Decode(r.fsm, r.queue + Concat(chunks)) == Decoded(left.fsm, l.seconds + left.seconds)
    decreases |chunks|
  {
    hide Decode;
    hide Callback;
    if chunks == [] {
      var none: seq<uint32> := [];
      assert r.queue + [] == r.queue;
      var d := Decode(r.fsm, r.queue);
      assert none + d.seconds == d.seconds;
    } else {
      var front, last := chunks[..|chunks| - 1], chunks[|chunks| - 1];
      ListenDecodes(r, front);
      assert front + [last] == chunks;
      ConcatAppend(front, [last]);
      ConcatOne(last);
      Associative(r.queue, Concat(front), last);
      MoreDecodes(r, Concat(front), Listen(r, front), last);
    }
  }

  lemma MoreDecodes(r: Receiver, heard: seq<byte>, l: Listened, bytes: seq<byte>)
    requires Reachable(r.fsm) && Reachable(l.receiver.fsm)
    requires var left := Decode(l.receiver.fsm, l.receiver.queue);
             Decode(r.fsm, r.queue + heard) == Decoded(left.fsm, l.seconds + left.seconds)
    ensures var h := Interrupted(l.receiver, bytes);
            var left := Decode(h.receiver.fsm, h.receiver.queue);
            Decode(r.fsm, (r.queue + heard) + bytes)
            == Decoded(left.fsm, (l.seconds + OneOrNone(h.second)) + left.seconds)
  {
    hide Decode;
    hide Callback;
    var left := Decode(l.receiver.fsm, l.receiver.queue);
    var more := Decode(left.fsm, bytes);
    DecodeAppend(r.fsm, r.queue + heard, bytes);
    DecodeAppend(l.receiver.fsm, l.receiver.queue, bytes);
    CallbackDecodes(Receiver(l.receiver.fsm, l.receiver.queue + bytes));
    var h := Interrupted(l.receiver, bytes);
    Associative(l.seconds, left.seconds, more.seconds);
    Associative(l.seconds, OneOrNone(h.second), Decode(h.receiver.fsm, h.receiver.queue).seconds);
  }

  // ---------------------------------------------------------------------------------------------
  // The printer
  // ---------------------------------------------------------------------------------------------

  function Packet(second: uint32): seq<byte> { [HEADER_0, HEADER_1] + Le32(second) }

  predicate Filler(bytes: seq<byte>) { HEADER_0 !in bytes }

  predicate Fillers(parts: seq<seq<byte>>) { forall p <- parts :: Filler(p) }

  /** Packets separated, preceded and followed by filler. */
  function Stream(seconds: seq<uint32>, fillers: seq<seq<byte>>): seq<byte>
    requires |fillers| == |seconds| + 1
  {
    if seconds == [] then fillers[0]
    else fillers[0] + (Packet(seconds[0]) + Stream(seconds[1..], fillers[1..]))
  }

  function Announced(seconds: seq<uint32>): (r: seq<uint32>)
    ensures |r| == |seconds|
  {
    seq(|seconds|, i requires 0 <= i < |seconds| => Wrap32(seconds[i] as int + 1))
  }

  lemma {:induction false} FillerIsSkipped(bytes: seq<byte>)
    requires Filler(bytes)
    ensures Decode(AwaitHeader0, bytes) == Decoded(AwaitHeader0, [])
    decreases |bytes|
  {
    if bytes != [] {
      assert bytes[0] in bytes;
      FillerIsSkipped(bytes[1..]);
    }
  }

  lemma PacketDecodes(second: uint32)
    ensures Decode(AwaitHeader0, Packet(second)) == Decoded(AwaitHeader0, [Wrap32(second + 1)])
  {
    hide Le32;
    hide FromLe32;
    var p := Packet(second);
    var l := Le32(second);
    assert p == [HEADER_0] + ([HEADER_1] + l);
    DecodeOneMore(AwaitHeader0, [], HEADER_0);
    DecodeOneMore(AwaitHeader0, [HEADER_0], HEADER_1);
    assert [] + [HEADER_0] == [HEADER_0] && [HEADER_0] + [HEADER_1] == [HEADER_0, HEADER_1];
    assert Decode(AwaitHeader0, [HEADER_0, HEADER_1]) == Decoded(InTimestamp([]), []);
    PayloadDecodes(l);
    DecodeAppend(AwaitHeader0, [HEADER_0, HEADER_1], l);
    Le32RoundTrip(second);
  }

  lemma PayloadDecodes(l: seq<byte>)
    requires |l| == 4
    ensures Decode(InTimestamp([]), l) == Decoded(AwaitHeader0, [SecondNamedBy(l)])
  {
    var f := InTimestamp([]);
    DecodeOneMore(f, [], l[0]);
    DecodeOneMore(f, l[..1], l[1]);
    DecodeOneMore(f, l[..2], l[2]);
    DecodeOneMore(f, l[..3], l[3]);
    assert [] + [l[0]] == l[..1] && l[..1] + [l[1]] == l[..2] && l[..2] + [l[2]] == l[..3] && l[..3] + [l[3]] == l;
  }

  /**
   * Decoding inverts printing: any list of seconds, printed with any AA-free filler, comes back
   * with one added modulo 2^32, whatever bytes the payloads contain.
   */
  lemma {:induction false} DecodeInvertsPrinter(seconds: seq<uint32>, fillers: seq<seq<byte>>)
    requires |fillers| == |seconds| + 1 && Fillers(fillers)
    ensures Decode(AwaitHeader0, Stream(seconds, fillers)) == Decoded(AwaitHeader0, Announced(seconds))
    decreases |seconds|
  {
    assert fillers[0] in fillers;
    FillerIsSkipped(fillers[0]);
    if seconds != [] {
      var packet, rest := Packet(seconds[0]), Stream(seconds[1..], fillers[1..]);
      PacketDecodes(seconds[0]);
      DecodeInvertsPrinter(seconds[1..], fillers[1..]);
      DecodeAppend(AwaitHeader0, packet, rest);
      DecodeAppend(AwaitHeader0, fillers[0], packet + rest);
      assert Announced(seconds) == [Wrap32(seconds[0] as int + 1)] + Announced(seconds[1..]);
    }
  }

  // ---------------------------------------------------------------------------------------------
  // Resynchronization
  // ---------------------------------------------------------------------------------------------

  /** How many more AA-free bytes can keep the receiver away from AwaitHeader0. */
  function Distance(f: Fsm): nat
    requires Reachable(f)
  {
    match f
    case AwaitHeader0 => 0
    case AwaitHeader1 => 5
    case InTimestamp(got) => 4 - |got|
  }

  /** From every reachable state, five or more AA-free bytes lead back to the start, with at most one bogus second. */
  lemma {:induction false} FiveBytesResynchronize(f: Fsm, bytes: seq<byte>)
    requires Reachable(f) && Filler(bytes) && |bytes| >= Distance(f)
    ensures Decode(f, bytes).fsm == AwaitHeader0
    ensures |Decode(f, bytes).seconds| <= 1
    ensures f == AwaitHeader0 ==> Decode(f, bytes).seconds == []
    decreases |bytes|
  {
    if bytes != [] {
      assert bytes[0] in bytes;
      FiveBytesResynchronize(Next(f, bytes[0]).fsm, bytes[1..]);
    }
  }

  /** Four bytes are not always enough. */
  lemma FourBytesAreNotEnough()
    ensures Filler([HEADER_1, 0, 0, 0])
    ensures Decode(AwaitHeader1, [HEADER_1, 0, 0, 0]).fsm != AwaitHeader0
  {
    var f := AwaitHeader1;
    DecodeOneMore(f, [], HEADER_1);
    DecodeOneMore(f, [HEADER_1], 0);
    DecodeOneMore(f, [HEADER_1, 0], 0);
    DecodeOneMore(f, [HEADER_1, 0, 0], 0);
    assert [] + [HEADER_1] == [HEADER_1];
    assert [HEADER_1] + [0] == [HEADER_1, 0];
    assert [HEADER_1, 0] + [0] == [HEADER_1, 0, 0];
    assert [HEADER_1, 0, 0] + [0] == [HEADER_1, 0, 0, 0];
  }

  /** What the bytes heard from the start must end with. */
  predicate EndsAs(bytes: seq<byte>, f: Fsm) {
    match f
    case AwaitHeader0 => true
    case AwaitHeader1 => |bytes| >= 1 && bytes[|bytes| - 1] == 0xAA
    case InTimestamp(got) => |bytes| >= 2 + |got| && bytes[|bytes| - |got| - 2..] == [0xAA, 0xAF] + got
  }

  lemma NextEndsAs(bytes: seq<byte>, f: Fsm, b: byte)
    requires Reachable(f) && EndsAs(bytes, f)
    ensures EndsAs(bytes + [b], Next(f, b).fsm)
    ensures var d := Next(f, b);
            d.seconds != [] ==>
              && |bytes| >= 5
              && exists payload: seq<byte> :: |payload| == 4 && (bytes + [b])[|bytes| - 5..] == [0xAA, 0xAF] + payload
                                              && d.seconds == [SecondNamedBy(payload)]
  {
    var all := bytes + [b];
    match f
    case AwaitHeader0 =>
    case AwaitHeader1 =>
      assert all[|all| - 2..] == [bytes[|bytes| - 1], b];
      assert [0xAA, 0xAF] + [] == [0xAA, 0xAF];
    case InTimestamp(got) => {
      var k := |bytes| - |got| - 2;
      assert all[k..] == bytes[k..] + [b];
      Associative([0xAA, 0xAF], got, [b]);
    }
  }

  lemma {:induction false} StateEndsAs(bytes: seq<byte>)
    ensures EndsAs(bytes, Decode(AwaitHeader0, bytes).fsm)
    decreases |bytes|
  {
    hide Next;
    if bytes != [] {
      var front, last := bytes[..|bytes| - 1], bytes[|bytes| - 1];
      StateEndsAs(front);
      assert front + [last] == bytes;
      DecodeOneMore(AwaitHeader0, front, last);
      NextEndsAs(front, Decode(AwaitHeader0, front).fsm, last);
    }
  }

  /** No second without a packet: whatever was heard, a second is reported only by the last byte of a whole packet. */
  lemma NoSecondWithoutPacket(bytes: seq<byte>, b: byte)
    ensures var d := Next(Decode(AwaitHeader0, bytes).fsm, b);
            d.seconds != [] ==>
              && |bytes| >= 5
              && exists payload: seq<byte> :: |payload| == 4 && (bytes + [b])[|bytes| - 5..] == [0xAA, 0xAF] + payload
                                              && d.seconds == [SecondNamedBy(payload)]
  {
    hide Next;
    hide Decode;
    StateEndsAs(bytes);
    NextEndsAs(bytes, Decode(AwaitHeader0, bytes).fsm, b);
  }

  /** A receiver in any state that first hears five filler bytes then reads every later packet. */
  lemma JoinsMidStream(f: Fsm, seconds: seq<uint32>, fillers: seq<seq<byte>>)
    requires Reachable(f) && |fillers| == |seconds| + 1 && Fillers(fillers) && |fillers[0]| >= 5
    ensures var d := Decode(f, Stream(seconds, fillers));
            && d.fsm == AwaitHeader0
            && |seconds| <= |d.seconds| <= |seconds| + 1
            && d.seconds[|d.seconds| - |seconds|..] == Announced(seconds)
  {
    assert fillers[0] in fillers;
    FiveBytesResynchronize(f, fillers[0]);
    var parts := [[]] + fillers[1..];
    forall p | p in parts
      ensures Filler(p)
    {
      assert p == [] || p in fillers;
    }
    DecodeInvertsPrinter(seconds, parts);
    SplitStream(seconds, fillers);
    DecodeAppend(f, fillers[0], Stream(seconds, parts));
  }

  lemma SplitStream(seconds: seq<uint32>, fillers: seq<seq<byte>>)
    requires |fillers| == |seconds| + 1
    ensures Stream(seconds, fillers) == fillers[0] + Stream(seconds, [[]] + fillers[1..])
  {
    var parts := [[]] + fillers[1..];
    assert parts[1..] == fillers[1..];
    if seconds != [] {
      var rest := Packet(seconds[0]) + Stream(seconds[1..], fillers[1..]);
      assert [] + rest == rest;
    }
  }

  /** The chunks are a printed stream, cut anyhow. */
  predicate Printed(seconds: seq<uint32>, fillers: seq<seq<byte>>, chunks: seq<seq<byte>>) {
    |fillers| == |seconds| + 1 && Fillers(fillers) && Concat(chunks) == Stream(seconds, fillers)
  }

  /**
   * A fresh receiver that is handed a printed stream in any pieces reports the seconds printed, plus
   * one, in order, and all of them once its queue is empty.
   */
  lemma ListenInvertsPrinter(seconds: seq<uint32>, fillers: seq<seq<byte>>, chunks: seq<seq<byte>>)
    requires Printed(seconds, fillers, chunks)
    ensures var l := Listen(Receiver(AwaitHeader0, []), chunks);
            l.seconds <= Announced(seconds) && (l.receiver.queue == [] ==> l.seconds == Announced(seconds))
  {
    var silent := Receiver(AwaitHeader0, []);
    ListenDecodes(silent, chunks);
    DecodeInvertsPrinter(seconds, fillers);
    assert [] + Concat(chunks) == Concat(chunks);
    var l := Listen(silent, chunks);
    if l.receiver.queue == [] {
      assert l.seconds + [] == l.seconds;
    }
  }

  // ---------------------------------------------------------------------------------------------
  // The clock
  // ---------------------------------------------------------------------------------------------

  /** Time from the end of the last packet byte to the second named by the packet. */
  const HARP_SYNC_OFFSET_US := 672 - 90

  /** The Harp time that a packet stands for when its last byte is handled. */
  function PulseTime(second: uint32): uint64 { Wrap64(second * 1_000_000 - HARP_SYNC_OFFSET_US) }

  /** After a pulse applied at `now`, the Harp clock runs on from the time the packet stands for. */
  lemma ClockAfterPulse(second: uint32, now: int, t: int)
    requires 0 < second && now <= t < now + 0x1_0000_0000_0000
    ensures Wrap64(t - Wrap64(now - PulseTime(second))) == second * 1_000_000 - 582 + (t - now)
  {
    WrapLater(t, now, PulseTime(second));
  }
}
