/** What one transport's receive buffer does with the bytes it is handed, and what it delivers over whole runs. */
module Framing {
  import opened Basics
  import opened HarpMessage

  /** A delivered message: the bytes the dispatcher may look at, and the bytes read beyond them and discarded. */
  datatype Delivery = Delivery(frame: seq<byte>, dropped: seq<byte>)

  datatype Fed = Fed(buffered: seq<byte>, delivery: Option<Delivery>)

  /** The next read asks for the rest of the buffer, or for the rest of the frame once its header is known. */
  function MaxRead(buffered: seq<byte>): nat
    requires |buffered| <= MAX_PACKET_SIZE
  {
    if |buffered| == MAX_PACKET_SIZE then MAX_PACKET_SIZE
    else if |buffered| < HEADER_SIZE then MAX_PACKET_SIZE - |buffered|
    else Max(0, MsgSize(buffered[1]) - |buffered|)
  }

  /** As many bytes as the dispatcher may look at: a header, and the message the header announces. */
  predicate Dispatchable(frame: seq<byte>) {
    |frame| >= HEADER_SIZE && |frame| >= MsgSize(frame[1])
  }

  /** The frame starts the buffer; a length byte too small for a header still delivers the header. */
  function Deliver(received: seq<byte>): (d: Delivery)
    requires Dispatchable(received)
    ensures Dispatchable(d.frame)
  {
    var end := Max(HEADER_SIZE, MsgSize(received[1]));
    Delivery(received[..end], received[end..])
  }

  /** One poll of a transport that has `offered` ready; no more than MaxRead bytes of it are taken. */
  function Feed(buffered: seq<byte>, offered: seq<byte>): (fed: Fed)
    requires |buffered| <= MAX_PACKET_SIZE
    ensures |fed.buffered| <= MAX_PACKET_SIZE
    ensures fed.delivery.Some? ==> Dispatchable(fed.delivery.value.frame)
  {
    var kept := if |buffered| == MAX_PACKET_SIZE then [] else buffered;
    var n := Min(|offered|, MaxRead(buffered));
    var received := kept + offered[..n];
    if n == 0 || !Dispatchable(received) then Fed(received, None) else Fed([], Some(Deliver(received)))
  }

  /** The buffer holds less than a header, or less than the message its header announces. */
  predicate Framed(buffered: seq<byte>) {
    && |buffered| < MAX_PACKET_SIZE
    && (|buffered| < HEADER_SIZE || |buffered| < MsgSize(buffered[1]))
  }

  /** For every length byte, the framer neither overruns its buffer nor stops reading. */
  lemma FeedKeepsFramed(buffered: seq<byte>, offered: seq<byte>)
    requires Framed(buffered)
    ensures Framed(Feed(buffered, offered).buffered)
    ensures 0 < MaxRead(buffered) <= MAX_PACKET_SIZE - |buffered|
    ensures offered != [] ==>
              || Feed(buffered, offered).delivery.Some?
              || (buffered < Feed(buffered, offered).buffered)
  {
    var n := Min(|offered|, MaxRead(buffered));
    if n > 0 {
      assert offered[..n] != [];
      assert buffered < buffered + offered[..n];
      if |buffered| >= HEADER_SIZE {
        assert (buffered + offered[..n])[1] == buffered[1];
      }
    }
  }

  /** A read fills the buffer, or the message once its header is known; a complete message reads no more. */
  lemma ReadSizes(buffered: seq<byte>)
    requires |buffered| <= 255
    ensures |buffered| < 5 ==> MaxRead(buffered) == 255 - |buffered|
    ensures 5 <= |buffered| < 255 ==>
              MaxRead(buffered) == if MsgSize(buffered[1]) <= |buffered| then 0 else MsgSize(buffered[1]) - |buffered|
  {
  }

  /** A buffer that is full without a message starts over. */
  lemma FullStartsOver(buffered: seq<byte>, offered: seq<byte>)
    requires |buffered| == 255
    ensures Feed(buffered, offered) == Feed([], offered)
  {
  }

  /** A read issued once the header is complete is clipped to the frame, so nothing is discarded. */
  lemma OnlyHeaderReadsDrop(buffered: seq<byte>, offered: seq<byte>)
    requires Framed(buffered)
    ensures var fed := Feed(buffered, offered);
            fed.delivery.Some? && fed.delivery.value.dropped != [] ==>
              |buffered| < HEADER_SIZE || MsgSize(buffered[1]) < HEADER_SIZE
  {
    var n := Min(|offered|, MaxRead(buffered));
    if |buffered| >= HEADER_SIZE {
      assert (buffered + offered[..n])[1] == buffered[1];
    }
  }

  // ---------------------------------------------------------------------------------------------
  // Whole runs of one framer
  // ---------------------------------------------------------------------------------------------

  datatype Outcome = Outcome(buffered: seq<byte>, deliveries: seq<Delivery>)

  function OptSeq<T>(o: Option<T>): seq<T> { if o.None? then [] else [o.value] }

  function Run(buffered: seq<byte>, chunks: seq<seq<byte>>): (o: Outcome)
    requires |buffered| <= MAX_PACKET_SIZE
    ensures |o.buffered| <= MAX_PACKET_SIZE
    decreases |chunks|
  {
    if chunks == [] then Outcome(buffered, [])
    else
      var fed := Feed(buffered, chunks[0]);
      var rest := Run(fed.buffered, chunks[1..]);
      Outcome(rest.buffered, OptSeq(fed.delivery) + rest.deliveries)
  }

  function Frames(deliveries: seq<Delivery>): seq<seq<byte>> {
    if deliveries == [] then [] else [deliveries[0].frame] + Frames(deliveries[1..])
  }

  function AllBytes(deliveries: seq<Delivery>): seq<byte> {
    if deliveries == [] then []
    else deliveries[0].frame + deliveries[0].dropped + AllBytes(deliveries[1..])
  }

  /** Each read returns no more than was asked for. */
  predicate Compliant(buffered: seq<byte>, chunks: seq<seq<byte>>)
    requires |buffered| <= MAX_PACKET_SIZE
    decreases |chunks|
  {
    chunks == [] ||
    (|chunks[0]| <= MaxRead(buffered) && Compliant(Feed(buffered, chunks[0]).buffered, chunks[1..]))
  }

  lemma RunOneChunk(buffered: seq<byte>, chunks: seq<seq<byte>>)
    requires |buffered| <= MAX_PACKET_SIZE && chunks != []
    ensures var fed := Feed(buffered, chunks[0]);
            var rest := Run(fed.buffered, chunks[1..]);
            var o := Run(buffered, chunks);
            && o.buffered == rest.buffered
            && (fed.delivery.None? ==> o == rest)
            && (fed.delivery.Some? ==>
                  && o.deliveries == [fed.delivery.value] + rest.deliveries
                  && AllBytes(o.deliveries) == DeliveredBytes(fed) + AllBytes(rest.deliveries)
                  && Frames(o.deliveries) == [fed.delivery.value.frame] + Frames(rest.deliveries))
  {
    var fed := Feed(buffered, chunks[0]);
    var rest := Run(fed.buffered, chunks[1..]);
    assert (OptSeq(fed.delivery) + rest.deliveries)[|OptSeq(fed.delivery)|..] == rest.deliveries;
  }

  function DeliveredBytes(fed: Fed): seq<byte> {
    if fed.delivery.None? then [] else fed.delivery.value.frame + fed.delivery.value.dropped
  }

  lemma FeedConserves(buffered: seq<byte>, chunk: seq<byte>)
    requires Framed(buffered) && |chunk| <= MaxRead(buffered)
    ensures buffered + chunk == DeliveredBytes(Feed(buffered, chunk)) + Feed(buffered, chunk).buffered
  {
    assert chunk[..|chunk|] == chunk;
  }

  /** The first read of a run: the bytes it delivers, and the rest of the run. */
  lemma FirstChunk(buffered: seq<byte>, chunks: seq<seq<byte>>) returns (bytes: seq<byte>, kept: seq<byte>)
    requires Framed(buffered) && Compliant(buffered, chunks) && chunks != []
    ensures Framed(kept) && Compliant(kept, chunks[1..])
    ensures buffered + Concat(chunks) == bytes + (kept + Concat(chunks[1..]))
    ensures var rest := Run(kept, chunks[1..]);
            && Run(buffered, chunks).buffered == rest.buffered
            && AllBytes(Run(buffered, chunks).deliveries) == bytes + AllBytes(rest.deliveries)
  {
    var fed := Feed(buffered, chunks[0]);
    bytes, kept := DeliveredBytes(fed), fed.buffered;
    FeedKeepsFramed(buffered, chunks[0]);
    FeedConserves(buffered, chunks[0]);
    RunOneChunk(buffered, chunks);
    Associative(buffered, chunks[0], Concat(chunks[1..]));
    Associative(bytes, kept, Concat(chunks[1..]));
  }

  /** Every byte read is delivered, discarded with a delivery or still buffered, and the order is kept. */
  lemma {:induction false} BytesAreConserved(buffered: seq<byte>, chunks: seq<seq<byte>>)
    requires Framed(buffered) && Compliant(buffered, chunks)
    ensures Framed(Run(buffered, chunks).buffered)
    ensures buffered + Concat(chunks) == AllBytes(Run(buffered, chunks).deliveries) + Run(buffered, chunks).buffered
    decreases |chunks|
  {
    if chunks != [] {
      var bytes, kept := FirstChunk(buffered, chunks);
      var rest := Run(kept, chunks[1..]);
      BytesAreConserved(kept, chunks[1..]);
      Associative(bytes, AllBytes(rest.deliveries), rest.buffered);
    }
  }

  /** No read crosses the end of a frame, and the last read ends the last frame. */
  predicate Aligned(buffered: seq<byte>, frames: seq<seq<byte>>, chunks: seq<seq<byte>>)
    decreases |chunks|
  {
    if chunks == [] then buffered == [] && frames == []
    else if chunks[0] == [] then Aligned(buffered, frames, chunks[1..])
    else if frames == [] || |frames[0]| < |buffered| + |chunks[0]| then false
    else if |frames[0]| == |buffered| + |chunks[0]| then Aligned([], frames[1..], chunks[1..])
    else Aligned(buffered + chunks[0], frames, chunks[1..])
  }

  predicate AllWellFormed(frames: seq<seq<byte>>) {
    forall f <- frames :: WellFormed(f)
  }

  lemma {:induction false} FramesFillTheirBytes(deliveries: seq<Delivery>)
    ensures |Concat(Frames(deliveries))| <= |AllBytes(deliveries)|
    ensures deliveries != [] && deliveries[0].dropped != [] ==>
              |Concat(Frames(deliveries))| < |AllBytes(deliveries)|
  {
    if deliveries != [] {
      FramesFillTheirBytes(deliveries[1..]);
      assert Frames(deliveries)[1..] == Frames(deliveries[1..]);
    }
  }

  /**
   * Framing does not depend on how the bytes are split into chunks, and this is exactly when:
   * a byte stream made of well-formed frames is delivered frame for frame, in order, if and
   * only if no read crosses the end of a frame.
   */
  lemma {:induction false} DeliversExactlyTheFramesIff(buffered: seq<byte>, frames: seq<seq<byte>>,
                                                       chunks: seq<seq<byte>>)
    requires AllWellFormed(frames)
    requires Framed(buffered) && Compliant(buffered, chunks)
    requires buffered + Concat(chunks) == Concat(frames)
    requires buffered != [] ==> frames != [] && buffered < frames[0]
    ensures (Frames(Run(buffered, chunks).deliveries) == frames && Run(buffered, chunks).buffered == [])
              <==> Aligned(buffered, frames, chunks)
    decreases |chunks|
  {
    hide Feed;
    if chunks == [] {
      NothingLeft(buffered, frames);
    } else if chunks[0] == [] {
      EmptyRead(buffered);
      RunOneChunk(buffered, chunks);
      assert [] + Concat(chunks[1..]) == Concat(chunks[1..]);
      DeliversExactlyTheFramesIff(buffered, frames, chunks[1..]);
    } else {
      var received := buffered + chunks[0];
      ReadOnStream(buffered, frames, chunks);
      if |received| < |frames[0]| {
        DeliversExactlyTheFramesIff(received, frames, chunks[1..]);
      } else if |received| == |frames[0]| {
        assert [] + Concat(chunks[1..]) == Concat(frames[1..]);
        DeliversExactlyTheFramesIff([], frames[1..], chunks[1..]);
        assert frames == [frames[0]] + frames[1..];
      }
    }
  }

  /** One non-empty read of a stream of frames: it stays inside the first frame, ends it, or crosses its end. */
  lemma ReadOnStream(buffered: seq<byte>, frames: seq<seq<byte>>, chunks: seq<seq<byte>>)
    requires AllWellFormed(frames)
    requires Framed(buffered) && Compliant(buffered, chunks) && chunks != [] && chunks[0] != []
    requires buffered + Concat(chunks) == Concat(frames)
    requires buffered != [] ==> frames != [] && buffered < frames[0]
    ensures frames != []
    ensures var received, rest := buffered + chunks[0], chunks[1..];
            var o := Run(buffered, chunks);
            if |received| < |frames[0]| then
              && Framed(received) && Compliant(received, rest) && received < frames[0]
              && received + Concat(rest) == Concat(frames)
              && o == Run(received, rest)
            else if |received| == |frames[0]| then
              && Compliant([], rest) && Concat(rest) == Concat(frames[1..])
              && o.buffered == Run([], rest).buffered
              && Frames(o.deliveries) == [frames[0]] + Frames(Run([], rest).deliveries)
            else Frames(o.deliveries) != frames
  {
    hide Feed;
    hide Run;
    var received := buffered + chunks[0];
    FeedKeepsFramed(buffered, chunks[0]);
    Associative(buffered, chunks[0], Concat(chunks[1..]));
    assert frames != [];
    assert frames[0] in frames;
    FirstFrameIsAPrefix(received, chunks[1..], frames);
    FeedOnStream(buffered, chunks[0], frames[0]);
    RunOneChunk(buffered, chunks);
    if |received| > |frames[0]| {
      CrossingLosesBytes(buffered, frames, chunks);
    }
  }

  lemma EmptyRead(buffered: seq<byte>)
    requires Framed(buffered)
    ensures Feed(buffered, []) == Fed(buffered, None)
  {
  }

  lemma FirstFrameFits(frames: seq<seq<byte>>)
    requires frames != [] && AllWellFormed(frames)
    ensures WellFormed(frames[0]) && |frames[0]| <= |Concat(frames)|
  {
  }

  lemma NothingLeft(buffered: seq<byte>, frames: seq<seq<byte>>)
    requires AllWellFormed(frames) && buffered == Concat(frames)
    requires buffered != [] ==> frames != [] && buffered < frames[0]
    ensures frames == [] && buffered == []
  {
    if frames != [] {
      FirstFrameFits(frames);
      assert false;
    }
  }

  lemma CrossingLosesBytes(buffered: seq<byte>, frames: seq<seq<byte>>, chunks: seq<seq<byte>>)
    requires Framed(buffered) && Compliant(buffered, chunks) && chunks != []
    requires buffered + Concat(chunks) == Concat(frames)
    requires var fed := Feed(buffered, chunks[0]); fed.delivery.Some? && fed.delivery.value.dropped != []
    ensures Frames(Run(buffered, chunks).deliveries) != frames
  {
    BytesAreConserved(buffered, chunks);
    RunOneChunk(buffered, chunks);
    FramesFillTheirBytes(Run(buffered, chunks).deliveries);
  }

  /** One read on a buffer that holds the start of a well-formed frame. */
  lemma FeedOnStream(buffered: seq<byte>, chunk: seq<byte>, frame: seq<byte>)
    requires Framed(buffered) && |chunk| <= MaxRead(buffered) && chunk != []
    requires WellFormed(frame)
    requires var received := buffered + chunk;
             if |received| <= |frame| then received == frame[..|received|] else frame == received[..|frame|]
    ensures var received := buffered + chunk;
            var fed := Feed(buffered, chunk);
            if |received| < |frame| then fed == Fed(received, None)
            else fed.buffered == [] && fed.delivery.Some? && fed.delivery.value.frame == frame
                 && (fed.delivery.value.dropped == [] <==> |received| == |frame|)
  {
    var received := buffered + chunk;
    assert chunk[..|chunk|] == chunk;
    if |received| < |frame| {
      assert |received| >= 2 ==> received[1] == frame[1];
    } else {
      assert received[..|frame|] == frame;
      assert received[1] == frame[1];
    }
  }

  lemma FirstFrameIsAPrefix(received: seq<byte>, chunks: seq<seq<byte>>, frames: seq<seq<byte>>)
    requires frames != [] && received + Concat(chunks) == Concat(frames)
    ensures if |received| <= |frames[0]|
            then received == frames[0][..|received|]
            else frames[0] == received[..|frames[0]|]
    ensures |received| == |frames[0]| ==> Concat(chunks) == Concat(frames[1..])
  {
    var all := received + Concat(chunks);
    assert all == frames[0] + Concat(frames[1..]);
    assert all[..|received|] == received;
    assert all[..|frames[0]|] == frames[0];
    assert all[|received|..] == Concat(chunks);
    assert all[|frames[0]|..] == Concat(frames[1..]);
  }

  // ---------------------------------------------------------------------------------------------
  // Two transports polled in turn
  // ---------------------------------------------------------------------------------------------

  datatype Source = NoSource | Cdc | Tcp

  /** What the two transports have ready when run() polls them. */
  datatype Arrival = Arrival(tcp: seq<byte>, cdc: seq<byte>)

  datatype Received = Received(source: Source, delivery: Delivery)

  datatype Pair = Pair(tcp: seq<byte>, cdc: seq<byte>, received: seq<Received>)

  /** TCP is polled first; a completed TCP message takes the turn of CDC. */
  function Poll(tcp: seq<byte>, cdc: seq<byte>, a: Arrival): (p: Pair)
    requires |tcp| <= MAX_PACKET_SIZE && |cdc| <= MAX_PACKET_SIZE
    ensures |p.tcp| <= MAX_PACKET_SIZE && |p.cdc| <= MAX_PACKET_SIZE
    ensures |p.received| <= 1 && forall r <- p.received :: Dispatchable(r.delivery.frame)
  {
    var t := Feed(tcp, a.tcp);
    if t.delivery.Some? then Pair(t.buffered, cdc, [Received(Tcp, t.delivery.value)])
    else
      var c := Feed(cdc, a.cdc);
      Pair(t.buffered, c.buffered, if c.delivery.Some? then [Received(Cdc, c.delivery.value)] else [])
  }

  function PollAll(tcp: seq<byte>, cdc: seq<byte>, arrivals: seq<Arrival>): (p: Pair)
    requires |tcp| <= MAX_PACKET_SIZE && |cdc| <= MAX_PACKET_SIZE
    ensures |p.tcp| <= MAX_PACKET_SIZE && |p.cdc| <= MAX_PACKET_SIZE
    decreases |arrivals|
  {
    if arrivals == [] then Pair(tcp, cdc, [])
    else
      var first := Poll(tcp, cdc, arrivals[0]);
      var rest := PollAll(first.tcp, first.cdc, arrivals[1..]);
      Pair(rest.tcp, rest.cdc, first.received + rest.received)
  }

  lemma {:induction false} PollAllAppend(tcp: seq<byte>, cdc: seq<byte>, arrivals: seq<Arrival>, a: Arrival)
    requires |tcp| <= MAX_PACKET_SIZE && |cdc| <= MAX_PACKET_SIZE
    ensures var p := PollAll(tcp, cdc, arrivals);
            var last := Poll(p.tcp, p.cdc, a);
            PollAll(tcp, cdc, arrivals + [a]) == Pair(last.tcp, last.cdc, p.received + last.received)
    decreases |arrivals|
  {
    hide Poll;
    if arrivals == [] {
      assert ([] + [a])[1..] == [];
    } else {
      var first := Poll(tcp, cdc, arrivals[0]);
      PollAllAppend(first.tcp, first.cdc, arrivals[1..], a);
      assert (arrivals + [a])[1..] == arrivals[1..] + [a];
      var rest := PollAll(first.tcp, first.cdc, arrivals[1..]);
      Associative(first.received, rest.received, Poll(rest.tcp, rest.cdc, a).received);
    }
  }

  /** Polled together, neither framer ever overruns its buffer or gets stuck. */
  lemma {:induction false} PollsKeepFramed(tcp: seq<byte>, cdc: seq<byte>, arrivals: seq<Arrival>)
    requires Framed(tcp) && Framed(cdc)
    ensures Framed(PollAll(tcp, cdc, arrivals).tcp) && Framed(PollAll(tcp, cdc, arrivals).cdc)
    decreases |arrivals|
  {
    hide Feed;
    if arrivals != [] {
      FeedKeepsFramed(tcp, arrivals[0].tcp);
      FeedKeepsFramed(cdc, arrivals[0].cdc);
      var first := Poll(tcp, cdc, arrivals[0]);
      PollsKeepFramed(first.tcp, first.cdc, arrivals[1..]);
    }
  }

  function From(source: Source, received: seq<Received>): seq<Delivery> {
    if received == [] then []
    else (if received[0].source == source then [received[0].delivery] else []) + From(source, received[1..])
  }

  function TcpReads(arrivals: seq<Arrival>): seq<seq<byte>> {
    if arrivals == [] then [] else [arrivals[0].tcp] + TcpReads(arrivals[1..])
  }

  /** The CDC offers in the turns that the TCP framer, on its own, leaves to CDC. */
  function CdcReads(tcp: seq<byte>, arrivals: seq<Arrival>): seq<seq<byte>>
    requires |tcp| <= MAX_PACKET_SIZE
    decreases |arrivals|
  {
    if arrivals == [] then []
    else
      var t := Feed(tcp, arrivals[0].tcp);
      (if t.delivery.Some? then [] else [arrivals[0].cdc]) + CdcReads(t.buffered, arrivals[1..])
  }

  /**
   * Each transport delivers exactly what its framer alone delivers for the reads issued to it,
   * whatever partial frame sits in the other transport's buffer.
   */
  lemma {:induction false} TransportsAreIsolated(tcp: seq<byte>, cdc: seq<byte>, arrivals: seq<Arrival>)
    requires |tcp| <= MAX_PACKET_SIZE && |cdc| <= MAX_PACKET_SIZE
    ensures var p := PollAll(tcp, cdc, arrivals);
            && Outcome(p.tcp, From(Tcp, p.received)) == Run(tcp, TcpReads(arrivals))
            && Outcome(p.cdc, From(Cdc, p.received)) == Run(cdc, CdcReads(tcp, arrivals))
    decreases |arrivals|
  {
    hide Feed;
    if arrivals != [] {
      var a := arrivals[0];
      var first := Poll(tcp, cdc, a);
      var rest := PollAll(first.tcp, first.cdc, arrivals[1..]);
      TransportsAreIsolated(first.tcp, first.cdc, arrivals[1..]);
      assert TcpReads(arrivals)[1..] == TcpReads(arrivals[1..]);
      var t := Feed(tcp, a.tcp);
      var cdcReads := CdcReads(tcp, arrivals);
      if t.delivery.Some? {
        assert cdcReads == CdcReads(t.buffered, arrivals[1..]);
      } else {
        assert cdcReads[1..] == CdcReads(t.buffered, arrivals[1..]);
      }
      if first.received == [] {
        assert first.received + rest.received == rest.received;
      } else {
        assert (first.received + rest.received)[1..] == rest.received;
      }
    }
  }
}
