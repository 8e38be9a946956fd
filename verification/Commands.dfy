/** What a host command is answered with, told from the command alone. */
module Commands {
  import opened Basics
  import opened HarpMessage
  import opened CoreRegisters
  import opened Framing
  import Scheduler
  import Replies

  /** A reply other than an event: its kind, its address, and the only transport that carries it. */
  datatype Head = Head(kind: byte, address: byte, to: Source)

  /** The device never accepts a write to these. */
  predicate ReadOnly(address: byte) {
    address < 8 || address == TIMESTAMP_MICRO || 16 <= address < CORE_REG_COUNT
  }

  function ErrorOf(kind: byte): byte { if kind == READ then READ_ERROR else WRITE_ERROR }

  /** The command addresses a register and names its type; a write brings as many bytes as it holds. */
  predicate WellTyped(frame: seq<byte>)
    requires |frame| >= HEADER_SIZE
  {
    && Mapped(frame[2]) && frame[4] == RegType(frame[2])
    && (frame[0] == WRITE ==> PayloadLength(frame[1], frame[4]) == NumBytes(frame[2]))
  }

  /**
   * Joining framer, header arithmetic and register table: a write that passes the checks has been
   * received to its last payload byte, and neither length has wrapped.
   */
  lemma AcceptedWriteIsComplete(frame: seq<byte>)
    requires Dispatchable(frame)
    requires frame[0] == WRITE && WellTyped(frame)
    ensures frame[1] == NumBytes(frame[2]) + 4
    ensures MsgSize(frame[1]) == frame[1] + 2
    ensures PayloadBase(frame[4]) == HEADER_SIZE
    ensures HEADER_SIZE + NumBytes(frame[2]) < |frame|
  {
  }

  /** The payload of a write that passes the checks. */
  function Payload(frame: seq<byte>): (payload: seq<byte>)
    requires Dispatchable(frame) && frame[0] == WRITE && WellTyped(frame)
    ensures |payload| == NumBytes(frame[2])
  {
    AcceptedWriteIsComplete(frame);
    frame[HEADER_SIZE..HEADER_SIZE + NumBytes(frame[2])]
  }

  predicate ResetRejected(value: bv8) {
    || Has(value, Scheduler.BOOT_DEF) || Has(value, Scheduler.BOOT_EE)
    || Has(value, Scheduler.RST_EE) || Has(value, Scheduler.SAVE)
  }

  /** The register takes the value. */
  predicate Accepts(address: byte, payload: seq<byte>, unlocked: bool)
    requires Mapped(address) && |payload| == NumBytes(address)
  {
    && !ReadOnly(address)
    && (address == TIMESTAMP_SECOND ==> unlocked)
    && (address == OPERATION_CTRL ==> Scheduler.Mode(payload[0] as bv8) != Scheduler.SPEED)
    && (address == RESET_DEV ==> !ResetRejected(payload[0] as bv8))
  }

  /** The write is carried out. */
  predicate Accepted(frame: seq<byte>, unlocked: bool)
    requires Dispatchable(frame)
  {
    frame[0] == WRITE && WellTyped(frame) && Accepts(frame[2], Payload(frame), unlocked)
  }

  function DumpOf(first: byte, past: int, to: Source): (heads: seq<Head>)
    requires first <= past <= 256
    ensures |heads| == past - first
  {
    seq(past - first, i requires 0 <= i < past - first => Head(READ, first + i, to))
  }

  /** Both register blocks. */
  function Dump(to: Source): (heads: seq<Head>)
    ensures |heads| == 25
  {
    DumpOf(0, CORE_REG_COUNT, to) + DumpOf(CORE_EXTENSION_START, CORE_EXTENSION_START + CORE_EXTENSION_COUNT, to)
  }

  function OpCtrlAnswers(value: bv8, to: Source): seq<Head> {
    if Has(value, Scheduler.MUTE_RPL) then []
    else [Head(WRITE, OPERATION_CTRL, to)] + if Has(value, Scheduler.DUMP) then Dump(to) else []
  }

  /** An OPERATION_CTRL write that is accepted is judged by the mute bit it sets, any other by the one in force. */
  function WriteAnswers(address: byte, payload: seq<byte>, to: Source, muted: bool, unlocked: bool): seq<Head>
    requires Mapped(address) && |payload| == NumBytes(address)
  {
    if address == OPERATION_CTRL && Accepts(address, payload, unlocked) then
      OpCtrlAnswers(payload[0] as bv8, to)
    else if muted then []
    else [Head(if Accepts(address, payload, unlocked) then WRITE else WRITE_ERROR, address, to)]
  }

  /** The non-event replies to one delivered frame. */
  function Answers(frame: seq<byte>, to: Source, muted: bool, unlocked: bool): seq<Head>
    requires Dispatchable(frame)
  {
    var kind, address := frame[0], frame[2];
    if kind == WRITE && WellTyped(frame) then WriteAnswers(address, Payload(frame), to, muted, unlocked)
    else if muted || (kind != READ && kind != WRITE) then []
    else [Head(if kind == READ && WellTyped(frame) then READ else ErrorOf(kind), address, to)]
  }

  lemma DumpIsReplies(value: bv8, to: Source)
    ensures forall h <- OpCtrlAnswers(value, to) :: h.kind != EVENT && h.to == to
  {
    forall h | h in Dump(to)
      ensures h.kind == READ && h.to == to
    {
      var k :| 0 <= k < 25 && Dump(to)[k] == h;
    }
  }

  /** Answers are never events, and only the transport of the command gets them. */
  lemma AnswersAreReplies(frame: seq<byte>, to: Source, muted: bool, unlocked: bool)
    requires Dispatchable(frame)
    ensures forall h <- Answers(frame, to, muted, unlocked) :: h.kind != EVENT && h.to == to
  {
    hide WellTyped;
    hide Accepts;
    hide OpCtrlAnswers;
    if frame[0] == WRITE && WellTyped(frame) && frame[2] == OPERATION_CTRL {
      DumpIsReplies(Payload(frame)[0] as bv8, to);
    }
  }

  /** One reply per command, on its own transport; only an accepted OPERATION_CTRL write may answer differently. */
  lemma OneReplyPerCommand(frame: seq<byte>, to: Source, unlocked: bool)
    requires Dispatchable(frame)
    ensures var answers := Answers(frame, to, false, unlocked);
            && (frame[0] != READ && frame[0] != WRITE ==> answers == [])
            && (frame[0] == READ
                || (frame[0] == WRITE && (frame[2] != OPERATION_CTRL || !Accepted(frame, unlocked))) ==>
                  |answers| == 1 && answers[0].address == frame[2] && answers[0].to == to
                  && (answers[0].kind == frame[0] || answers[0].kind == ErrorOf(frame[0])))
            && (frame[2] == OPERATION_CTRL && Accepted(frame, unlocked) ==>
                  var value := Payload(frame)[0] as bv8;
                  |answers| == if Has(value, Scheduler.MUTE_RPL) then 0
                               else if Has(value, Scheduler.DUMP) then 26 else 1)
  {
    hide WellTyped;
    hide Has;
  }

  /** The dump is every register of the map, once, in ascending order. */
  lemma DumpListsTheMap(to: Source)
    ensures forall i, j :: 0 <= i < j < 25 ==> Dump(to)[i].address < Dump(to)[j].address
    ensures forall a: byte :: Mapped(a) <==> Head(READ, a, to) in Dump(to)
  {
    forall a: byte | Mapped(a)
      ensures Head(READ, a, to) in Dump(to)
    {
      var k := if a < CORE_REG_COUNT then a else a - 12;
      assert Dump(to)[k] == Head(READ, a, to);
    }
  }

  /** A DUMP is answered with its acknowledgement and the dump, judged by the mute bit it writes. */
  lemma DumpAnswer(frame: seq<byte>, to: Source, muted: bool, unlocked: bool)
    requires Dispatchable(frame)
    requires frame[2] == OPERATION_CTRL && Accepted(frame, unlocked)
    requires var value := Payload(frame)[0] as bv8; Has(value, Scheduler.DUMP) && !Has(value, Scheduler.MUTE_RPL)
    ensures Answers(frame, to, muted, unlocked) == [Head(WRITE, OPERATION_CTRL, to)] + Dump(to)
    ensures |Answers(frame, to, muted, unlocked)| == 26
  {
  }

  /**
   * A READ the host builds gets the register if and only if the register exists and is not
   * SERIAL_NUMBER, which the host takes for a byte.
   */
  lemma HostReadIsUnderstoodIff(address: byte, to: Source, unlocked: bool)
    ensures var f := Replies.BuildRead(address);
            && WellFormed(f) && Dispatchable(f) && f[0] == READ && f[2] == address
            && (WellTyped(f) <==> Mapped(address) && address != SERIAL_NUMBER)
            && Answers(f, to, false, unlocked)
               == [Head(if Mapped(address) && address != SERIAL_NUMBER then READ else READ_ERROR, address, to)]
  {
    Replies.CommandShape(READ, address, Replies.ReadType(address), []);
  }

  /** A command the host builds is well formed, and the device decodes the address and payload it was built from. */
  lemma HostWriteIsUnderstood(address: byte, payload: seq<byte>)
    requires Mapped(address) && |payload| == NumBytes(address)
    ensures var f := Replies.BuildWrite(address, RegType(address), payload);
            && WellFormed(f) && WellTyped(f)
            && f[0] == WRITE && f[2] == address
            && Payload(f) == payload
  {
    Replies.CommandShape(WRITE, address, RegType(address), payload);
  }

  /** A read that takes in a whole command of six bytes and more discards what is beyond it. */
  lemma CrossingRead(f: seq<byte>, g: seq<byte>)
    requires |f| == 6 && f[1] == 4 && |g| <= 249
    ensures Run([], [f + g]) == Outcome([], [Delivery(f, g)])
  {
    var none: seq<byte> := [];
    var chunk := f + g;
    assert chunk[..|chunk|] == chunk && none + chunk == chunk;
    assert chunk[..6] == f && chunk[6..] == g;
    var chunks := [chunk];
    assert chunks[1..] == [];
  }

  /** Two READs sent back to back and read at once: the first is delivered, the second discarded. */
  lemma PipelinedReadIsLost(first: byte, second: byte)
    ensures var f, g := Replies.BuildRead(first), Replies.BuildRead(second);
            Run([], [f + g]) == Outcome([], [Delivery(f, g)])
  {
    hide Replies.HostChecksum;
    hide Run;
    CrossingRead(Replies.BuildRead(first), Replies.BuildRead(second));
  }
}
