/** The 8-bit Harp message header and its uint8_t arithmetic. */
module HarpMessage {
  import opened Basics

  const MAX_PACKET_SIZE := 255
  const HEADER_SIZE := 5

  const READ: byte := 1
  const WRITE: byte := 2
  const EVENT: byte := 3
  const READ_ERROR: byte := 9
  const WRITE_ERROR: byte := 10

  const HAS_TIMESTAMP: byte := 0x10
  const U8: byte := 1
  const U16: byte := 2
  const U32: byte := 4

  function MsgSize(rawLength: byte): byte { Wrap8(rawLength + 2) }

  function PayloadLength(rawLength: byte, payloadType: byte): byte {
    if HasBit(payloadType, HAS_TIMESTAMP) then Wrap8(rawLength - 10) else Wrap8(rawLength - 4)
  }

  function PayloadBase(payloadType: byte): byte {
    if HasBit(payloadType, HAS_TIMESTAMP) then 11 else 5
  }

  /** A complete frame whose length byte describes it without wrap-around and leaves room for header and checksum. */
  predicate WellFormed(frame: seq<byte>) {
    && 6 <= |frame| <= MAX_PACKET_SIZE
    && |frame| == frame[1] as int + 2
  }
}
