/** The UART receiver that keeps the Harp clock offset. */
module Synchronizer {
  import opened Basics
  import opened SyncDecoding

  datatype SyncState = RECEIVE_HEADER_0 | RECEIVE_HEADER_1 | RECEIVE_TIMESTAMP

  class HarpSynchronizer {
    var queue: seq<byte>
    var state: SyncState
    var packetIndex: int
    const syncData: array<byte>
    var newTimestamp: bool
    var hasSynced: bool
    var offset: uint64

    /** Every byte the UART received, those the callback has taken, and the seconds applied. */
    ghost var arrived: seq<byte>
    ghost var consumed: seq<byte>
    ghost var applied: seq<uint32>

    ghost function CurrentFsm(): Fsm
      reads `state, `packetIndex, syncData
      requires 0 <= packetIndex <= syncData.Length
    {
      match state
      case RECEIVE_HEADER_0 => AwaitHeader0
      case RECEIVE_HEADER_1 => AwaitHeader1
      case RECEIVE_TIMESTAMP => InTimestamp(syncData[..packetIndex])
    }

    /**
     * Whatever the interrupts made of it: nothing is lost or reordered, and the seconds applied
     * are those the byte stream announces.
     */
    ghost predicate Valid()
      reads `queue, `state, `packetIndex, `newTimestamp, `hasSynced, `arrived, `consumed, `applied, syncData
    {
      && Standing()
      && !newTimestamp
      && consumed + queue == arrived
      && Decode(AwaitHeader0, consumed) == Decoded(CurrentFsm(), applied)
      && (hasSynced <==> applied != [])
    }

    constructor ()
      ensures Valid() && fresh(syncData)
      ensures arrived == [] && applied == [] && offset == 0 && !hasSynced
      ensures View() == Receiver(AwaitHeader0, [])
    {
      queue, state, packetIndex, newTimestamp, hasSynced, offset := [], RECEIVE_HEADER_0, 0, false, false, 0;
      syncData := new byte[4](_ => 0);
      arrived, consumed, applied := [], [], [];
    }

    ghost function View(): Receiver
      reads `queue, `state, `packetIndex, syncData
      requires 0 <= packetIndex <= syncData.Length
    {
      Receiver(CurrentFsm(), queue)
    }

    /** The UART driver queues received bytes at any time between callbacks. */
    method Receive(bytes: seq<byte>)
      requires Valid()
      modifies this
      ensures Valid() && unchanged(`offset) && unchanged(`applied) && unchanged(`hasSynced)
      ensures arrived == old(arrived) + bytes && View() == Receiver(old(View()).fsm, old(queue) + bytes)
    {
      queue, arrived := queue + bytes, arrived + bytes;
    }

    /** A write of TIMESTAMP_SECOND sets the offset too: the Harp clock shows the given time at t. */
    method SetHarpTime(harpTime: uint64, t: int)
      modifies this`offset
      ensures SystemToHarp(t) == harpTime
      ensures offset == Wrap64(t - harpTime)
    {
      offset := Wrap64(t - harpTime);
      WrapBack(t, harpTime);
    }

    /** The Harp time at system time t. */
    function SystemToHarp(t: int): uint64
      reads `offset
    {
      Wrap64(t - offset)
    }

    /** read_byte: takes one byte from the UART queue. */
    method ReadByte() returns (b: byte)
      requires queue != [] && consumed + queue == arrived
      modifies `queue, `consumed
      ensures b == old(queue[0]) && queue == old(queue[1..])
      ensures consumed == old(consumed) + [b] && consumed + queue == arrived
    {
      b := queue[0];
      Associative(consumed, [b], queue[1..]);
      assert queue == [b] + queue[1..];
      queue, consumed := queue[1..], consumed + [b];
    }

    ghost predicate Standing()
      reads `state, `packetIndex
    {
      && syncData.Length == 4
      && 0 <= packetIndex < 4
      && (state != RECEIVE_TIMESTAMP ==> packetIndex == 0)
    }

    /** The switch on one received byte; a completed timestamp is left in syncData. */
    method Accept(newByte: byte)
      requires Standing() && !newTimestamp
      modifies `state, `packetIndex, `newTimestamp, syncData
      ensures Standing()
      ensures old(Next(CurrentFsm(), newByte))
           == Decoded(CurrentFsm(), if newTimestamp then [SecondNamedBy(syncData[..])] else [])
    {
      match state {
        case RECEIVE_HEADER_0 =>
          if newByte == 0xAA {
            state := RECEIVE_HEADER_1;
          }
        case RECEIVE_HEADER_1 =>
          if newByte == 0xAF {
            state := RECEIVE_TIMESTAMP;
          } else {
            state := RECEIVE_HEADER_0;
          }
        case RECEIVE_TIMESTAMP =>
          var index := packetIndex;
          syncData[index] := newByte;
          index := index + 1;
          assert syncData[..index] == old(syncData[..packetIndex]) + [newByte];
          packetIndex := index;
          if index == 4 {
            assert syncData[..] == syncData[..4];
            state := RECEIVE_HEADER_0;
            packetIndex := 0;
            newTimestamp := true;
          }
      }
    }

    ghost predicate InStep()
      reads `queue, `state, `packetIndex, `newTimestamp, `arrived, `consumed, `applied, syncData
    {
      && Standing()
      && consumed + queue == arrived
      && Decode(AwaitHeader0, consumed)
         == Decoded(CurrentFsm(), if newTimestamp then applied + [SecondNamedBy(syncData[..])] else applied)
    }

    method TakeOne()
      requires InStep() && !newTimestamp && queue != []
      modifies `queue, `consumed, `state, `packetIndex, `newTimestamp, syncData
      ensures InStep() && queue == old(queue[1..])
      ensures old(Next(CurrentFsm(), queue[0]))
           == Decoded(CurrentFsm(), if newTimestamp then [SecondNamedBy(syncData[..])] else [])
    {
      DecodeOneMore(AwaitHeader0, consumed, queue[0]);
      var newByte := ReadByte();
      Accept(newByte);
    }

    method ApplyTimestamp(now: int) returns (second: uint32)
      requires InStep() && newTimestamp
      modifies `offset, `hasSynced, `newTimestamp, `applied
      ensures Valid() && View() == old(View()) && second == old(SecondNamedBy(syncData[..]))
      ensures applied == old(applied) + [second]
      ensures hasSynced && offset == Wrap64(now - PulseTime(second)) && SystemToHarp(now) == PulseTime(second)
    {
      second := SecondNamedBy(syncData[..]);
      offset := Wrap64(now - PulseTime(second));
      hasSynced := true;
      newTimestamp := false;
      applied := applied + [second];
      WrapBack(now, PulseTime(second));
    }

    /** The interrupt so far: what is left of it, or the packet that ended it. */
    ghost predicate Reaches(h: Heard)
      reads `queue, `state, `packetIndex, `newTimestamp, syncData
      requires Standing()
    {
      h == if newTimestamp then Heard(View(), Some(SecondNamedBy(syncData[..]))) else Callback(View())
    }

    /** The receive loop: until the queue is empty or a timestamp is complete. */
    method TakeUntilTimestamp()
      requires InStep() && !newTimestamp
      modifies `queue, `consumed, `state, `packetIndex, `newTimestamp, syncData
      ensures InStep() && (newTimestamp || queue == [])
      ensures old(Callback(View())) == Heard(View(), if newTimestamp then Some(SecondNamedBy(syncData[..])) else None)
    {
      while |queue| > 0 && !newTimestamp
        invariant InStep() && Reaches(old(Callback(View())))
        decreases |queue|
      {
        TakeOne();
      }
    }

    /** The receive interrupt is Callback; the packet it completes, reported as `pulse`, moves the clock. */
    method UartRxCallback(now: int) returns (pulse: Option<uint32>)
      requires Valid()
      modifies this, syncData
      ensures Valid() && arrived == old(arrived)
      ensures Heard(View(), pulse) == old(Callback(View()))
      ensures pulse.None? ==> applied == old(applied) && offset == old(offset) && hasSynced == old(hasSynced)
      ensures pulse.Some? ==> applied == old(applied) + [pulse.value] && hasSynced
                              && offset == Wrap64(now - PulseTime(pulse.value))
                              && SystemToHarp(now) == PulseTime(pulse.value)
    {
      hide Callback;
      hide Decode;
      hide PulseTime;
      hide CurrentFsm;
      pulse := None;
      TakeUntilTimestamp();
      if newTimestamp {
        var second := ApplyTimestamp(now);
        pulse := Some(second);
      }
    }
  }
}
