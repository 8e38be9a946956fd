/** What the heartbeat register and the periodic events say, up to the bytes that the hosts read. */
module EventContents {
  import opened Basics
  import opened HarpMessage
  import opened CoreRegisters
  import opened Framing
  import opened Commands
  import opened CoreState
  import opened CoreRuns
  import opened TaskRuns
  import opened HostView
  import Scheduler
  import WrappedDeadline
  import ModeMachine
  import Heartbeats
  import RegisterFile
  import Replies

  // ---------------------------------------------------------------------------------------------
  // The register and the choice of the event
  // ---------------------------------------------------------------------------------------------

  predicate HeartbeatEnabled(opCtrl: bv8) { opCtrl & 0x04 != 0 }

  /** ACTIVE is bit 0 and synchronized is bit 1; there is no other. */
  lemma HeartbeatBits(s: Scheduler.Sched)
    ensures var v := HeartbeatOf(s);
            v < 4 && (v % 2 == 1 <==> s.opCtrl & 3 == 1) && (v / 2 == 1 <==> Scheduler.Synced(s))
  {
    ModeMachine.ModeBits(s.opCtrl);
  }

  /** ACTIVE and unmuted, HEARTBEAT (18) is reported if bit 2 is set, or else TIMESTAMP_SECOND (8) if bit 7 is. */
  lemma ReportedRegister(s: Scheduler.Sched)
    ensures var event, reporting := Scheduler.EventRegister(s), s.opCtrl & 3 == 1 && s.opCtrl & 0x10 == 0;
            && (event == Some(18) <==> reporting && s.opCtrl & 0x04 != 0)
            && (event == Some(8) <==> reporting && s.opCtrl & 0x04 == 0 && s.opCtrl & 0x80 != 0)
            && (event != None ==> event == Some(18) || event == Some(8))
  {
    ModeMachine.ModeBits(s.opCtrl);
  }

  /** The bytes of HEARTBEAT in a device that is ACTIVE. */
  function HeartbeatBytes(synced: bool): seq<byte> { [if synced then 3 else 1, 0] }

  /** What an event out of the state c must be. */
  predicate Reports(c: Core, e: Sent) {
    && e.address == (if HeartbeatEnabled(c.sched.opCtrl) then 18 else 8)
    && (e.address == 18 ==> e.payload == HeartbeatBytes(Scheduler.Synced(c.sched)))
  }

  // ---------------------------------------------------------------------------------------------
  // One call of update_state
  // ---------------------------------------------------------------------------------------------

  /** If a call emits, the mode is ACTIVE and the register has just been brought up to date. */
  lemma UpdateReports(c: Core, forced: Option<bv8>, t: int, host: bool)
    requires forced.Some? ==> forced.value <= 3
    ensures var after, event := Updated(c, forced, t, host), WrappedDeadline.Update(c.sched, forced, t, host).event;
            && Scheduler.SameClock(c.sched, after.sched)
            && (event.Some? ==>
                  && event.value == (if HeartbeatEnabled(c.sched.opCtrl) then 18 else 8)
                  && after.heartbeat == HeartbeatOf(after.sched) && after.sched.opCtrl & 3 == 1)
  {
    hide Scheduler.EventRegister;
    hide HeartbeatOf;
    hide Scheduler.Mode;
    hide Scheduler.WithMode;
    hide Scheduler.NextMode;
    hide Scheduler.HarpTime;
    hide WrappedDeadline.Due;
    var entered := WrappedDeadline.Entered(c.sched, forced, t, host);
    ReportedRegister(entered);
    EnteredBits(c.sched, forced, t, host);
    ModeMachine.ModeBits(entered.opCtrl);
    HeartbeatOfSame(entered, WrappedDeadline.Check(entered, t).s);
  }

  /**
   * A forced call brings the register up to date only if it finds its deadline reached and the device
   * ACTIVE and unmuted; otherwise the register keeps its value until the next pass.
   */
  lemma ForcedRefreshIff(c: Core, value: bv8, t: int, host: bool)
    requires Scheduler.Forces(c.sched, value)
    ensures var due := WrappedDeadline.Due(Scheduler.Observe(c.sched, t, host), t);
            var after := OpCtrlWritten(c, value, t, host);
            if due && value & 3 == 1 && c.sched.opCtrl & 0x10 == 0 then after.heartbeat == HeartbeatOf(after.sched)
            else after.heartbeat == c.heartbeat
  {
    hide HeartbeatOf;
    hide HeartbeatEnabled;
    hide Scheduler.HarpTime;
    hide Scheduler.Mode;
    hide Scheduler.WithMode;
    hide Scheduler.EventRegister;
    var mode := Scheduler.Mode(value);
    var entered := WrappedDeadline.Entered(c.sched, Some(mode), t, host);
    ModeMachine.ModeBits(value);
    ModeMachine.ModeBits(value & !Scheduler.DUMP);
    ModeMachine.ModeBits(entered.opCtrl);
    EnteredBits(c.sched, Some(mode), t, host);
    MuteBit(c.sched.opCtrl, entered.opCtrl);
    ModeMachine.ForcedMode(c.sched.opCtrl, value & 3);
    ModeMachine.ClearingKeepsMode(value);
    ModeMachine.Cleared(value);
    if value & 3 == 1 {
      HeartbeatOfActive(entered, OpCtrlWritten(c, value, t, host).sched);
    }
  }

  lemma MuteBit(opCtrl: bv8, other: bv8)
    requires opCtrl & 0xFC == other & 0xFC
    ensures Has(opCtrl, Scheduler.MUTE_RPL) <==> Has(other, Scheduler.MUTE_RPL)
    ensures Has(opCtrl, Scheduler.MUTE_RPL) <==> opCtrl & 0x10 != 0
  {
    assert (opCtrl & 0xFC) & 0x10 == (other & 0xFC) & 0x10;
  }

  lemma EnteredBits(s: Scheduler.Sched, forced: Option<bv8>, t: int, host: bool)
    ensures WrappedDeadline.Entered(s, forced, t, host).opCtrl & 0xFC == s.opCtrl & 0xFC
    ensures HeartbeatEnabled(WrappedDeadline.Entered(s, forced, t, host).opCtrl) <==> HeartbeatEnabled(s.opCtrl)
  {
    hide Scheduler.Mode;
    hide Scheduler.NextMode;
    hide Scheduler.HarpTime;
  }

  lemma HeartbeatOfSame(a: Scheduler.Sched, b: Scheduler.Sched)
    requires a.opCtrl == b.opCtrl && a.sync == b.sync
    ensures HeartbeatOf(a) == HeartbeatOf(b)
  {
  }

  lemma HeartbeatImage(fixed: FixedRegisters, c: Core, harpTime: uint64)
    requires FixedOk(fixed)
    ensures c.heartbeat == HeartbeatOf(c.sched) ==>
              Image(fixed, c, harpTime, HEARTBEAT)
              == [(if c.sched.opCtrl & 3 == 1 then 1 else 0) + if Scheduler.Synced(c.sched) then 2 else 0, 0]
  {
    HeartbeatBits(c.sched);
  }

  // ---------------------------------------------------------------------------------------------
  // One pass
  // ---------------------------------------------------------------------------------------------

  /** The part of a pass before the transports leaves the register true of mode and synchronizer. */
  lemma TickShowsHeartbeat(fixed: FixedRegisters, c: Core, i: TickInput, harpTime: uint64)
    requires FixedOk(fixed) && Sized(c)
    ensures var after := Ticked(c, i);
            && Sized(after) && (after.sched.opCtrl & 0xFC == c.sched.opCtrl & 0xFC)
            && Image(fixed, after, harpTime, HEARTBEAT)
               == [(if after.sched.opCtrl & 3 == 1 then 1 else 0) + if Scheduler.Synced(after.sched) then 2 else 0, 0]
            && (Scheduler.Synced(after.sched) <==> Scheduler.Synced(c.sched))
  {
    hide Updated;
    hide HeartbeatOf;
    hide Image;
    UpdateReports(c, None, i.t, i.host);
    UpdateKeepsSize(c, None, i.t, i.host);
    TickFollowsSchedule(c, i);
    ModeMachine.FirmwareTickStep(c.sched, i.t, i.host);
    HeartbeatImage(fixed, Ticked(c, i), harpTime);
    HeartbeatOfSame(Updated(c, None, i.t, i.host).sched, Ticked(c, i).sched);
  }

  /** A WRITE of a register that can change the mode. */
  predicate WritesMode(frame: seq<byte>)
    requires Dispatchable(frame)
  {
    frame[0] == WRITE && (frame[2] == OPERATION_CTRL || frame[2] == RESET_DEV)
  }

  /** So does the whole pass, unless it carries out an OPERATION_CTRL or RESET_DEV write. */
  lemma PassShowsHeartbeat(fixed: FixedRegisters, c: Core, received: seq<Received>, p: Pass, harpTime: uint64)
    requires FixedOk(fixed) && Sized(c) && forall r <- received :: Dispatchable(r.delivery.frame)
    requires forall r <- received :: !WritesMode(r.delivery.frame)
    ensures var after := Passed(c, received, p);
            Image(fixed, after, harpTime, HEARTBEAT)
            == [(if after.sched.opCtrl & 3 == 1 then 1 else 0) + if Scheduler.Synced(c.sched) then 2 else 0, 0]
  {
    hide Image;
    hide Ticked;
    TickShowsHeartbeat(fixed, c, p.tick, harpTime);
    var ticked := Ticked(c, p.tick);
    if received != [] {
      assert received[0] in received;
      CommandKeepsHeartbeat(fixed, ticked, received[0].delivery.frame, p.command, harpTime);
    }
  }

  lemma CommandKeepsHeartbeat(fixed: FixedRegisters, c: Core, frame: seq<byte>, i: CommandInput, harpTime: uint64)
    requires FixedOk(fixed) && Sized(c) && Dispatchable(frame) && !WritesMode(frame)
    ensures var after := Executed(c, frame, i);
            && after.sched.opCtrl == c.sched.opCtrl
            && Image(fixed, after, harpTime, HEARTBEAT) == Image(fixed, c, harpTime, HEARTBEAT)
  {
    hide Written;
    hide Accepts;
    hide Scheduler.Unlocked;
    if Accepted(frame, Scheduler.Unlocked(c.sched)) {
      RegisterFile.WriteLeavesOthers(c, frame[2], Payload(frame), i);
    }
  }

  /** A frame about HEARTBEAT out of a state whose register is up to date. */
  lemma TellsHeartbeat(e: Sent, fixed: FixedRegisters, c: Core)
    requires FixedOk(fixed) && Tells(e, fixed, c, false) && e.address == HEARTBEAT
    requires c.heartbeat == HeartbeatOf(c.sched) && c.sched.opCtrl & 3 == 1
    ensures e.payload == HeartbeatBytes(Scheduler.Synced(c.sched))
  {
    HeartbeatImage(fixed, c, e.harpTime);
  }

  lemma TickReports(c: Core, h: Happening, fixed: FixedRegisters, e: Sent)
    requires FixedOk(fixed) && Sized(c) && Possible(h) && h.Looped? && Explains(c, h, fixed) && e in h.ticked
    ensures Reports(c, e)
  {
    hide Tells;
    hide Updated;
    hide HeartbeatOf;
    hide HeartbeatEnabled;
    hide HeartbeatBytes;
    hide WrappedDeadline.Update;
    hide StatusOf;
    var i := h.pass.tick;
    var after := Ticked(c, i);
    UpdateReports(c, None, i.t, i.host);
    var k :| 0 <= k < |h.ticked| && h.ticked[k] == e;
    assert Tells(e, fixed, after, false);
    assert HeadOf(e).address == e.address;
    if e.address == HEARTBEAT {
      TellsHeartbeat(e, fixed, after);
    }
  }

  /** The forced call of an OPERATION_CTRL write, before the register takes the value. */
  lemma ForcedReports(c: Core, value: bv8, t: int, host: bool)
    requires value & 3 != 3
    ensures var after, event := OpCtrlWritten(c, value, t, host),
                                WrappedDeadline.FirmwareStep(c.sched, Scheduler.WriteOpCtrl(t, host, value)).event;
            && Scheduler.SameClock(c.sched, after.sched)
            && (event.Some? ==>
                  && event.value == (if HeartbeatEnabled(c.sched.opCtrl) then 18 else 8)
                  && after.heartbeat == HeartbeatOf(after.sched) && after.sched.opCtrl & 3 == 1)
  {
    hide Updated;
    hide HeartbeatOf;
    hide HeartbeatEnabled;
    hide WrappedDeadline.Update;
    ModeMachine.ModeBits(value);
    if Scheduler.Forces(c.sched, value) {
      var mode := Scheduler.Mode(value);
      var forced := Updated(c, Some(mode), t, host);
      UpdateReports(c, Some(mode), t, host);
      ForcedModeStays(c, value, t, host);
      if forced.sched.opCtrl & 3 == 1 {
        HeartbeatOfActive(forced.sched, OpCtrlWritten(c, value, t, host).sched);
      }
    }
  }

  lemma ForcedModeStays(c: Core, value: bv8, t: int, host: bool)
    requires value & 3 != 3 && Scheduler.Forces(c.sched, value)
    ensures Updated(c, Some(Scheduler.Mode(value)), t, host).sched.opCtrl & 3 == value & 3
    ensures (value & !Scheduler.DUMP) & 3 == value & 3
  {
    hide HeartbeatOf;
    hide Scheduler.HarpTime;
    hide Scheduler.Mode;
    ModeMachine.ModeBits(value);
    ModeMachine.ForcedMode(c.sched.opCtrl, value & 3);
  }

  lemma HeartbeatOfActive(a: Scheduler.Sched, b: Scheduler.Sched)
    requires a.opCtrl & 3 == 1 && b.opCtrl & 3 == 1 && a.sync == b.sync
    ensures HeartbeatOf(a) == HeartbeatOf(b)
  {
    HeartbeatBits(a);
    HeartbeatBits(b);
  }

  lemma CommandReports(c: Core, after: Core, frame: seq<byte>, i: CommandInput, events: seq<Sent>,
                       fixed: FixedRegisters, e: Sent)
    requires FixedOk(fixed) && Sized(c) && Dispatchable(frame) && after == Executed(c, frame, i)
    requires CoreState.Announced(events, CommandEvent(c, frame, i), fixed, after) && e in events
    ensures Reports(c, e)
  {
    hide Tells;
    hide OpCtrlWritten;
    hide HeartbeatOf;
    hide HeartbeatEnabled;
    hide HeartbeatBytes;
    hide WrappedDeadline.FirmwareStep;
    var k :| 0 <= k < |events| && events[k] == e;
    assert HeadOf(e).address == e.address && Tells(e, fixed, after, false);
    var value := Payload(frame)[0] as bv8;
    SpeedEmitsNothing(c, value, i.t1, i.host);
    ForcedReports(c, value, i.t1, i.host);
    if e.address == HEARTBEAT {
      TellsHeartbeat(e, fixed, after);
    }
  }

  lemma SpeedEmitsNothing(c: Core, value: bv8, t: int, host: bool)
    ensures value & 3 == 3 ==>
              WrappedDeadline.FirmwareStep(c.sched, Scheduler.WriteOpCtrl(t, host, value)).event == None
    ensures Scheduler.Mode(value) == Scheduler.SPEED <==> value & 3 == 3
  {
    ModeMachine.ModeBits(value);
  }

  /** Every event of a pass reports what the state it meets calls for, whatever command comes with it. */
  lemma PassReports(c: Core, h: Happening, fixed: FixedRegisters, e: Sent)
    requires FixedOk(fixed) && Sized(c) && Possible(h) && h.Looped? && Explains(c, h, fixed)
    requires e in SentBy(h) && e.kind == EVENT
    ensures Reports(c, e)
  {
    hide Tells;
    hide Ticking;
    hide Ticked;
    hide Executed;
    hide Answers;
    hide Reports;
    PassTraffic(c, h, fixed);
    if e in h.ticked {
      TickReports(c, h, fixed, e);
    } else {
      var ticked := Ticked(c, h.pass.tick);
      CommandReports(ticked, After(c, h), h.received[0].delivery.frame, h.pass.command, h.events, fixed, e);
      TickShowsHeartbeat(fixed, c, h.pass.tick, 0);
      SameReports(ticked, c, e);
    }
  }

  lemma SameReports(a: Core, b: Core, e: Sent)
    requires Reports(a, e) && a.sched.opCtrl & 0xFC == b.sched.opCtrl & 0xFC
    requires Scheduler.Synced(a.sched) <==> Scheduler.Synced(b.sched)
    ensures Reports(b, e)
  {
    assert (a.sched.opCtrl & 0xFC) & 0x04 == (b.sched.opCtrl & 0xFC) & 0x04;
    LowBitsApart(a.sched.opCtrl);
    LowBitsApart(b.sched.opCtrl);
  }

  lemma LowBitsApart(opCtrl: bv8)
    ensures (opCtrl & 0xFC) & 0x04 == opCtrl & 0x04
  {
  }

  // ---------------------------------------------------------------------------------------------
  // Whole runs
  // ---------------------------------------------------------------------------------------------

  /** In every state that a happening of the run meets, HEARTBEAT_EN is as given. */
  predicate KeepsEnabled(c: Core, hs: seq<Happening>, enabled: bool)
    requires Sized(c) && AllPossible(hs)
    decreases |hs|
  {
    hs == [] ||
    (var front := hs[..|hs| - 1];
     KeepsEnabled(c, front, enabled) && (HeartbeatEnabled(AfterAll(c, front).sched.opCtrl) <==> enabled))
  }

  /** What a run's event must be while HEARTBEAT_EN is as given. */
  predicate EventAsEnabled(kind: byte, address: byte, payload: seq<byte>, enabled: bool) {
    kind == EVENT ==>
      address == (if enabled then 18 else 8) && (enabled ==> payload == [1, 0] || payload == [3, 0])
  }

  lemma {:induction false} RunReports(c: Core, hs: seq<Happening>, fixed: FixedRegisters, enabled: bool)
    requires FixedOk(fixed) && Sized(c) && AllPossible(hs) && AllExplained(c, hs, fixed) && KeepsEnabled(c, hs, enabled)
    ensures forall e <- SentIn(hs) :: EventAsEnabled(e.kind, e.address, e.payload, enabled)
    decreases |hs|
  {
    hide After;
    hide Explains;
    hide SentBy;
    hide HeartbeatEnabled;
    if hs != [] {
      var front, h := hs[..|hs| - 1], hs[|hs| - 1];
      RunReports(c, front, fixed, enabled);
      if h.Looped? {
        forall e | e in SentBy(h) && e.kind == EVENT
          ensures EventAsEnabled(e.kind, e.address, e.payload, enabled)
        {
          PassReports(AfterAll(c, front), h, fixed, e);
        }
      }
    }
  }

  lemma {:induction false} ReadingsAsEnabled(log: seq<Sent>, transport: Source, enabled: bool)
    requires forall e <- log :: Printable(e) && EventAsEnabled(e.kind, e.address, e.payload, enabled)
    ensures forall r <- ReadingsOf(log, transport) :: EventAsEnabled(r.kind, r.address, r.payload, enabled)
  {
    hide Printable;
    if log != [] {
      assert log[0] in log;
      forall e | e in log[1..]
        ensures Printable(e) && EventAsEnabled(e.kind, e.address, e.payload, enabled)
      {
        assert e in log;
      }
      ReadingsAsEnabled(log[1..], transport, enabled);
    }
  }

  lemma {:induction false} AddressesRead(replies: seq<Replies.HostReply>, enabled: bool)
    requires forall r <- replies :: EventAsEnabled(r.kind, r.address, r.payload, enabled)
    ensures forall address <- EventsRead(replies) :: address == if enabled then 18 else 8
  {
    if replies != [] {
      assert replies[0] in replies;
      AddressesRead(replies[1..], enabled);
    }
  }

  /**
   * Over any run, timely or not, every event that the host on either transport reads is about
   * HEARTBEAT, with bit 0 set and bit 1 or none, while HEARTBEAT_EN is set, and about
   * TIMESTAMP_SECOND while it is clear.
   */
  lemma HostReadsTheEnabledEvent(a: Snapshot, b: Snapshot, hs: seq<Happening>, turns: seq<Turn>, fixed: FixedRegisters,
                                 transport: Source, enabled: bool)
    requires Leads(a, b, hs, turns, fixed) && KeepsEnabled(a.core, hs, enabled)
    ensures var read := HostReads(Wire(SentIn(hs), transport));
            && (forall r <- read :: EventAsEnabled(r.kind, r.address, r.payload, enabled))
            && (forall address <- EventsRead(read) :: address == if enabled then 18 else 8)
  {
    hide AllFit;
    hide AllExplained;
    hide AfterAll;
    hide ReceiverAfter;
    hide ClockedUpTo;
    hide PollAll;
    hide Wire;
    hide KeepsEnabled;
    hide EventAsEnabled;
    hide ReceivedIn;
    hide AllEvents;
    forall e | e in SentIn(hs)
      ensures Printable(e)
    {
      assert e in b.log;
    }
    RunReports(a.core, hs, fixed, enabled);
    HostReadsWhatWasSent(SentIn(hs), transport);
    ReadingsAsEnabled(SentIn(hs), transport, enabled);
    AddressesRead(ReadingsOf(SentIn(hs), transport), enabled);
  }
}
