/** Whole runs of the core as values: the scheduler and the network settings inside them. */
module CoreRuns {
  import opened Basics
  import opened HarpMessage
  import opened CoreRegisters
  import opened Framing
  import opened Commands
  import opened CoreState
  import Scheduler
  import WrappedDeadline
  import NetworkSettings
  import SyncDecoding
  import Replies

  /**
   * A pass of the main loop with everything it received and sent, or an interrupt of the sync receiver
   * between two passes, with the second that it reports, if any, and the time.
   */
  datatype Happening =
    | Looped(received: seq<Received>, pass: Pass, ticked: seq<Sent>, events: seq<Sent>, sent: seq<Sent>)
    | Interrupt(second: Option<uint32>, at: int)

  predicate Possible(h: Happening) {
    h.Looped? ==> |h.received| <= 1 && forall r <- h.received :: Dispatchable(r.delivery.frame)
  }

  predicate AllPossible(hs: seq<Happening>) { forall h <- hs :: Possible(h) }

  /** The pulse that applies a packet at the time `at`. */
  function PulseOf(second: uint32, at: int): Scheduler.Event {
    Scheduler.SyncPulse(at, Wrap64(at - SyncDecoding.PulseTime(second)))
  }

  function Pulse(c: Core, second: Option<uint32>, at: int): Core {
    if second.None? then c else c.(sched := WrappedDeadline.FirmwareStep(c.sched, PulseOf(second.value, at)).s)
  }

  function After(c: Core, h: Happening): (after: Core)
    requires Sized(c) && Possible(h)
    ensures Sized(after)
  {
    match h
    case Looped(received, pass, _, _, _) =>
      PassKeepsSize(c, received, pass);
      Passed(c, received, pass)
    case Interrupt(second, at) => Pulse(c, second, at)
  }

  predicate NetSized(s: NetworkSettings.Settings) {
    |s.ssid| == SSID_LENGTH && |s.serverIp| == SERVER_IP_LENGTH && |s.port| == 2
  }

  lemma StringsKeepSize(s: NetworkSettings.Settings, c: NetworkSettings.Change)
    requires NetSized(s) && NetworkSettings.Legal(c) && !c.SetConfig? && !c.Reboot?
    ensures NetSized(NetworkSettings.Change1(s, c))
  {
  }

  lemma ConfigKeepsSize(s: NetworkSettings.Settings, value: bv8, saved: bool, erased: bool)
    requires NetSized(s)
    ensures NetSized(NetworkSettings.Configured(s, value, saved, erased))
  {
    hide Has;
  }

  lemma WriteKeepsSize(c: Core, address: byte, payload: seq<byte>, i: CommandInput)
    requires Sized(c) && Mapped(address) && |payload| == NumBytes(address)
    ensures Sized(Written(c, address, payload, i))
  {
    hide Updated;
    hide Scheduler.Step;
    hide NetworkSettings.Change1;
    hide NetworkSettings.Configured;
    match address
    case OPERATION_CTRL => UpdateKeepsSize(c, Some(Scheduler.Mode(payload[0] as bv8)), i.t1, i.host);
    case NET_SSID => StringsKeepSize(c.net, NetworkSettings.SetSsid(payload));
    case NET_PASSWORD => StringsKeepSize(c.net, NetworkSettings.SetPassword(payload));
    case NET_SERVER_IP => StringsKeepSize(c.net, NetworkSettings.SetServerIp(payload));
    case NET_SERVER_PORT => StringsKeepSize(c.net, NetworkSettings.SetPort(payload));
    case NET_CONFIG => ConfigKeepsSize(c.net, payload[0] as bv8, i.saved, i.erased);
    case _ =>
  }

  lemma UpdateKeepsSize(c: Core, forced: Option<bv8>, t: int, host: bool)
    requires Sized(c)
    ensures Sized(Updated(c, forced, t, host)) && Updated(c, forced, t, host).net == c.net
  {
  }

  lemma PassKeepsSize(c: Core, received: seq<Received>, pass: Pass)
    requires Sized(c) && forall r <- received :: Dispatchable(r.delivery.frame)
    ensures Sized(Passed(c, received, pass))
  {
    hide Written;
    UpdateKeepsSize(c, None, pass.tick.t, pass.tick.host);
    if received != [] {
      var frame := received[0].delivery.frame;
      if Accepted(frame, Scheduler.Unlocked(Ticked(c, pass.tick).sched)) {
        WriteKeepsSize(Ticked(c, pass.tick), frame[2], Payload(frame), pass.command);
      }
    }
  }

  function AfterAll(c: Core, hs: seq<Happening>): (after: Core)
    requires Sized(c) && AllPossible(hs)
    ensures Sized(after)
    decreases |hs|
  {
    if hs == [] then c else After(AfterAll(c, hs[..|hs| - 1]), hs[|hs| - 1])
  }

  /** What the framers delivered and what was sent, over a run. */
  function ReceivedIn(hs: seq<Happening>): seq<Received>
    decreases |hs|
  {
    if hs == [] then []
    else ReceivedIn(hs[..|hs| - 1]) + if hs[|hs| - 1].Looped? then hs[|hs| - 1].received else []
  }

  function SentIn(hs: seq<Happening>): seq<Sent>
    decreases |hs|
  {
    if hs == [] then []
    else SentIn(hs[..|hs| - 1]) + if hs[|hs| - 1].Looped? then SentBy(hs[|hs| - 1]) else []
  }

  function SentBy(h: Happening): seq<Sent>
    requires h.Looped?
  {
    h.ticked + (h.events + h.sent)
  }

  /** In a pass, the tick's event and the answers to the message are the ones the state calls for. */
  ghost predicate Explains(c: Core, h: Happening, fixed: FixedRegisters)
    requires FixedOk(fixed) && Sized(c) && Possible(h)
  {
    h.Looped? ==>
      && Sized(Ticked(c, h.pass.tick))
      && Ticking(c, Ticked(c, h.pass.tick), h.pass.tick, h.ticked, fixed)
      && Answering(Ticked(c, h.pass.tick), After(c, h), h.received, h.pass.command, h.events, h.sent, fixed)
  }

  ghost predicate AllExplained(c: Core, hs: seq<Happening>, fixed: FixedRegisters)
    requires FixedOk(fixed) && Sized(c) && AllPossible(hs)
    decreases |hs|
  {
    hs == [] ||
    (AllExplained(c, hs[..|hs| - 1], fixed) && Explains(AfterAll(c, hs[..|hs| - 1]), hs[|hs| - 1], fixed))
  }

  /** One more happening. */
  lemma Extend(c: Core, hs: seq<Happening>, h: Happening, fixed: FixedRegisters)
    requires FixedOk(fixed) && Sized(c) && AllPossible(hs) && Possible(h)
    requires AllExplained(c, hs, fixed) && Explains(AfterAll(c, hs), h, fixed)
    ensures AllPossible(hs + [h]) && AllExplained(c, hs + [h], fixed)
    ensures AfterAll(c, hs + [h]) == After(AfterAll(c, hs), h)
    ensures ReceivedIn(hs + [h]) == ReceivedIn(hs) + if h.Looped? then h.received else []
    ensures SentIn(hs + [h]) == SentIn(hs) + if h.Looped? then SentBy(h) else []
  {
    hide After;
    hide Explains;
    var all := hs + [h];
    assert all[..|all| - 1] == hs && all[|all| - 1] == h;
  }

  /** A READ built by the host, on either transport: the state is untouched and the host reads the register's value. */
  lemma HostReadsTheRegister(c: Core, after: Core, address: byte, to: Source, dropped: seq<byte>, i: CommandInput,
                             events: seq<Sent>, sent: seq<Sent>, fixed: FixedRegisters)
    requires FixedOk(fixed) && Sized(c) && Mapped(address) && address != SERIAL_NUMBER && !Scheduler.Muted(c.sched)
    requires Dispatchable(Replies.BuildRead(address))
    requires Answering(c, after, [Received(to, Delivery(Replies.BuildRead(address), dropped))], i, events, sent, fixed)
    requires forall e <- sent :: Printable(e)
    ensures after == c && events == [] && |sent| == 1 && sent[0].to == to
    ensures sent[0].harpTime == Scheduler.HarpTime(c.sched, sent[0].at)
    ensures var reply := ReadingOf(sent[0]);
            && reply.kind == READ && reply.address == address && reply.payloadType == RegType(address) + HAS_TIMESTAMP
            && reply.payload == (if Masked(READ, address) then MaskOf(address)
                                 else Image(fixed, c, sent[0].harpTime, address))
            && reply.seconds == Some(Replies.Seconds(sent[0].harpTime))
            && reply.micros == Some(Replies.Micros(sent[0].harpTime))
  {
    hide Image;
    hide Replies.BuildRead;
    HostReadIsUnderstoodIff(address, to, Scheduler.Unlocked(c.sched));
    assert HeadOf(sent[0]) == Head(READ, address, to);
    assert sent[0] in sent;
  }

  // ---------------------------------------------------------------------------------------------
  // The scheduler inside a run
  // ---------------------------------------------------------------------------------------------

  /** The scheduler event that a write stands for, accepted or not. */
  function WriteEvents(address: byte, payload: seq<byte>, i: CommandInput): seq<Scheduler.Event>
    requires Mapped(address) && |payload| == NumBytes(address)
  {
    match address
    case TIMESTAMP_SECOND => [Scheduler.WriteTimestamp(i.t1, i.t2, i.t3, i.t4, FromLe32(payload))]
    case OPERATION_CTRL => [Scheduler.WriteOpCtrl(i.t1, i.host, payload[0] as bv8)]
    case RESET_DEV => [Scheduler.WriteResetDev(payload[0] as bv8)]
    case CLOCK_CONFIG => [Scheduler.WriteClockConfig(payload[0] as bv8)]
    case _ => []
  }

  function FrameEvents(frame: seq<byte>, i: CommandInput): seq<Scheduler.Event>
    requires Dispatchable(frame)
  {
    if frame[0] == WRITE && WellTyped(frame) then WriteEvents(frame[2], Payload(frame), i) else []
  }

  function EventsOf(h: Happening): seq<Scheduler.Event>
    requires Possible(h)
  {
    match h
    case Looped(received, pass, _, _, _) =>
      [Scheduler.Tick(pass.tick.t, pass.tick.host)]
      + if received == [] then [] else FrameEvents(received[0].delivery.frame, pass.command)
    case Interrupt(second, at) => if second.Some? then [PulseOf(second.value, at)] else []
  }

  function AllEvents(hs: seq<Happening>): seq<Scheduler.Event>
    requires AllPossible(hs)
    decreases |hs|
  {
    if hs == [] then [] else AllEvents(hs[..|hs| - 1]) + EventsOf(hs[|hs| - 1])
  }

  lemma OpCtrlFollowsSchedule(c: Core, value: bv8, t: int, host: bool)
    requires Scheduler.Mode(value) != Scheduler.SPEED
    ensures OpCtrlWritten(c, value, t, host).sched
         == WrappedDeadline.FirmwareStep(c.sched, Scheduler.WriteOpCtrl(t, host, value)).s
  {
  }

  lemma WriteFollowsSchedule(c: Core, address: byte, payload: seq<byte>, i: CommandInput)
    requires Sized(c) && Mapped(address) && |payload| == NumBytes(address)
    ensures var unlocked := Scheduler.Unlocked(c.sched);
            var after := if Accepts(address, payload, unlocked) then Written(c, address, payload, i) else c;
            after.sched == WrappedDeadline.FirmwareRun(c.sched, WriteEvents(address, payload, i)).s
  {
    hide Updated;
    hide Scheduler.Realign;
    hide Scheduler.NextClockConfig;
    hide WrappedDeadline.Update;
    if address == OPERATION_CTRL && Scheduler.Mode(payload[0] as bv8) != Scheduler.SPEED {
      OpCtrlFollowsSchedule(c, payload[0] as bv8, i.t1, i.host);
    }
    var events := WriteEvents(address, payload, i);
    assert events == [] || events[1..] == [];
  }

  lemma PassFollowsSchedule(c: Core, h: Happening)
    requires Sized(c) && Possible(h)
    ensures After(c, h).sched == WrappedDeadline.FirmwareRun(c.sched, EventsOf(h)).s
  {
    hide Written;
    hide WriteEvents;
    hide WrappedDeadline.FirmwareStep;
    hide Scheduler.Unlocked;
    match h
    case Interrupt(second, at) =>
      if second.Some? {
        assert [PulseOf(second.value, at)][1..] == [];
      }
    case Looped(received, pass, _, _, _) => {
      var tick := Scheduler.Tick(pass.tick.t, pass.tick.host);
      var ticked := Ticked(c, pass.tick);
      TickFollowsSchedule(c, pass.tick);
      assert [tick][1..] == [];
      if received == [] {
        assert [tick] + [] == [tick];
      } else {
        var frame := received[0].delivery.frame;
        WrappedDeadline.RunAppend(c.sched, [tick], FrameEvents(frame, pass.command));
        UpdateKeepsSize(c, None, pass.tick.t, pass.tick.host);
        if frame[0] == WRITE && WellTyped(frame) {
          WriteFollowsSchedule(ticked, frame[2], Payload(frame), pass.command);
        }
      }
    }
  }

  lemma TickFollowsSchedule(c: Core, i: TickInput)
    requires Sized(c)
    ensures Ticked(c, i).sched == WrappedDeadline.FirmwareStep(c.sched, Scheduler.Tick(i.t, i.host)).s
    ensures Ticked(c, i).net == c.net
  {
  }

  /** The scheduler inside the core runs as if it were alone, on the events that the messages stand for. */
  lemma {:induction false} SchedulerInsideTheCore(c: Core, hs: seq<Happening>)
    requires Sized(c) && AllPossible(hs)
    ensures AfterAll(c, hs).sched == WrappedDeadline.FirmwareRun(c.sched, AllEvents(hs)).s
    decreases |hs|
  {
    if hs != [] {
      var front, h := hs[..|hs| - 1], hs[|hs| - 1];
      SchedulerInsideTheCore(c, front);
      PassFollowsSchedule(AfterAll(c, front), h);
      WrappedDeadline.RunAppend(c.sched, AllEvents(front), EventsOf(h));
    }
  }

  /** Wire-driven runs keep the mode machine sane and the lock as last asked for, however late their calls. */
  lemma WireDrivenRunsAreSane(c: Core, hs: seq<Happening>)
    requires Sized(c) && AllPossible(hs) && Scheduler.Sane(c.sched)
    ensures var end := AfterAll(c, hs).sched;
            && Scheduler.Sane(end)
            && (Has(end.clockConfig, Scheduler.LOCK) <==>
                  if Scheduler.LastLockRequest(AllEvents(hs)).Some? then Scheduler.LastLockRequest(AllEvents(hs)).value
                  else Has(c.sched.clockConfig, Scheduler.LOCK))
  {
    SchedulerInsideTheCore(c, hs);
    WrappedDeadline.WrappingTouchesOnlyTheDeadline(c.sched, c.sched, AllEvents(hs));
    Scheduler.ReachableStatesAreSane(c.sched, AllEvents(hs));
    Scheduler.LockFollowsLastRequest(c.sched, AllEvents(hs));
  }

  /** A core whose loop runs once a second is, state for state, the unbounded machine, and never behind its deadline. */
  lemma TimelyRunsAreUnbounded(c: Core, last: int, hs: seq<Happening>)
    requires Sized(c) && AllPossible(hs) && Scheduler.Sane(c.sched) && Scheduler.Ahead(c.sched, last)
    requires Scheduler.AllTimely(c.sched, last, AllEvents(hs))
    ensures AfterAll(c, hs).sched == Scheduler.Replay(c.sched, AllEvents(hs))
    ensures Scheduler.Ahead(AfterAll(c, hs).sched, Scheduler.LastChecked(c.sched, last, AllEvents(hs)))
  {
    SchedulerInsideTheCore(c, hs);
    WrappedDeadline.FirmwareRefinesUnbounded(c.sched, last, AllEvents(hs));
    Scheduler.DeadlineStaysAhead(c.sched, last, AllEvents(hs));
  }

  /** While the clock stays locked, no command on the wire moves it. */
  lemma LockedCoreKeepsItsClock(c: Core, hs: seq<Happening>)
    requires Sized(c) && AllPossible(hs) && Scheduler.Sane(c.sched) && !Scheduler.Unlocked(c.sched)
    requires forall e <- AllEvents(hs) :: !Scheduler.AsksToUnlock(e) && !e.SyncPulse?
    ensures Scheduler.OffsetInUse(AfterAll(c, hs).sched) == Scheduler.OffsetInUse(c.sched)
  {
    SchedulerInsideTheCore(c, hs);
    WrappedDeadline.WrappingTouchesOnlyTheDeadline(c.sched, c.sched, AllEvents(hs));
    Scheduler.LockedClockIsNotMoved(c.sched, AllEvents(hs));
  }

  // ---------------------------------------------------------------------------------------------
  // The network settings inside a run
  // ---------------------------------------------------------------------------------------------

  function WriteChanges(address: byte, payload: seq<byte>, i: CommandInput): (cs: seq<NetworkSettings.Change>)
    requires Mapped(address) && |payload| == NumBytes(address)
    ensures NetworkSettings.AllLegal(cs) && |cs| <= 1
  {
    match address
    case NET_SSID => [NetworkSettings.SetSsid(payload)]
    case NET_PASSWORD => [NetworkSettings.SetPassword(payload)]
    case NET_SERVER_IP => [NetworkSettings.SetServerIp(payload)]
    case NET_SERVER_PORT => [NetworkSettings.SetPort(payload)]
    case NET_CONFIG => [NetworkSettings.SetConfig(payload[0] as bv8, i.saved, i.erased)]
    case _ => []
  }

  function ChangesOf(h: Happening): (cs: seq<NetworkSettings.Change>)
    requires Possible(h)
    ensures NetworkSettings.AllLegal(cs) && |cs| <= 1
  {
    if h.Interrupt? || h.received == [] then []
    else
      var frame := h.received[0].delivery.frame;
      if frame[0] == WRITE && WellTyped(frame) then WriteChanges(frame[2], Payload(frame), h.pass.command) else []
  }

  function AllChanges(hs: seq<Happening>): (cs: seq<NetworkSettings.Change>)
    requires AllPossible(hs)
    ensures NetworkSettings.AllLegal(cs)
    decreases |hs|
  {
    if hs == [] then [] else AllChanges(hs[..|hs| - 1]) + ChangesOf(hs[|hs| - 1])
  }

  lemma WriteFollowsSettings(c: Core, address: byte, payload: seq<byte>, i: CommandInput)
    requires Sized(c) && Mapped(address) && |payload| == NumBytes(address)
    ensures var unlocked := Scheduler.Unlocked(c.sched);
            var after := if Accepts(address, payload, unlocked) then Written(c, address, payload, i) else c;
            var cs := WriteChanges(address, payload, i);
            after.net == if cs == [] then c.net else NetworkSettings.Change1(c.net, cs[0])
  {
    hide NetworkSettings.Change1;
    hide Scheduler.Step;
    if address == OPERATION_CTRL {
      UpdateKeepsSize(c, Some(Scheduler.Mode(payload[0] as bv8)), i.t1, i.host);
    }
    if address == NET_CONFIG {
      ConfigIsAChange(c.net, payload[0] as bv8, i.saved, i.erased);
    }
  }

  lemma ConfigIsAChange(s: NetworkSettings.Settings, value: bv8, saved: bool, erased: bool)
    requires |s.port| == 2
    ensures NetworkSettings.Change1(s, NetworkSettings.SetConfig(value, saved, erased))
         == NetworkSettings.Configured(s, value, saved, erased)
  {
  }

  lemma PassFollowsSettings(c: Core, h: Happening)
    requires Sized(c) && Possible(h)
    ensures After(c, h).net == if ChangesOf(h) == [] then c.net else NetworkSettings.Change1(c.net, ChangesOf(h)[0])
  {
    hide Written;
    hide WriteChanges;
    hide NetworkSettings.Change1;
    hide Scheduler.Unlocked;
    hide WrappedDeadline.FirmwareStep;
    if h.Looped? {
      TickFollowsSchedule(c, h.pass.tick);
      UpdateKeepsSize(c, None, h.pass.tick.t, h.pass.tick.host);
      if h.received != [] {
        var frame := h.received[0].delivery.frame;
        if frame[0] == WRITE && WellTyped(frame) {
          WriteFollowsSettings(Ticked(c, h.pass.tick), frame[2], Payload(frame), h.pass.command);
        }
      }
    }
  }

  /** The network settings inside the core follow the writes to the network registers, and nothing else. */
  lemma {:induction false} SettingsInsideTheCore(c: Core, hs: seq<Happening>)
    requires Sized(c) && AllPossible(hs) && NetworkSettings.Good(c.net)
    ensures AfterAll(c, hs).net == NetworkSettings.Changed(c.net, AllChanges(hs))
    decreases |hs|
  {
    if hs != [] {
      var front, h := hs[..|hs| - 1], hs[|hs| - 1];
      var before, cs := AllChanges(front), ChangesOf(h);
      SettingsInsideTheCore(c, front);
      PassFollowsSettings(AfterAll(c, front), h);
      if cs == [] {
        assert before + cs == before;
      } else {
        assert (before + cs)[..|before + cs| - 1] == before;
      }
    }
  }

  /** Over any wire-driven run without flash faults, flash holds the profile last applied and not cleared. */
  lemma FlashHoldsTheLastProfile(c: Core, hs: seq<Happening>)
    requires Sized(c) && AllPossible(hs) && NetworkSettings.Good(c.net)
    requires NetworkSettings.AllFaultless(AllChanges(hs))
    ensures AfterAll(c, hs).net.stored == NetworkSettings.LastProfile(c.net, AllChanges(hs))
    ensures NetworkSettings.Good(AfterAll(c, hs).net)
  {
    SettingsInsideTheCore(c, hs);
    NetworkSettings.StoredIsLastProfile(c.net, AllChanges(hs));
  }
}
