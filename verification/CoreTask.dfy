/** The core task: the endless loop around run(), with the sync receiver interrupting it. */
module CoreTask {
  import opened Basics
  import opened CoreRegisters
  import opened Framing
  import opened CoreState
  import opened CoreRuns
  import opened TaskRuns
  import opened BootedRuns
  import opened HarpCore
  import Scheduler
  import SyncDecoding
  import Synchronizer
  import NetworkManager

  /** set_synchronizer. */
  method SetSynchronizer(core: HarpCore, sync: Synchronizer.HarpSynchronizer)
    requires core.Ready()
    modifies core`sync
    ensures core.Ready() && core.sync == sync
    ensures core.View() == old(core.View()).(
              sched := old(core.View()).sched.(sync := Some(Scheduler.SyncView(sync.hasSynced, sync.offset))))
  {
    core.sync := sync;
  }

  /** Everything a turn may change. */
  ghost predicate Serviceable(core: HarpCore)
    reads core, core.tcpRx, core.tcpRx.data, core.cdcRx, core.cdcRx.data, core.net, core.Syncs()
    reads set s | s in core.Syncs() :: s.syncData
  {
    && core.Steady() && core.RxOk() && core.newMsg == core.restarting
    && (core.sync != null ==> core.sync.Valid())
  }

  ghost function ReceiverOf(core: HarpCore): (r: Option<SyncDecoding.Receiver>)
    requires core.sync != null ==> core.sync.Valid()
    reads core`sync, core.sync, if core.sync == null then {} else {core.sync.syncData}
  {
    if core.sync == null then None else Some(core.sync.View())
  }

  ghost function SnapshotOf(core: HarpCore): Snapshot
    requires core.tcpRx.Valid() && core.cdcRx.Valid() && (core.sync != null ==> core.sync.Valid())
    reads core, core.regs, core.net, core.net.regs, core.tcpRx, core.tcpRx.data, core.cdcRx, core.cdcRx.data
    reads core.regs.deviceName, core.sync, if core.sync == null then {} else {core.sync.syncData}
    reads core.net.regs.netSsid, core.net.regs.netPassword, core.net.regs.netServerIp, core.net.regs.netServerPort
  {
    Snapshot(core.View(), core.tcpRx.Buffered(), core.cdcRx.Buffered(), core.log, core.now, ReceiverOf(core))
  }

  /** The bytes on the sync line are queued, and the receive interrupt runs once. */
  method ServeUart(sync: Synchronizer.HarpSynchronizer, bytes: seq<byte>, t: int) returns (pulse: Option<uint32>)
    requires sync.Valid()
    modifies sync, sync.syncData
    ensures sync.Valid() && sync.arrived == old(sync.arrived) + bytes
    ensures SyncDecoding.Heard(sync.View(), pulse) == SyncDecoding.Interrupted(old(sync.View()), bytes)
    ensures pulse.None? ==> sync.hasSynced == old(sync.hasSynced) && sync.offset == old(sync.offset)
    ensures pulse.Some? ==> sync.hasSynced && sync.offset == Wrap64(t - SyncDecoding.PulseTime(pulse.value))
  {
    sync.Receive(bytes);
    pulse := sync.UartRxCallback(t);
  }

  /** The receive interrupt moves the Harp clock exactly when it completes a packet, to the time the packet names. */
  method Interrupt(core: HarpCore, sync: Synchronizer.HarpSynchronizer, bytes: seq<byte>) returns (ghost h: Happening)
    requires core.Ready() && core.sync == sync && sync.Valid()
    modifies core`now, sync, sync.syncData
    ensures core.Ready() && sync.Valid() && sync.arrived == old(sync.arrived) + bytes
    ensures h.Interrupt? && old(core.now) <= h.at == core.now
    ensures SyncDecoding.Heard(sync.View(), h.second) == SyncDecoding.Interrupted(old(sync.View()), bytes)
    ensures core.View() == Pulse(old(core.View()), h.second, h.at)
  {
    hide HarpCore.Wired;
    hide Dispatchable;
    hide SyncDecoding.Interrupted;
    hide SyncDecoding.PulseTime;
    var t := core.Timer();
    var pulse := ServeUart(sync, bytes, t);
    h := CoreRuns.Interrupt(pulse, t);
  }

  /** What run() guarantees is what a pass as a happening is. */
  lemma RunIsAPass(c: Core, after: Core, h: Happening, fixed: FixedRegisters)
    requires h.Looped? && FixedOk(fixed) && Sized(c) && Possible(h)
    requires after == Passed(c, h.received, h.pass) && Sized(Ticked(c, h.pass.tick))
    requires Ticking(c, Ticked(c, h.pass.tick), h.pass.tick, h.ticked, fixed)
    requires Answering(Ticked(c, h.pass.tick), after, h.received, h.pass.command, h.events, h.sent, fixed)
    ensures after == After(c, h) && Explains(c, h, fixed)
  {
    hide Passed;
    hide Ticking;
    hide Answering;
  }

  /** One pass of the loop, as a happening. */
  method Pass(core: HarpCore, a: Arrival) returns (ghost h: Happening)
    requires core.Ready()
    modifies core, core.Syncs()`offset, core.tcpRx, core.tcpRx.data, core.cdcRx, core.cdcRx.data
    modifies core.regs, core.regs.Arrays(), core.net
    ensures core.Steady() && core.RxOk() && core.newMsg == core.restarting && core.sync == old(core.sync)
    ensures h.Looped? && Possible(h)
    ensures Poll(old(core.tcpRx.Buffered()), old(core.cdcRx.Buffered()), a)
         == Pair(core.tcpRx.Buffered(), core.cdcRx.Buffered(), h.received)
    ensures Sized(old(core.View())) && core.View() == After(old(core.View()), h)
    ensures Explains(old(core.View()), h, core.regs.fixed)
    ensures core.log == old(core.log) + SentBy(h)
    ensures old(core.now) <= core.now && ClockedUpTo(old(core.now), EventsOf(h), core.now)
    ensures core.restarting == EndsInRestart(h.received)
  {
    hide Answering;
    hide Ticking;
    hide Passed;
    hide Poll;
    hide HarpCore.View;
    hide HarpCore.Wired;
    hide After;
    hide Explains;
    hide EventsOf;
    hide EndsInRestart;
    hide Ticked;
    ghost var p, received, ticked, events, sent;
    p, received, ticked, events, sent := core.Run(a);
    h := Looped(received, p, ticked, events, sent);
    Associative(old(core.log), ticked, events + sent);
    RunIsAPass(old(core.View()), core.View(), h, core.regs.fixed);
    PassIsClocked(h, old(core.now), core.now);
  }

  /** A turn of the loop extends the run. */
  method PassTurn(core: HarpCore, a: Arrival, ghost start: Snapshot, ghost hs: seq<Happening>, ghost turns: seq<Turn>)
    returns (ghost h: Happening)
    requires Serviceable(core) && !core.restarting
    requires Leads(start, SnapshotOf(core), hs, turns, core.regs.fixed)
    modifies core, core.Syncs()`offset, core.tcpRx, core.tcpRx.data, core.cdcRx, core.cdcRx.data
    modifies core.regs, core.regs.Arrays(), core.net
    ensures Serviceable(core) && core.sync == old(core.sync)
    ensures Leads(start, SnapshotOf(core), hs + [h], turns + [Loop(a)], core.regs.fixed)
    ensures core.restarting == (h.Looped? && Possible(h) && EndsInRestart(h.received))
  {
    hide Leads;
    hide After;
    hide Explains;
    hide HarpCore.Wired;
    hide HarpCore.View;
    hide Poll;
    hide ClockedUpTo;
    hide EventsOf;
    hide EndsInRestart;
    ghost var before := SnapshotOf(core);
    h := Pass(core, a);
    LogIsPrintable(core);
    LeadsByPass(start, before, SnapshotOf(core), hs, turns, h, a, core.regs.fixed);
  }

  lemma LogIsPrintable(core: HarpCore)
    requires core.Wired()
    ensures forall e <- core.log :: Printable(e)
  {
  }

  method UartTurn(core: HarpCore, bytes: seq<byte>,
                  ghost start: Snapshot, ghost hs: seq<Happening>, ghost turns: seq<Turn>)
    returns (ghost h: Happening)
    requires Serviceable(core) && !core.restarting
    requires Leads(start, SnapshotOf(core), hs, turns, core.regs.fixed)
    modifies core`now, core.Syncs(), set s | s in core.Syncs() :: s.syncData
    ensures Serviceable(core) && !core.restarting && core.sync == old(core.sync) && h.Interrupt?
    ensures Leads(start, SnapshotOf(core), hs + [h], turns + [Uart(bytes)], core.regs.fixed)
    ensures core.sync != null ==> core.sync.arrived == old(core.sync.arrived) + bytes
  {
    hide Leads;
    hide After;
    hide Pulse;
    hide HarpCore.Wired;
    hide HarpCore.View;
    hide SyncDecoding.Interrupted;
    core.ViewIsSized();
    ghost var before := SnapshotOf(core);
    var sync := core.sync;
    if sync != null {
      h := Interrupt(core, sync, bytes);
    } else {
      h := CoreRuns.Interrupt(None, core.now);
      NothingPulsed(before.core, core.now);
    }
    AfterInterrupt(before.core, h);
    LeadsByInterrupt(start, before, SnapshotOf(core), hs, turns, h, bytes, core.regs.fixed);
  }

  lemma NothingPulsed(c: Core, at: int)
    ensures Pulse(c, None, at) == c
  {
  }

  method TakeTurn(core: HarpCore, turn: Turn, ghost start: Snapshot, ghost hs: seq<Happening>, ghost turns: seq<Turn>)
    returns (ghost h: Happening)
    requires Serviceable(core) && !core.restarting
    requires Leads(start, SnapshotOf(core), hs, turns, core.regs.fixed)
    modifies core, core.Syncs(), set s | s in core.Syncs() :: s.syncData
    modifies core.tcpRx, core.tcpRx.data, core.cdcRx, core.cdcRx.data
    modifies core.regs, core.regs.Arrays(), core.net
    ensures Serviceable(core) && core.sync == old(core.sync)
    ensures Leads(start, SnapshotOf(core), hs + [h], turns + [turn], core.regs.fixed)
    ensures core.restarting == (h.Looped? && Possible(h) && EndsInRestart(h.received))
    ensures core.sync != null ==> core.sync.arrived == old(core.sync.arrived) + if turn.Uart? then turn.bytes else []
  {
    hide Leads;
    hide Serviceable;
    hide EndsInRestart;
    match turn {
      case Loop(arrival) =>
        h := PassTurn(core, arrival, start, hs, turns);
        assert core.sync != null ==> core.sync.arrived + [] == core.sync.arrived;
      case Uart(bytes) =>
        h := UartTurn(core, bytes, start, hs, turns);
    }
  }

  /**
   * The core task serves its turns in order until they run out or a command restarts the chip. From
   * any ready core the whole run is accounted for, turn by turn, and every byte on the sync line arrives.
   */
  method RunCoreTask(core: HarpCore, turns: seq<Turn>) returns (ghost hs: seq<Happening>, ghost served: nat)
    requires core.Ready() && (core.sync != null ==> core.sync.Valid())
    modifies core, core.Syncs(), set s | s in core.Syncs() :: s.syncData
    modifies core.tcpRx, core.tcpRx.data, core.cdcRx, core.cdcRx.data
    modifies core.regs, core.regs.Arrays(), core.net
    ensures Serviceable(core) && core.sync == old(core.sync)
    ensures served <= |turns| && (served == |turns| || core.restarting)
    ensures Leads(old(SnapshotOf(core)), SnapshotOf(core), hs, turns[..served], core.regs.fixed)
    ensures core.sync != null ==> core.sync.arrived == old(core.sync.arrived) + Concat(UartChunks(turns[..served]))
  {
    hide Leads;
    hide SnapshotOf;
    hide HarpCore.Wired;
    hide HarpCore.RegsOk;
    hide HarpCore.ClockOk;
    hide Dispatchable;
    hide UartChunks;
    hide Concat;
    ghost var start := SnapshotOf(core);
    Begins(core);
    assert core.sync != null ==> core.sync.arrived == core.sync.arrived + Concat(UartChunks(turns[..0])) by {
      NoUartBytes();
    }
    hs, served := [], 0;
    var i := 0;
    while i < |turns| && !core.restarting
      invariant i == served <= |turns| && core.sync == old(core.sync) && Serviceable(core)
      invariant Leads(start, SnapshotOf(core), hs, turns[..i], core.regs.fixed)
      invariant core.sync != null ==> core.sync.arrived == old(core.sync.arrived) + Concat(UartChunks(turns[..i]))
    {
      assert turns[..i + 1] == turns[..i] + [turns[i]];
      UartBytesNext(turns[..i], turns[i]);
      ghost var h := TakeTurn(core, turns[i], start, hs, turns[..i]);
      hs, i, served := hs + [h], i + 1, served + 1;
    }
  }

  lemma NoUartBytes()
    ensures Concat(UartChunks([])) == []
  {
  }

  lemma UartBytesNext(turns: seq<Turn>, turn: Turn)
    ensures Concat(UartChunks(turns + [turn]))
         == Concat(UartChunks(turns)) + if turn.Uart? then turn.bytes else []
  {
    MoreTurns(turns, turn);
    if turn.Uart? {
      ConcatAppend(UartChunks(turns), [turn.bytes]);
      ConcatOne(turn.bytes);
    } else {
      assert UartChunks(turns) + [] == UartChunks(turns);
      assert Concat(UartChunks(turns)) + [] == Concat(UartChunks(turns));
    }
  }

  lemma Begins(core: HarpCore)
    requires core.Ready() && (core.sync != null ==> core.sync.Valid())
    ensures Leads(SnapshotOf(core), SnapshotOf(core), [], [], core.regs.fixed)
  {
    core.ViewIsSized();
    RunBegins(SnapshotOf(core), core.regs.fixed);
  }

  method Attach(core: HarpCore)
    requires core.Ready() && core.sync == null
    modifies core`sync
    ensures core.Ready() && core.sync != null && core.sync.Valid() && fresh(core.sync) && fresh(core.sync.syncData)
    ensures core.View() == old(core.View()).(
              sched := old(core.View()).sched.(sync := Some(Scheduler.SyncView(false, 0))))
    ensures core.sync.View() == SyncDecoding.Receiver(SyncDecoding.AwaitHeader0, [])
  {
    hide HarpCore.Wired;
    hide HarpCore.RegsOk;
    core.SchedInView();
    var sync := new Synchronizer.HarpSynchronizer();
    SetSynchronizer(core, sync);
  }

  /** The start of app_main: construction, and the receiver if it is enabled. */
  method StartUp(fixed: FixedRegisters, name: seq<byte>, slot: NetworkManager.Slot, enableUartSync: bool)
    returns (core: HarpCore, ghost p: PowerOn)
    requires FixedOk(fixed) && |name| < 25 && NetworkManager.SlotOk(slot)
    ensures core.Ready() && (core.sync != null ==> core.sync.Valid()) && core.regs.fixed == fixed
    ensures fresh(core) && fresh(core.Syncs()) && (core.sync != null ==> fresh(core.sync.syncData))
    ensures fresh(core.tcpRx) && fresh(core.tcpRx.data) && fresh(core.cdcRx) && fresh(core.cdcRx.data)
    ensures fresh(core.regs) && fresh(core.regs.Arrays()) && fresh(core.net)
    ensures p.name == name && p.stored == NetworkManager.StoredIn(slot) && p.receiver == enableUartSync
    ensures 0 <= p.t <= core.now < TWO_64 / 2 && SnapshotOf(core) == Started(p, core.now)
  {
    hide HarpCore.Wired;
    hide HarpCore.RegsOk;
    hide HarpCore.View;
    hide BootCore;
    ghost var t, loaded, saved;
    core, loaded, saved, t := HarpCore.Init(fixed, name, slot);
    p := PowerOn(name, NetworkManager.StoredIn(slot), t, loaded, saved, enableUartSync);
    if enableUartSync {
      Attach(core);
    } else {
      BootsDetached(p);
    }
  }

  lemma BootsDetached(p: PowerOn)
    requires |p.name| < 25
    ensures BootCore(p.name, p.stored, p.t, p.loaded, p.saved).sched.sync == None
  {
  }

  /** app_main: from any flash content, every run of the device is one that starts at power-on. */
  method AppMain(fixed: FixedRegisters, name: seq<byte>, slot: NetworkManager.Slot, enableUartSync: bool,
                 turns: seq<Turn>)
    returns (core: HarpCore, ghost p: PowerOn, ghost now: int, ghost hs: seq<Happening>, ghost served: nat)
    requires FixedOk(fixed) && |name| < 25 && NetworkManager.SlotOk(slot)
    ensures Serviceable(core) && fresh(core)
    ensures p.name == name && p.stored == NetworkManager.StoredIn(slot) && p.receiver == enableUartSync
    ensures 0 <= p.t <= now < TWO_64 / 2
    ensures served <= |turns| && (served == |turns| || core.restarting)
    ensures Leads(Started(p, now), SnapshotOf(core), hs, turns[..served], fixed)
  {
    hide Leads;
    hide SnapshotOf;
    hide Started;
    hide HarpCore.Wired;
    hide HarpCore.RegsOk;
    core, p := StartUp(fixed, name, slot, enableUartSync);
    now := core.now;
    hs, served := RunCoreTask(core, turns);
  }
}
