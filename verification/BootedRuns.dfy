/** Runs from power-on: what holds in every state the device reaches, with nothing left to assume about its start. */
module BootedRuns {
  import opened Basics
  import opened CoreRegisters
  import opened Framing
  import opened Commands
  import opened CoreState
  import opened CoreRuns
  import opened TaskRuns
  import SyncDecoding
  import Scheduler
  import WholeSeconds
  import ModeMachine
  import RegisterMap
  import NetworkSettings

  /** What power-on supplies: the name, the flash slot, the clock reading of the constructor, and flash outcomes. */
  datatype PowerOn = PowerOn(
    name: seq<byte>,
    stored: Option<NetworkSettings.Cfg>,
    t: int,
    loaded: bool,
    saved: bool,
    receiver: bool)

  predicate Plausible(p: PowerOn) {
    && |p.name| < 25 && 0 <= p.t < TWO_64 / 2
    && (p.stored.Some? ==> NetworkSettings.GoodCfg(p.stored.value))
  }

  /** The device when its loop starts, with or without a sync receiver. */
  function Started(p: PowerOn, now: int): Snapshot
    requires |p.name| < 25
  {
    var core := BootCore(p.name, p.stored, p.t, p.loaded, p.saved);
    var sync := if p.receiver then Some(Scheduler.SyncView(false, 0)) else None;
    Snapshot(core.(sched := core.sched.(sync := sync)), [], [], [], now,
             if p.receiver then Some(SyncDecoding.Receiver(SyncDecoding.AwaitHeader0, [])) else None)
  }

  lemma StartedSched(p: PowerOn, now: int)
    requires Plausible(p) && p.t <= now
    ensures var s := Started(p, now).core.sched;
            && Scheduler.Sane(s) && Scheduler.Unlocked(s) && Scheduler.Ahead(s, p.t)
            && WholeSeconds.OnWholeSeconds(s, 0, now)
  {
    hide Scheduler.Realign;
    Scheduler.BootIsSane(p.t);
    Scheduler.BootIsAhead(p.t);
    WholeSeconds.BootIsOnWholeSeconds(p.t);
    BootHasNoSync(p.t);
  }

  lemma BootHasNoSync(t: int)
    ensures Scheduler.Boot(t).sync == None && Scheduler.Boot(t).offset == 0
  {
  }

  lemma StartedNet(p: PowerOn, now: int)
    requires Plausible(p)
    ensures Standing(Started(p, now)) && NetworkSettings.Good(Started(p, now).core.net)
  {
    hide Scheduler.Boot;
    NetworkSettings.BootedIsGood(p.stored, p.loaded, p.saved);
  }

  /** Without a receiver nothing pulses. */
  lemma {:induction false} NoReceiverNoPulse(a: Snapshot, turns: seq<Turn>, hs: seq<Happening>)
    requires Standing(a) && AllFit(a, turns, hs) && AllPossible(hs) && a.receiver.None?
    ensures forall e <- AllEvents(hs) :: !e.SyncPulse?
    decreases |hs|
  {
    hide Fits;
    hide AllFit;
    hide EventsOf;
    if hs != [] {
      OneEach(a, turns, hs);
      FitsBefore(a, turns, hs);
      NoReceiverNoPulse(a, turns[..|turns| - 1], hs[..|hs| - 1]);
      NothingPulses(a, turns[..|turns| - 1], turns[|turns| - 1], hs[|hs| - 1]);
    }
  }

  lemma NothingPulses(a: Snapshot, before: seq<Turn>, turn: Turn, h: Happening)
    requires Standing(a) && a.receiver.None? && Possible(h) && Fits(a, before, turn, h)
    ensures forall e <- EventsOf(h) :: !e.SyncPulse?
  {
    hide PollAll;
    hide Poll;
    hide Dispatchable;
    hide WellTyped;
  }

  /** However late its calls and whatever it is sent: the mode machine, the lock, the framers and the settings. */
  lemma EveryStateIsSound(p: PowerOn, now: int, b: Snapshot, hs: seq<Happening>, turns: seq<Turn>,
                          fixed: FixedRegisters)
    requires Plausible(p) && p.t <= now && Leads(Started(p, now), b, hs, turns, fixed)
    ensures Scheduler.Sane(b.core.sched)
    ensures Scheduler.Unlocked(b.core.sched) <==> Scheduler.LastLockRequest(AllEvents(hs)) != Some(true)
    ensures Framed(b.tcp) && Framed(b.cdc)
    ensures NetworkSettings.Good(b.core.net)
    ensures p.receiver <==> b.core.sched.sync.Some?
  {
    hide AllFit;
    hide AllExplained;
    hide AfterAll;
    hide ReceiverAfter;
    hide ClockedUpTo;
    hide Started;
    var a := Started(p, now);
    StartedSched(p, now);
    StartedNet(p, now);
    StartedBuffers(p, now);
    WireDrivenRunsAreSane(a.core, hs);
    PollsKeepFramed(a.tcp, a.cdc, Arrivals(turns));
    SettingsInsideTheCore(a.core, hs);
    SyncStaysAttached(a.core, hs);
  }

  lemma StartedBuffers(p: PowerOn, now: int)
    requires |p.name| < 25
    ensures var a := Started(p, now);
            a.tcp == [] && a.cdc == [] && a.now == now && (p.receiver <==> a.core.sched.sync.Some?)
            && (p.receiver <==> a.receiver.Some?)
  {
  }

  /**
   * From power-on, as long as the loop runs once a second: every state is that of the unbounded
   * machine, the deadline is never behind, and without a receiver every heartbeat is on a whole Harp second.
   */
  lemma EveryTimelyStateIsOnTime(p: PowerOn, now: int, b: Snapshot, hs: seq<Happening>, turns: seq<Turn>,
                                 fixed: FixedRegisters)
    requires Plausible(p) && p.t <= now && Leads(Started(p, now), b, hs, turns, fixed)
    requires Scheduler.AllTimely(Started(p, now).core.sched, p.t, AllEvents(hs))
    ensures var s := Started(p, now).core.sched;
            && b.core.sched == Scheduler.Replay(s, AllEvents(hs))
            && Scheduler.Ahead(b.core.sched, Scheduler.LastChecked(s, p.t, AllEvents(hs)))
            && (!p.receiver ==> WholeSeconds.OnWholeSeconds(b.core.sched, WholeSeconds.FinalOff(s, 0, AllEvents(hs)),
                                                           Scheduler.FinalTime(now, AllEvents(hs))))
  {
    hide AllFit;
    hide AllExplained;
    hide AfterAll;
    hide ReceiverAfter;
    hide PollAll;
    hide Started;
    hide Scheduler.AllTimely;
    var a := Started(p, now);
    StartedSched(p, now);
    StartedNet(p, now);
    StartedBuffers(p, now);
    TimelyRunsAreUnbounded(a.core, p.t, hs);
    if !p.receiver {
      NoReceiverNoPulse(a, turns, hs);
      WholeSeconds.HeartbeatsStayOnWholeSeconds(a.core.sched, 0, now, AllEvents(hs));
    }
  }

  /** From power-on without flash faults, flash holds the profile last applied and not cleared, or the one it held. */
  lemma FlashSinceBoot(p: PowerOn, now: int, b: Snapshot, hs: seq<Happening>, turns: seq<Turn>, fixed: FixedRegisters)
    requires Plausible(p) && Leads(Started(p, now), b, hs, turns, fixed)
    requires p.loaded && p.saved && NetworkSettings.AllFaultless(AllChanges(hs))
    ensures Started(p, now).core.net.stored == p.stored
    ensures NetworkSettings.Good(Started(p, now).core.net)
    ensures b.core.net.stored == NetworkSettings.LastProfile(Started(p, now).core.net, AllChanges(hs))
  {
    hide AllFit;
    hide AllExplained;
    hide AfterAll;
    hide ReceiverAfter;
    hide PollAll;
    hide ClockedUpTo;
    hide Scheduler.Boot;
    StartedNet(p, now);
    if p.stored.Some? {
      NetworkSettings.BootRestoresProfile(p.stored.value, p.saved);
    }
    FlashHoldsTheLastProfile(Started(p, now).core, hs);
  }

  lemma {:induction false} FirstIsATick(hs: seq<Happening>)
    requires AllPossible(hs) && hs != [] && hs[0].Looped?
    ensures AllEvents(hs) != [] && AllEvents(hs)[0].Tick?
    decreases |hs|
  {
    if |hs| > 1 {
      FirstIsATick(hs[..|hs| - 1]);
    }
  }

  /**
   * From power-on with a host there, whatever it sends but mode changes, the device is ACTIVE from its
   * first pass on, on the one-second interval; with mode changes it is in the mode last asked for.
   */
  lemma HostTurnsActive(p: PowerOn, now: int, b: Snapshot, hs: seq<Happening>, turns: seq<Turn>, fixed: FixedRegisters)
    requires Plausible(p) && p.t <= now && Leads(Started(p, now), b, hs, turns, fixed)
    requires hs != [] && hs[0].Looped? && forall e <- AllEvents(hs) :: Scheduler.Connected(e)
    ensures b.core.sched.opCtrl & 3 == ModeMachine.LastModeAsked(1, AllEvents(hs))
    ensures (forall e <- AllEvents(hs) :: ModeMachine.ModeAsked(e).None?) ==>
              b.core.sched.opCtrl & 3 == 1 && b.core.sched.interval == 1_000_000
  {
    hide AllFit;
    hide AllExplained;
    hide AfterAll;
    hide ReceiverAfter;
    hide PollAll;
    hide ClockedUpTo;
    hide Started;
    var s := Started(p, now).core.sched;
    FirstIsATick(hs);
    StartsInStandby(p, now);
    SchedulerInsideTheCore(Started(p, now).core, hs);
    ModeMachine.ModeOfAConnection(s, AllEvents(hs));
    EveryStateIsSound(p, now, b, hs, turns, fixed);
    ModeMachine.ModeBits(b.core.sched.opCtrl);
    if forall e <- AllEvents(hs) :: ModeMachine.ModeAsked(e).None? {
      ModeMachine.NoneAsked(1, AllEvents(hs));
    }
  }

  lemma StartsInStandby(p: PowerOn, now: int)
    requires |p.name| < 25
    ensures var s := Started(p, now).core.sched; s.opCtrl == 0xE4 && !s.connectHandled && s.clockConfig == 0x40
    ensures Started(p, now).core.sched.opCtrl & 3 == 0
  {
  }

  /** What the registers show at power-on. */
  lemma PowerOnRegisters(p: PowerOn, now: int, fixed: FixedRegisters, harpTime: uint64)
    requires Plausible(p) && FixedOk(fixed)
    ensures var c := Started(p, now).core;
            && Image(fixed, c, harpTime, 10) == [0xE4] && Image(fixed, c, harpTime, 14) == [0x40]
            && Image(fixed, c, harpTime, 15) == [0] && Image(fixed, c, harpTime, 18) == [0, 0]
            && Image(fixed, c, harpTime, 33) == NetworkSettings.Zeros(64)
            && |Image(fixed, c, harpTime, 12)| == 25 && p.name <= Image(fixed, c, harpTime, 12)
            && (forall k :: |p.name| <= k < 25 ==> Image(fixed, c, harpTime, 12)[k] == 0)
            && Image(fixed, c, harpTime, 36)
               == [if p.loaded && p.stored.Some? then p.stored.value.enable as byte else 0]
  {
    hide Image;
    var c := Started(p, now).core;
    RegisterMap.ImagesByAddress(fixed, c, harpTime);
    RegisterMap.WordsByAddress(fixed, c, harpTime);
    StartsInStandby(p, now);
    NetworkSettings.DefaultRegisters(p.stored);
    if p.stored.Some? && p.loaded {
      NetworkSettings.BootRestoresProfile(p.stored.value, p.saved);
    }
  }
}
