/**
 * The Harp clock, the heartbeat deadline and the operation mode, as one machine over unbounded
 * microseconds. HarpCore keeps the same state with a 32-bit wrapping deadline.
 */
module Scheduler {
  import opened Basics
  import CoreRegisters

  const SECOND := 1_000_000
  const ACTIVE_INTERVAL: uint32 := 1_000_000
  const STANDBY_INTERVAL: uint32 := 3_000_000

  const STANDBY: bv8 := 0
  const ACTIVE: bv8 := 1
  const SPEED: bv8 := 3
  const OP_MODE: bv8 := 0x03

  const HEARTBEAT_EN: bv8 := 0x04
  const DUMP: bv8 := 0x08
  const MUTE_RPL: bv8 := 0x10
  const ALIVE_EN: bv8 := 0x80

  const CLK_REP: bv8 := 0x01
  const CLK_GEN: bv8 := 0x02
  const REP_ABLE: bv8 := 0x08
  const GEN_ABLE: bv8 := 0x10
  const UNLOCK: bv8 := 0x40
  const LOCK: bv8 := 0x80

  const RST_DEF: bv8 := 0x01
  const RST_EE: bv8 := 0x02
  const SAVE: bv8 := 0x04
  const NAME_TO_DEFAULT: bv8 := 0x08
  const RST_DFU: bv8 := 0x20
  const BOOT_DEF: bv8 := 0x40
  const BOOT_EE: bv8 := 0x80

  /** What HarpCore sees of an attached synchronizer. */
  datatype SyncView = SyncView(synced: bool, offset: uint64)

  datatype Sched = Sched(
    opCtrl: bv8,
    clockConfig: bv8,
    offset: uint64,
    sync: Option<SyncView>,
    disconnectHandled: bool,
    connectHandled: bool,
    syncHandled: bool,
    interval: uint32,
    deadline: int)

  function Mode(opCtrl: bv8): bv8 { opCtrl & OP_MODE }

  function WithMode(opCtrl: bv8, mode: bv8): bv8 { (opCtrl & !OP_MODE) | (mode & OP_MODE) }

  predicate Muted(s: Sched) { Has(s.opCtrl, MUTE_RPL) }

  predicate Synced(s: Sched) { s.sync.Some? && s.sync.value.synced }

  function OffsetInUse(s: Sched): uint64 { if s.sync.None? then s.offset else s.sync.value.offset }

  /** The Harp time at system time t. */
  function HarpTime(s: Sched, t: int): uint64 { Wrap64(t - OffsetInUse(s)) }

  /** The next deadline is counted from the Harp second that contains t. */
  function Realign(s: Sched, t: int): Sched {
    s.(deadline := t - HarpTime(s, t) % SECOND + s.interval)
  }

  /** The automatic transitions: a host that appears activates the device once, a host that is gone deactivates it. */
  function NextMode(mode: bv8, host: bool, connectHandled: bool): bv8 {
    if mode != STANDBY && mode != ACTIVE then mode
    else if !host then STANDBY
    else if mode == STANDBY && !connectHandled then ACTIVE
    else mode
  }

  /** The interval of the mode that is entered. */
  function NextInterval(interval: uint32, mode: bv8, next: bv8): uint32 {
    if mode != ACTIVE && next == ACTIVE then ACTIVE_INTERVAL
    else if mode == ACTIVE && next == STANDBY then STANDBY_INTERVAL
    else interval
  }

  /** The latches and the first realignment after the synchronizer has locked. */
  function Observe(s: Sched, t: int, host: bool): Sched {
    var seen := s.(disconnectHandled := !host, connectHandled := host && s.connectHandled,
                   syncHandled := Synced(s));
    if Synced(s) && !s.syncHandled then Realign(seen, t) else seen
  }

  function EnterMode(s: Sched, next: bv8): Sched {
    var mode := Mode(s.opCtrl);
    s.(opCtrl := WithMode(s.opCtrl, next),
       connectHandled := s.connectHandled || (mode != ACTIVE && next == ACTIVE),
       interval := NextInterval(s.interval, mode, next))
  }

  /** The register reported by a periodic event, if the device reports one. */
  function EventRegister(s: Sched): Option<byte> {
    if Mode(s.opCtrl) != ACTIVE || Muted(s) then None
    else if Has(s.opCtrl, HEARTBEAT_EN) then Some(CoreRegisters.HEARTBEAT)
    else if Has(s.opCtrl, ALIVE_EN) then Some(CoreRegisters.TIMESTAMP_SECOND)
    else None
  }

  datatype Stepped = Stepped(s: Sched, event: Option<byte>)

  /** At most one deadline is consumed. */
  function CheckDeadline(s: Sched, t: int): Stepped {
    if t >= s.deadline then Stepped(s.(deadline := s.deadline + s.interval), EventRegister(s))
    else Stepped(s, None)
  }

  function UpdateState(s: Sched, forced: Option<bv8>, t: int, host: bool): Stepped {
    var seen := Observe(s, t, host);
    var next := if forced.Some? then forced.value else NextMode(Mode(s.opCtrl), host, seen.connectHandled);
    CheckDeadline(EnterMode(seen, next), t)
  }

  // ---------------------------------------------------------------------------------------------
  // Everything that touches this state: the main loop, host commands and the sync interrupt
  // ---------------------------------------------------------------------------------------------

  datatype Event =
    | Tick(t: int, host: bool)
    | WriteOpCtrl(t: int, host: bool, value: bv8)
    | WriteTimestamp(t1: int, t2: int, t3: int, t4: int, seconds: uint32)
    | WriteClockConfig(value: bv8)
    | WriteResetDev(value: bv8)
    | SyncPulse(t: int, offset: uint64)

  predicate Unlocked(s: Sched) { Has(s.clockConfig, UNLOCK) && !Has(s.clockConfig, LOCK) }

  predicate Forces(s: Sched, value: bv8) {
    Mode(value) != SPEED && Mode(value) != Mode(s.opCtrl)
  }

  /** A rejected RESET_DEV command, or one that restarts the chip, leaves this state alone. */
  predicate Resets(value: bv8) {
    && !Has(value, BOOT_DEF) && !Has(value, BOOT_EE) && !Has(value, RST_EE) && !Has(value, SAVE)
    && !Has(value, RST_DFU) && Has(value, RST_DEF)
  }

  /** TIMESTAMP_SECOND keeps the sub-second part of the Harp time read at t1. */
  function NewHarpTime(s: Sched, t1: int, seconds: uint32): uint64 {
    seconds * SECOND + HarpTime(s, t1) % SECOND
  }

  function SetHarpTime(s: Sched, harpTime: uint64, t2: int, t3: int): Sched {
    s.(sync := if s.sync.None? then None else Some(s.sync.value.(offset := Wrap64(t2 - harpTime))),
       offset := Wrap64(t3 - harpTime))
  }

  /** LOCK wins over UNLOCK; the mode bits are the host's; the capability bits are not. */
  function NextClockConfig(current: bv8, requested: bv8): bv8 {
    var MODE := CLK_REP | CLK_GEN;
    var mode := (current & !MODE) | (requested & MODE);
    var next :=
      if Has(requested, LOCK) then (mode | LOCK) & !UNLOCK
      else if Has(requested, UNLOCK) then (mode | UNLOCK) & !LOCK
      else mode;
    var CAPABILITIES := REP_ABLE | GEN_ABLE;
    (next & !CAPABILITIES) | (current & CAPABILITIES)
  }

  /** SPEED is refused; another mode is forced before the register takes the value, which never keeps DUMP. */
  function SetOpCtrl(s: Sched, t: int, host: bool, value: bv8): Stepped {
    if Mode(value) == SPEED then Stepped(s, None)
    else
      var forced := if Forces(s, value) then UpdateState(s, Some(Mode(value)), t, host) else Stepped(s, None);
      Stepped(forced.s.(opCtrl := value & !DUMP), forced.event)
  }

  function Step(s: Sched, e: Event): Stepped {
    match e
    case Tick(t, host) => UpdateState(s, None, t, host)
    case WriteOpCtrl(t, host, value) => SetOpCtrl(s, t, host, value)
    case WriteTimestamp(t1, t2, t3, t4, seconds) =>
      if !Unlocked(s) then Stepped(s, None)
      else Stepped(Realign(SetHarpTime(s, NewHarpTime(s, t1, seconds), t2, t3), t4), None)
    case WriteClockConfig(value) => Stepped(s.(clockConfig := NextClockConfig(s.clockConfig, value)), None)
    case WriteResetDev(value) =>
      Stepped(if Resets(value) then s.(opCtrl := WithMode(s.opCtrl, STANDBY)) else s, None)
    case SyncPulse(_, offset) =>
      Stepped(if s.sync.Some? then s.(sync := Some(SyncView(true, offset))) else s, None)
  }

  lemma TimestampStep(s: Sched, t1: int, t2: int, t3: int, t4: int, seconds: uint32)
    requires Unlocked(s)
    ensures Step(s, WriteTimestamp(t1, t2, t3, t4, seconds)).s
         == Realign(SetHarpTime(s, NewHarpTime(s, t1, seconds), t2, t3), t4)
  {
  }

  lemma ResetStep(s: Sched, value: bv8)
    ensures Step(s, WriteResetDev(value)).s == if Resets(value) then s.(opCtrl := s.opCtrl & !OP_MODE) else s
  {
  }

  function Replay(s: Sched, events: seq<Event>): Sched
    decreases |events|
  {
    if events == [] then s else Replay(Step(s, events[0]).s, events[1..])
  }

  lemma {:induction false} ReplayAppend(s: Sched, events: seq<Event>, e: Event)
    ensures Replay(s, events + [e]) == Step(Replay(s, events), e).s
    decreases |events|
  {
    if events == [] {
      assert [e][1..] == [];
    } else {
      ReplayAppend(Step(s, events[0]).s, events[1..], e);
      assert (events + [e])[1..] == events[1..] + [e];
    }
  }

  /** The state the constructor leaves behind when it reads the clock at t. */
  function Boot(t: int): Sched {
    Realign(Sched(0xE4, UNLOCK, 0, None, false, false, false, STANDBY_INTERVAL, 0), t)
  }

  // ---------------------------------------------------------------------------------------------
  // Mode machine
  // ---------------------------------------------------------------------------------------------

  predicate Sane(s: Sched) {
    && Mode(s.opCtrl) != SPEED
    && !Has(s.opCtrl, DUMP)
    && (s.interval == ACTIVE_INTERVAL || s.interval == STANDBY_INTERVAL)
    && (Mode(s.opCtrl) == ACTIVE ==> s.interval == ACTIVE_INTERVAL)
    && (Has(s.clockConfig, LOCK) <==> !Has(s.clockConfig, UNLOCK))
  }

  lemma LegalMode(opCtrl: bv8, host: bool, connectHandled: bool)
    requires Mode(opCtrl) != SPEED
    ensures Mode(opCtrl) < SPEED && NextMode(Mode(opCtrl), host, connectHandled) < SPEED
  {
  }

  lemma EnterKeepsSane(s: Sched, next: bv8)
    requires Sane(s) && next < SPEED
    ensures Sane(EnterMode(s, next)) && Mode(EnterMode(s, next).opCtrl) == next
  {
    hide Mode;
    hide WithMode;
    hide Has;
    WithModeKeepsBits(s.opCtrl, next);
  }

  lemma WithModeKeepsBits(opCtrl: bv8, mode: bv8)
    requires mode <= SPEED
    ensures Mode(WithMode(opCtrl, mode)) == mode
    ensures Has(WithMode(opCtrl, mode), DUMP) <==> Has(opCtrl, DUMP)
    ensures WithMode(opCtrl, STANDBY) == opCtrl & !OP_MODE
  {
  }

  lemma ObserveKeepsSane(s: Sched, t: int, host: bool)
    requires Sane(s)
    ensures Sane(Observe(s, t, host)) && Observe(s, t, host).opCtrl == s.opCtrl
  {
    hide HarpTime;
    hide Mode;
    hide Has;
  }

  lemma CheckKeepsSane(s: Sched, t: int)
    requires Sane(s)
    ensures Sane(CheckDeadline(s, t).s) && CheckDeadline(s, t).s.opCtrl == s.opCtrl
  {
    hide Mode;
    hide Has;
    hide EventRegister;
  }

  /** A call leaves a sane state, in the mode it forces if it forces one. */
  lemma UpdateKeepsSane(s: Sched, forced: Option<bv8>, t: int, host: bool)
    requires Sane(s)
    requires forced.Some? ==> forced.value < SPEED
    ensures var after := UpdateState(s, forced, t, host).s;
            Sane(after) && (forced.Some? ==> Mode(after.opCtrl) == forced.value)
  {
    hide Observe;
    hide Mode;
    hide NextMode;
    hide EnterMode;
    hide CheckDeadline;
    ObserveKeepsSane(s, t, host);
    var seen := Observe(s, t, host);
    var next := if forced.Some? then forced.value else NextMode(Mode(s.opCtrl), host, seen.connectHandled);
    LegalMode(s.opCtrl, host, seen.connectHandled);
    EnterKeepsSane(seen, next);
    CheckKeepsSane(EnterMode(seen, next), t);
  }

  /** The register takes the value once its mode is in force. */
  lemma SetKeepsSane(s: Sched, value: bv8)
    requires Sane(s) && Mode(s.opCtrl) == Mode(value) && Mode(value) != SPEED
    ensures Sane(s.(opCtrl := value & !DUMP))
  {
    hide Mode;
    hide Has;
    DumpIsCleared(value);
  }

  lemma OpCtrlKeepsSane(s: Sched, t: int, host: bool, value: bv8)
    requires Sane(s)
    ensures Sane(SetOpCtrl(s, t, host, value).s)
  {
    hide UpdateState;
    hide Mode;
    hide Sane;
    if Mode(value) != SPEED {
      if Forces(s, value) {
        LegalMode(value, host, false);
        UpdateKeepsSane(s, Some(Mode(value)), t, host);
        SetKeepsSane(UpdateState(s, Some(Mode(value)), t, host).s, value);
      } else {
        SetKeepsSane(s, value);
      }
    }
  }

  lemma DumpIsCleared(value: bv8)
    ensures Mode(value & !DUMP) == Mode(value) && !Has(value & !DUMP, DUMP)
  {
  }

  lemma ResetKeepsSane(s: Sched, value: bv8)
    requires Sane(s)
    ensures Sane(Step(s, WriteResetDev(value)).s)
  {
    hide Step;
    hide Resets;
    hide Mode;
    hide WithMode;
    hide Has;
    ResetStep(s, value);
    WithModeKeepsBits(s.opCtrl, STANDBY);
  }

  lemma ClockConfigKeepsSane(s: Sched, value: bv8)
    requires Sane(s)
    ensures Sane(Step(s, WriteClockConfig(value)).s)
  {
    hide NextClockConfig;
    ClockConfigStep(s.clockConfig, value);
  }

  lemma StepKeepsSane(s: Sched, e: Event)
    requires Sane(s)
    ensures Sane(Step(s, e).s)
  {
    hide UpdateState;
    hide SetOpCtrl;
    hide NextClockConfig;
    hide WithMode;
    hide Mode;
    match e
    case Tick(t, host) => UpdateKeepsSane(s, None, t, host);
    case WriteOpCtrl(t, host, value) => OpCtrlKeepsSane(s, t, host, value);
    case WriteTimestamp(_, _, _, _, _) =>
    case WriteClockConfig(value) => ClockConfigKeepsSane(s, value);
    case WriteResetDev(value) => ResetKeepsSane(s, value);
    case SyncPulse(_, _) =>
  }

  /**
   * In every reachable state the mode is not SPEED, the DUMP bit is clear, ACTIVE runs on the
   * one-second interval, and exactly one of LOCK and UNLOCK is set.
   */
  lemma {:induction false} ReachableStatesAreSane(s: Sched, events: seq<Event>)
    requires Sane(s)
    ensures Sane(Replay(s, events))
    decreases |events|
  {
    if events != [] {
      StepKeepsSane(s, events[0]);
      ReachableStatesAreSane(Step(s, events[0]).s, events[1..]);
    }
  }

  lemma BootIsSane(t: int)
    ensures Sane(Boot(t)) && Unlocked(Boot(t))
    ensures !Boot(t).disconnectHandled && !Boot(t).connectHandled && !Boot(t).syncHandled
  {
  }

  lemma NoHostNotActive(s: Sched, t: int)
    requires Sane(s)
    ensures Mode(Step(s, Tick(t, false)).s.opCtrl) != ACTIVE
  {
  }

  lemma BootIsAhead(t: int)
    requires 0 <= t < TWO_64 / 2
    ensures Ahead(Boot(t), t)
  {
  }

  predicate Connected(e: Event) {
    match e
    case Tick(_, host) => host
    case WriteOpCtrl(_, host, _) => host
    case _ => true
  }

  /** The main loop itself turns STANDBY into ACTIVE. */
  predicate Activates(s: Sched, e: Event) {
    e.Tick? && Mode(s.opCtrl) == STANDBY && Mode(Step(s, e).s.opCtrl) == ACTIVE
  }

  function AutoActivations(s: Sched, events: seq<Event>): nat
    decreases |events|
  {
    if events == [] then 0
    else (if Activates(s, events[0]) then 1 else 0) + AutoActivations(Step(s, events[0]).s, events[1..])
  }

  lemma ActivationStep(s: Sched, e: Event)
    requires Connected(e)
    ensures Activates(s, e) ==> !s.connectHandled && Step(s, e).s.connectHandled
    ensures s.connectHandled ==> Step(s, e).s.connectHandled
  {
    match e
    case Tick(t, host) => ConnectLatch(s, None, t);
    case WriteOpCtrl(t, host, value) => ConnectLatch(s, Some(Mode(value)), t);
    case WriteTimestamp(_, _, _, _, _) =>
    case _ =>
  }

  lemma ConnectLatch(s: Sched, forced: Option<bv8>, t: int)
    requires forced.Some? ==> forced.value <= SPEED
    ensures var next := UpdateState(s, forced, t, true).s;
            && (s.connectHandled ==> next.connectHandled)
            && (Mode(s.opCtrl) != ACTIVE && Mode(next.opCtrl) == ACTIVE ==>
                  next.connectHandled && (forced.None? ==> !s.connectHandled))
  {
    hide HarpTime;
    hide Mode;
    hide WithMode;
    hide Has;
    hide NextMode;
    hide EventRegister;
    var next := if forced.Some? then forced.value else NextMode(Mode(s.opCtrl), true, s.connectHandled);
    ModeRange(s.opCtrl);
    ActivatesOnce(Mode(s.opCtrl), s.connectHandled);
    WithModeKeepsBits(s.opCtrl, next);
  }

  lemma ModeRange(opCtrl: bv8)
    ensures Mode(opCtrl) <= SPEED
  {
  }

  lemma ActivatesOnce(mode: bv8, connectHandled: bool)
    requires mode <= SPEED
    ensures NextMode(mode, true, connectHandled) <= SPEED
    ensures mode != ACTIVE && NextMode(mode, true, connectHandled) == ACTIVE ==> !connectHandled
  {
  }

  /** A host that stays connected activates the device at most once, and not again after it was put in standby. */
  lemma {:induction false} OneActivationPerConnection(s: Sched, events: seq<Event>)
    requires forall e <- events :: Connected(e)
    ensures AutoActivations(s, events) <= if s.connectHandled then 0 else 1
    decreases |events|
  {
    if events != [] {
      assert events[0] in events;
      ActivationStep(s, events[0]);
      OneActivationPerConnection(Step(s, events[0]).s, events[1..]);
    }
  }

  // ---------------------------------------------------------------------------------------------
  // The 32-bit deadline test
  // ---------------------------------------------------------------------------------------------

  /** The comparison the firmware makes, on wrapped time and wrapped deadline. */
  predicate WrappedDue(t: uint32, deadline: uint32) {
    Signed32(Wrap32(t - deadline)) >= 0
  }

  predicate InWindow(t: int, deadline: int) {
    -TWO_31 <= t - deadline < TWO_31
  }

  lemma WrappedTestAgrees(t: int, deadline: int)
    ensures InWindow(t, deadline) ==> (WrappedDue(Wrap32(t), Wrap32(deadline)) <==> t >= deadline)
    ensures deadline <= t < deadline + TWO_32 ==>
              (WrappedDue(Wrap32(t), Wrap32(deadline)) <==> t - deadline < TWO_31)
    ensures deadline - TWO_32 <= t < deadline ==>
              (WrappedDue(Wrap32(t), Wrap32(deadline)) <==> t - deadline < -TWO_31)
  {
    var q := t / TWO_32 - deadline / TWO_32;
    assert t - deadline == Wrap32(t) - Wrap32(deadline) + q * TWO_32;
    var r := Wrap32(t) - Wrap32(deadline);
    assert Wrap32(r) == if r < 0 then r + TWO_32 else r;
  }

  /** The time of the last call or realignment, after which the deadline is up to date. */
  function Checked(s: Sched, last: int, e: Event): int {
    match e
    case Tick(t, _) => t
    case WriteOpCtrl(t, _, value) => if Forces(s, value) then t else last
    case WriteTimestamp(_, _, _, t4, _) => if Unlocked(s) then t4 else last
    case _ => last
  }

  /** Time does not run backwards and update_state runs at least once a second. */
  predicate Timely(last: int, e: Event) {
    match e
    case Tick(t, _) => last <= t <= last + SECOND
    case WriteOpCtrl(t, _, _) => last <= t <= last + SECOND
    case WriteTimestamp(t1, t2, t3, t4, _) => last <= t1 <= t2 <= t3 <= t4
    case _ => true
  }

  predicate AllTimely(s: Sched, last: int, events: seq<Event>)
    decreases |events|
  {
    events == [] ||
    (Timely(last, events[0]) && AllTimely(Step(s, events[0]).s, Checked(s, last, events[0]), events[1..]))
  }

  predicate Ahead(s: Sched, last: int) {
    last < s.deadline <= last + STANDBY_INTERVAL
  }

  /** The deadline that update_state compares with t, after a realignment made by the same call. */
  function ComparedDeadline(s: Sched, t: int, host: bool): int { Observe(s, t, host).deadline }

  /** Where update_state runs, the two deadlines it may compare are within the 32-bit window. */
  predicate WindowOk(s: Sched, e: Event) {
    match e
    case Tick(t, host) => InWindow(t, ComparedDeadline(s, t, host))
    case WriteOpCtrl(t, host, value) => Forces(s, value) ==> InWindow(t, ComparedDeadline(s, t, host))
    case _ => true
  }

  lemma ObservedDeadline(s: Sched, t: int, host: bool)
    ensures var deadline := Observe(s, t, host).deadline;
            deadline == s.deadline || t - SECOND + s.interval < deadline <= t + s.interval
  {
  }

  lemma IntervalIsOneOfTwo(interval: uint32, mode: bv8, next: bv8)
    requires interval == ACTIVE_INTERVAL || interval == STANDBY_INTERVAL
    ensures NextInterval(interval, mode, next) == ACTIVE_INTERVAL
            || NextInterval(interval, mode, next) == STANDBY_INTERVAL
  {
  }

  lemma CheckStaysAhead(entered: Sched, t: int)
    requires entered.interval == ACTIVE_INTERVAL || entered.interval == STANDBY_INTERVAL
    requires t - SECOND < entered.deadline <= t + STANDBY_INTERVAL
    ensures Ahead(CheckDeadline(entered, t).s, t)
  {
  }

  lemma UpdateStaysAhead(s: Sched, last: int, forced: Option<bv8>, t: int, host: bool)
    requires Sane(s) && Ahead(s, last) && last <= t <= last + SECOND
    ensures InWindow(t, ComparedDeadline(s, t, host))
    ensures Ahead(UpdateState(s, forced, t, host).s, t)
  {
    ObservedDeadline(s, t, host);
    var seen := Observe(s, t, host);
    var next := if forced.Some? then forced.value else NextMode(Mode(s.opCtrl), host, seen.connectHandled);
    IntervalIsOneOfTwo(s.interval, Mode(s.opCtrl), next);
    CheckStaysAhead(EnterMode(seen, next), t);
  }

  lemma StepStaysAhead(s: Sched, last: int, e: Event)
    requires Sane(s) && Ahead(s, last) && Timely(last, e)
    ensures WindowOk(s, e)
    ensures Ahead(Step(s, e).s, Checked(s, last, e))
  {
    match e
    case Tick(t, host) => UpdateStaysAhead(s, last, None, t, host);
    case WriteOpCtrl(t, host, value) =>
      if Forces(s, value) {
        UpdateStaysAhead(s, last, Some(Mode(value)), t, host);
      }
    case WriteTimestamp(_, _, _, _, _) =>
    case WriteClockConfig(_) =>
    case WriteResetDev(_) =>
    case SyncPulse(_, _) =>
  }

  predicate AlwaysInWindow(s: Sched, events: seq<Event>)
    decreases |events|
  {
    events == [] || (WindowOk(s, events[0]) && AlwaysInWindow(Step(s, events[0]).s, events[1..]))
  }

  function LastChecked(s: Sched, last: int, events: seq<Event>): int
    decreases |events|
  {
    if events == [] then last
    else LastChecked(Step(s, events[0]).s, Checked(s, last, events[0]), events[1..])
  }

  /**
   * For every run whose calls are at most one second apart, across mode changes, realignments,
   * forced calls and any number of 32-bit wraps, each deadline stays in (T, T + 3 s] and each
   * comparison is made within the window in which the wrapped test is the real one.
   */
  lemma {:induction false} DeadlineStaysAhead(s: Sched, last: int, events: seq<Event>)
    requires Sane(s) && Ahead(s, last) && AllTimely(s, last, events)
    ensures AlwaysInWindow(s, events)
    ensures Ahead(Replay(s, events), LastChecked(s, last, events))
    decreases |events|
  {
    if events != [] {
      StepStaysAhead(s, last, events[0]);
      StepKeepsSane(s, events[0]);
      DeadlineStaysAhead(Step(s, events[0]).s, Checked(s, last, events[0]), events[1..]);
    }
  }

  // ---------------------------------------------------------------------------------------------
  // Time in a run
  // ---------------------------------------------------------------------------------------------

  /** Times come from a 63-bit timer and do not decrease. */
  predicate ClockOk(last: int, e: Event) {
    match e
    case Tick(t, _) => last <= t < TWO_64 / 2
    case WriteOpCtrl(t, _, _) => last <= t < TWO_64 / 2
    case WriteTimestamp(t1, t2, t3, t4, _) => last <= t1 <= t2 <= t3 <= t4 < TWO_64 / 2
    case SyncPulse(t, _) => last <= t < TWO_64 / 2
    case _ => true
  }

  function Latest(last: int, e: Event): int {
    match e
    case Tick(t, _) => t
    case WriteOpCtrl(t, _, _) => t
    case WriteTimestamp(_, _, _, t4, _) => t4
    case SyncPulse(t, _) => t
    case _ => last
  }

  predicate ClocksOk(last: int, events: seq<Event>)
    decreases |events|
  {
    events == [] || (ClockOk(last, events[0]) && ClocksOk(Latest(last, events[0]), events[1..]))
  }

  function FinalTime(last: int, events: seq<Event>): int
    decreases |events|
  {
    if events == [] then last else FinalTime(Latest(last, events[0]), events[1..])
  }

  lemma {:induction false} ClocksAppend(last: int, a: seq<Event>, b: seq<Event>)
    ensures ClocksOk(last, a + b) <==> ClocksOk(last, a) && ClocksOk(FinalTime(last, a), b)
    ensures FinalTime(last, a + b) == FinalTime(FinalTime(last, a), b)
    decreases |a|
  {
    if a == [] {
      assert a + b == b;
    } else {
      assert (a + b)[1..] == a[1..] + b;
      ClocksAppend(Latest(last, a[0]), a[1..], b);
    }
  }

  lemma WrapDifference(t: int, off: int)
    requires 0 <= t - off < TWO_64
    ensures Wrap64(t - Wrap64(off)) == t - off
  {
    assert t - Wrap64(off) == t - off + off / TWO_64 * TWO_64;
  }

  /** After a TIMESTAMP_SECOND write the Harp clock runs on from the whole seconds written, its fraction kept. */
  lemma ClockRunsOnFromWrite(s: Sched, t1: int, t2: int, t3: int, t4: int, seconds: uint32, t: int)
    requires Unlocked(s) && 0 <= t1 <= t2 <= t3 <= t4 <= t < TWO_64 / 2
    ensures var written := NewHarpTime(s, t1, seconds);
            && written / SECOND == seconds && written % SECOND == HarpTime(s, t1) % SECOND
            && HarpTime(Step(s, WriteTimestamp(t1, t2, t3, t4, seconds)).s, t)
               == written + (t - if s.sync.Some? then t2 else t3)
  {
    var written := NewHarpTime(s, t1, seconds);
    WrapDifference(t, (if s.sync.Some? then t2 else t3) - written);
    TimestampStep(s, t1, t2, t3, t4, seconds);
  }

  // ---------------------------------------------------------------------------------------------
  // Clock lock
  // ---------------------------------------------------------------------------------------------

  /** What the last CLOCK_CONFIG write that carries either lock bit asks for. */
  function LastLockRequest(events: seq<Event>): Option<bool> {
    if events == [] then None
    else
      var e := events[|events| - 1];
      if AsksToLock(e) then Some(true)
      else if AsksToUnlock(e) then Some(false)
      else LastLockRequest(events[..|events| - 1])
  }

  predicate SameCapabilities(a: bv8, b: bv8) {
    && (Has(a, REP_ABLE) <==> Has(b, REP_ABLE))
    && (Has(a, GEN_ABLE) <==> Has(b, GEN_ABLE))
  }

  lemma ClockConfigStep(current: bv8, requested: bv8)
    ensures var next := NextClockConfig(current, requested);
            && SameCapabilities(current, next)
            && (Has(next, CLK_REP) <==> Has(requested, CLK_REP))
            && (Has(next, CLK_GEN) <==> Has(requested, CLK_GEN))
            && (Has(next, LOCK) <==> Has(requested, LOCK) || (Has(current, LOCK) && !Has(requested, UNLOCK)))
            && (Has(next, UNLOCK) <==> !Has(requested, LOCK) && (Has(requested, UNLOCK) || Has(current, UNLOCK)))
  {
  }

  predicate AsksToLock(e: Event) { e.WriteClockConfig? && Has(e.value, LOCK) }

  predicate AsksToUnlock(e: Event) { e.WriteClockConfig? && Has(e.value, UNLOCK) && !Has(e.value, LOCK) }

  predicate SameClock(a: Sched, b: Sched) {
    a.clockConfig == b.clockConfig && a.offset == b.offset && a.sync == b.sync
  }

  lemma UpdateKeepsClock(s: Sched, forced: Option<bv8>, t: int, host: bool)
    ensures SameClock(s, UpdateState(s, forced, t, host).s)
  {
    assert SameClock(s, Observe(s, t, host));
  }

  /** Only an unlocked TIMESTAMP_SECOND write, a CLOCK_CONFIG write or a sync pulse touches the clock. */
  lemma OtherStepsKeepClock(s: Sched, e: Event)
    requires e.WriteTimestamp? ==> !Unlocked(s)
    requires !e.WriteClockConfig? && !e.SyncPulse?
    ensures SameClock(s, Step(s, e).s)
  {
    match e
    case Tick(t, host) => UpdateKeepsClock(s, None, t, host);
    case WriteOpCtrl(t, host, value) => UpdateKeepsClock(s, Some(Mode(value)), t, host);
    case WriteTimestamp(_, _, _, _, _) =>
    case WriteResetDev(_) =>
  }

  lemma LockStep(s: Sched, e: Event)
    ensures var next := Step(s, e).s.clockConfig;
            && SameCapabilities(s.clockConfig, next)
            && (Has(next, LOCK) <==> AsksToLock(e) || (Has(s.clockConfig, LOCK) && !AsksToUnlock(e)))
            && (!AsksToLock(e) && !AsksToUnlock(e) ==> (Has(next, UNLOCK) <==> Has(s.clockConfig, UNLOCK)))
  {
    match e
    case WriteClockConfig(value) => ClockConfigStep(s.clockConfig, value);
    case WriteTimestamp(_, _, _, _, _) =>
    case SyncPulse(_, _) =>
    case _ => OtherStepsKeepClock(s, e);
  }

  /** The lock state is the one last asked for, or the initial one; the capability bits never change. */
  lemma {:induction false} LockFollowsLastRequest(s: Sched, events: seq<Event>)
    requires Sane(s)
    ensures var end := Replay(s, events).clockConfig;
            var asked := LastLockRequest(events);
            && (Has(end, LOCK) <==> if asked.Some? then asked.value else Has(s.clockConfig, LOCK))
            && (Has(end, UNLOCK) <==> !Has(end, LOCK))
            && SameCapabilities(s.clockConfig, end)
    decreases |events|
  {
    ReachableStatesAreSane(s, events);
    if events != [] {
      var front, e := events[..|events| - 1], events[|events| - 1];
      LockFollowsLastRequest(s, front);
      assert front + [e] == events;
      ReplayAppend(s, front, e);
      LockStep(Replay(s, front), e);
    }
  }

  lemma LockedStep(s: Sched, e: Event)
    requires Sane(s) && !Unlocked(s) && !AsksToUnlock(e) && !e.SyncPulse?
    ensures !Unlocked(Step(s, e).s)
    ensures OffsetInUse(Step(s, e).s) == OffsetInUse(s)
  {
    if e.WriteClockConfig? {
      ClockConfigStep(s.clockConfig, e.value);
    } else {
      OtherStepsKeepClock(s, e);
    }
  }

  /** While the clock stays locked no host command moves it; only a sync pulse can. */
  lemma {:induction false} LockedClockIsNotMoved(s: Sched, events: seq<Event>)
    requires Sane(s) && !Unlocked(s)
    requires forall e <- events :: !AsksToUnlock(e) && !e.SyncPulse?
    ensures !Unlocked(Replay(s, events))
    ensures OffsetInUse(Replay(s, events)) == OffsetInUse(s)
    decreases |events|
  {
    if events != [] {
      assert events[0] in events;
      StepKeepsSane(s, events[0]);
      LockedStep(s, events[0]);
      LockedClockIsNotMoved(Step(s, events[0]).s, events[1..]);
    }
  }
}
