/** The operation mode, told in the bits of its register: when it changes, to what, and what changes with it. */
module ModeMachine {
  import opened Basics
  import opened Scheduler
  import opened WrappedDeadline

  // STANDBY, ACTIVE, RESERVED and SPEED are 0, 1, 2 and 3, in the two low bits of OPERATION_CTRL.

  // ---------------------------------------------------------------------------------------------
  // One step
  // ---------------------------------------------------------------------------------------------

  /** What a call of the main loop does to mode, latches and interval, whatever the deadline. */
  predicate TickOutcome(s: Sched, host: bool, after: Sched) {
    var mode, next := s.opCtrl & 3, after.opCtrl & 3;
    var appeared := mode == 0 && host && !s.connectHandled;
    && next == (if mode >= 2 then mode else if appeared || (mode == 1 && host) then 1 else 0)
    && after.opCtrl & 0xFC == s.opCtrl & 0xFC
    && (after.connectHandled <==> host && (s.connectHandled || appeared))
    && (after.disconnectHandled <==> !host)
    && (after.syncHandled <==> Synced(s))
    && after.interval == (if appeared then 1_000_000 else if mode == 1 && !host then 3_000_000 else s.interval)
  }

  lemma TickChoice(opCtrl: bv8, host: bool, latched: bool)
    ensures var mode, next := opCtrl & 3, NextMode(Mode(opCtrl), host, latched);
            && next == (if mode >= 2 then mode else if host && (mode == 1 || !latched) then 1 else 0)
            && WithMode(opCtrl, next) & 3 == next && WithMode(opCtrl, next) & 0xFC == opCtrl & 0xFC
            && Mode(opCtrl) == mode
  {
  }

  /** The fields of a call that is about to enter the mode `next`. */
  lemma UpdateFields(s: Sched, forced: Option<bv8>, t: int, host: bool, next: bv8)
    requires next == if forced.Some? then forced.value
                     else NextMode(Mode(s.opCtrl), host, host && s.connectHandled)
    ensures var after := UpdateState(s, forced, t, host).s;
            && after.opCtrl == WithMode(s.opCtrl, next)
            && after.interval == NextInterval(s.interval, Mode(s.opCtrl), next)
            && (after.connectHandled <==> (host && s.connectHandled) || (Mode(s.opCtrl) != ACTIVE && next == ACTIVE))
            && (after.disconnectHandled <==> !host) && (after.syncHandled <==> Synced(s))
  {
    hide Mode;
    hide WithMode;
    hide NextMode;
    hide NextInterval;
    hide HarpTime;
    hide EventRegister;
  }

  lemma TickStep(s: Sched, t: int, host: bool)
    ensures TickOutcome(s, host, Step(s, Tick(t, host)).s)
  {
    hide UpdateState;
    hide Mode;
    hide WithMode;
    hide NextMode;
    UpdateFields(s, None, t, host, NextMode(Mode(s.opCtrl), host, host && s.connectHandled));
    TickChoice(s.opCtrl, host, s.connectHandled);
    TickChoice(s.opCtrl, host, false);
  }

  lemma FirmwareTickStep(s: Sched, t: int, host: bool)
    ensures TickOutcome(s, host, FirmwareStep(s, Tick(t, host)).s)
  {
    hide Step;
    hide FirmwareStep;
    StepIgnoresDeadline(s, s, Tick(t, host));
    TickStep(s, t, host);
  }

  /**
   * What an OPERATION_CTRL write does: SPEED nothing; otherwise every bit but DUMP, and a mode it
   * changes is entered.
   */
  predicate OpCtrlOutcome(s: Sched, host: bool, value: bv8, after: Sched) {
    var mode, next := s.opCtrl & 3, value & 3;
    if next == 3 then after == s
    else
      && after.opCtrl == value & 0xF7
      && after.interval == (if mode != 1 && next == 1 then 1_000_000
                            else if mode == 1 && next == 0 then 3_000_000 else s.interval)
      && (if mode == next then after == s.(opCtrl := value & 0xF7)
          else
            && (after.connectHandled <==> next == 1 || (host && s.connectHandled))
            && (after.disconnectHandled <==> !host) && (after.syncHandled <==> Synced(s)))
  }

  lemma ForcedMode(opCtrl: bv8, mode: bv8)
    requires mode <= 3
    ensures WithMode(opCtrl, mode) & 3 == mode && Mode(opCtrl) == opCtrl & 3
  {
  }

  lemma OpCtrlStep(s: Sched, t: int, host: bool, value: bv8)
    ensures OpCtrlOutcome(s, host, value, Step(s, WriteOpCtrl(t, host, value)).s)
  {
    hide UpdateState;
    hide WithMode;
    UpdateFields(s, Some(Mode(value)), t, host, Mode(value));
    ForcedMode(s.opCtrl, value & 3);
    ForcedMode(value, 0);
    Cleared(value);
  }

  lemma Cleared(value: bv8)
    ensures value & !DUMP == value & 0xF7 && value & 3 <= 3
  {
  }

  lemma FirmwareOpCtrlStep(s: Sched, t: int, host: bool, value: bv8)
    ensures OpCtrlOutcome(s, host, value, FirmwareStep(s, WriteOpCtrl(t, host, value)).s)
  {
    hide Step;
    StepIgnoresDeadline(s, s, WriteOpCtrl(t, host, value));
    OpCtrlStep(s, t, host, value);
    hide FirmwareStep;
  }

  /**
   * RST_DEF alone puts the device in STANDBY; with a command that is rejected or restarts, or
   * without it, nothing changes.
   */
  lemma ResetOutcome(s: Sched, value: bv8)
    ensures Step(s, WriteResetDev(value)).s
         == if value & 0x01 != 0 && value & 0xE6 == 0 then s.(opCtrl := s.opCtrl & 0xFC) else s
  {
    hide Resets;
    hide Step;
    ResetStep(s, value);
    ResetBits(value);
  }

  lemma ResetBits(value: bv8)
    ensures Resets(value) <==> value & 0x01 != 0 && value & 0xE6 == 0
    ensures !OP_MODE == 0xFC
  {
  }

  /** CLOCK_CONFIG: the two mode bits are the host's, 0x80 locks and wins over 0x40, which unlocks; the rest is kept. */
  lemma ClockConfigOutcome(current: bv8, requested: bv8)
    ensures var next := NextClockConfig(current, requested);
            && next & 0x03 == requested & 0x03
            && next & 0x3C == current & 0x3C
            && next & 0xC0 == (if requested & 0x80 != 0 then 0x80
                               else if requested & 0x40 != 0 then 0x40 else current & 0xC0)
  {
  }

  lemma LockBits(s: Sched)
    ensures Unlocked(s) <==> s.clockConfig & 0xC0 == 0x40
    ensures Muted(s) <==> s.opCtrl & 0x10 != 0
  {
  }

  // ---------------------------------------------------------------------------------------------
  // Deadlines
  // ---------------------------------------------------------------------------------------------

  /** The deadline after a call that does not realign: one interval of the mode entered, once it is reached. */
  lemma TickDeadline(s: Sched, t: int, host: bool)
    requires Synced(s) ==> s.syncHandled
    ensures var after := Step(s, Tick(t, host)).s;
            after.deadline == if t >= s.deadline then s.deadline + after.interval else s.deadline
  {
    hide NextMode;
    hide WithMode;
    hide Mode;
    hide EventRegister;
  }

  /** A realignment puts the deadline one interval after the start of the Harp second it is made in. */
  lemma RealignedDeadline(s: Sched, t: int)
    requires s.interval == 1_000_000 || s.interval == 3_000_000
    ensures var second := HarpTime(s, t) / 1_000_000;
            Realign(s, t).deadline - t == (second + s.interval / 1_000_000) * 1_000_000 - HarpTime(s, t)
  {
    var h := HarpTime(s, t);
    assert h == h / 1_000_000 * 1_000_000 + h % 1_000_000;
    if s.interval == 1_000_000 {
      assert s.interval / 1_000_000 == 1;
    } else {
      assert s.interval / 1_000_000 == 3;
    }
  }

  // ---------------------------------------------------------------------------------------------
  // Over runs
  // ---------------------------------------------------------------------------------------------

  /** A connection that finds the device in STANDBY and unlatched activates it exactly once, at the first call. */
  lemma ExactlyOneActivation(s: Sched, events: seq<Event>)
    requires events != [] && events[0].Tick? && forall e <- events :: Connected(e)
    requires s.opCtrl & 3 == 0 && !s.connectHandled
    ensures AutoActivations(s, events) == 1 && FirmwareActivations(s, events) == 1
  {
    hide Step;
    hide Mode;
    assert Connected(events[0]);
    TickStep(s, events[0].t, true);
    ModeBits(s.opCtrl);
    ModeBits(Step(s, events[0]).s.opCtrl);
    OneActivationPerConnection(Step(s, events[0]).s, events[1..]);
    SameActivations(s, s, events);
  }

  lemma ModeBits(opCtrl: bv8)
    ensures Mode(opCtrl) == opCtrl & 3 && STANDBY == 0 && ACTIVE == 1 && SPEED == 3
  {
  }

  /** The mode an event asks for. */
  function ModeAsked(e: Event): Option<bv8> {
    if e.WriteOpCtrl? && e.value & 3 != 3 then Some(e.value & 3)
    else if e.WriteResetDev? && e.value & 0x01 != 0 && e.value & 0xE6 == 0 then Some(0)
    else None
  }

  function LastModeAsked(mode: bv8, events: seq<Event>): bv8 {
    if events == [] then mode
    else
      var asked := ModeAsked(events[|events| - 1]);
      if asked.Some? then asked.value else LastModeAsked(mode, events[..|events| - 1])
  }

  lemma LastModeAskedCons(mode: bv8, events: seq<Event>)
    requires events != []
    ensures LastModeAsked(mode, events)
         == LastModeAsked(if ModeAsked(events[0]).Some? then ModeAsked(events[0]).value else mode, events[1..])
    decreases |events|
  {
    if |events| > 1 {
      var front := events[..|events| - 1];
      LastModeAskedCons(mode, front);
      assert front[1..] == events[1..][..|events| - 2];
    }
  }

  lemma {:induction false} NoneAsked(mode: bv8, events: seq<Event>)
    requires forall e <- events :: ModeAsked(e).None?
    ensures LastModeAsked(mode, events) == mode
    decreases |events|
  {
    if events != [] {
      assert events[|events| - 1] in events;
      NoneAsked(mode, events[..|events| - 1]);
    }
  }

  lemma ModeStep(s: Sched, e: Event)
    requires Connected(e) && s.connectHandled
    ensures Step(s, e).s.connectHandled
    ensures Step(s, e).s.opCtrl & 3 == if ModeAsked(e).Some? then ModeAsked(e).value else s.opCtrl & 3
  {
    hide UpdateState;
    hide SetOpCtrl;
    hide NextClockConfig;
    ActivationStep(s, e);
    match e
    case Tick(t, host) => TickStep(s, t, host);
    case WriteOpCtrl(t, host, value) =>
      OpCtrlStep(s, t, host, value);
      ClearingKeepsMode(value);
    case WriteResetDev(value) =>
      ResetOutcome(s, value);
      ClearingKeepsMode(s.opCtrl);
    case WriteTimestamp(_, _, _, _, _) =>
    case _ =>
  }

  lemma ClearingKeepsMode(value: bv8)
    ensures (value & 0xF7) & 3 == value & 3 && (value & 0xFC) & 3 == 0
  {
  }

  /** Once the connection is latched, the mode is always the one last asked for, and stays when none is. */
  lemma {:induction false} ModeFollowsLastRequest(s: Sched, events: seq<Event>)
    requires s.connectHandled && forall e <- events :: Connected(e)
    ensures Replay(s, events).opCtrl & 3 == LastModeAsked(s.opCtrl & 3, events)
    decreases |events|
  {
    hide Step;
    hide ModeAsked;
    if events != [] {
      assert events[0] in events;
      ModeStep(s, events[0]);
      LastModeAskedCons(s.opCtrl & 3, events);
      ModeFollowsLastRequest(Step(s, events[0]).s, events[1..]);
    }
  }

  /** The whole of a connection: it activates the device, and from then on the mode is the one last asked for. */
  lemma ModeOfAConnection(s: Sched, events: seq<Event>)
    requires events != [] && events[0].Tick? && forall e <- events :: Connected(e)
    requires s.opCtrl & 3 == 0 && !s.connectHandled
    ensures Replay(s, events).opCtrl & 3 == LastModeAsked(1, events)
    ensures FirmwareRun(s, events).s.opCtrl == Replay(s, events).opCtrl
  {
    hide Step;
    assert Connected(events[0]);
    TickStep(s, events[0].t, true);
    ModeFollowsLastRequest(Step(s, events[0]).s, events[1..]);
    LastModeAskedCons(1, events);
    WrappingTouchesOnlyTheDeadline(s, s, events);
  }
}
