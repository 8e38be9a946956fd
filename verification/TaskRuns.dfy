/** Whole runs of the core task as values: the turns it takes, and everything that follows from them. */
module TaskRuns {
  import opened Basics
  import opened CoreRegisters
  import opened HarpMessage
  import opened Framing
  import opened Commands
  import opened CoreState
  import opened CoreRuns
  import opened SyncDecoding
  import Scheduler
  import WrappedDeadline
  import WholeSeconds

  /** What reaches the task next: bytes ready on the two transports, or bytes on the sync line. */
  datatype Turn = Loop(arrival: Arrival) | Uart(bytes: seq<byte>)

  function Arrivals(turns: seq<Turn>): seq<Arrival>
    decreases |turns|
  {
    if turns == [] then []
    else
      var last := turns[|turns| - 1];
      Arrivals(turns[..|turns| - 1]) + if last.Loop? then [last.arrival] else []
  }

  function UartChunks(turns: seq<Turn>): seq<seq<byte>>
    decreases |turns|
  {
    if turns == [] then []
    else
      var last := turns[|turns| - 1];
      UartChunks(turns[..|turns| - 1]) + if last.Uart? then [last.bytes] else []
  }

  lemma MoreTurns(turns: seq<Turn>, turn: Turn)
    ensures Arrivals(turns + [turn]) == Arrivals(turns) + if turn.Loop? then [turn.arrival] else []
    ensures UartChunks(turns + [turn]) == UartChunks(turns) + if turn.Uart? then [turn.bytes] else []
  {
    assert (turns + [turn])[..|turns|] == turns;
  }

  /**
   * What a run changes: the state, the two receive buffers, what has been sent, the timer, and the
   * sync receiver, if one is attached.
   */
  datatype Snapshot = Snapshot(
    core: Core,
    tcp: seq<byte>,
    cdc: seq<byte>,
    log: seq<Sent>,
    now: int,
    receiver: Option<Receiver>)

  predicate Standing(a: Snapshot) {
    && Sized(a.core) && |a.tcp| <= MAX_PACKET_SIZE && |a.cdc| <= MAX_PACKET_SIZE
    && (a.receiver.Some? <==> a.core.sched.sync.Some?)
    && (a.receiver.Some? ==> Reachable(a.receiver.value.fsm))
  }

  function ReceiverAfter(receiver: Option<Receiver>, chunks: seq<seq<byte>>): (r: Option<Receiver>)
    requires receiver.Some? ==> Reachable(receiver.value.fsm)
    ensures r.Some? <==> receiver.Some?
    ensures r.Some? ==> Reachable(r.value.fsm)
  {
    if receiver.None? then None else Some(Listen(receiver.value, chunks).receiver)
  }

  /** The second that an interrupt with these bytes reports. */
  function Reported(receiver: Option<Receiver>, bytes: seq<byte>): Option<uint32>
    requires receiver.Some? ==> Reachable(receiver.value.fsm)
  {
    if receiver.None? then None else Interrupted(receiver.value, bytes).second
  }

  /** A turn taken after the turns `before`: a pass that receives what the framers deliver, or an interrupt. */
  predicate Fits(a: Snapshot, before: seq<Turn>, turn: Turn, h: Happening)
    requires Standing(a)
  {
    match turn
    case Loop(arrival) =>
      var p := PollAll(a.tcp, a.cdc, Arrivals(before));
      h.Looped? && h.received == Poll(p.tcp, p.cdc, arrival).received
    case Uart(bytes) =>
      h.Interrupt? && h.second == Reported(ReceiverAfter(a.receiver, UartChunks(before)), bytes)
  }

  /** One happening a turn, each the one its turn calls for. */
  predicate AllFit(a: Snapshot, turns: seq<Turn>, hs: seq<Happening>)
    requires Standing(a)
  {
    |hs| == |turns| && forall k :: 0 <= k < |turns| ==> Fits(a, turns[..k], turns[k], hs[k])
  }

  lemma FitOneMore(a: Snapshot, turns: seq<Turn>, hs: seq<Happening>, turn: Turn, h: Happening)
    requires Standing(a) && AllFit(a, turns, hs) && Fits(a, turns, turn, h)
    ensures AllFit(a, turns + [turn], hs + [h])
  {
    hide Fits;
    var all := turns + [turn];
    forall k | 0 <= k < |all|
      ensures Fits(a, all[..k], all[k], (hs + [h])[k])
    {
      assert all[..k] == turns[..k];
      assert k == |turns| ==> turns[..k] == turns;
    }
  }

  /**
   * A run leads from one snapshot to another: there is one happening a turn, each the one that the
   * bytes and the state call for, what was sent is all there is, the receivers hold what the turns
   * leave in them, and the clock readings are in order.
   */
  ghost predicate Leads(a: Snapshot, b: Snapshot, hs: seq<Happening>, turns: seq<Turn>, fixed: FixedRegisters) {
    && FixedOk(fixed) && Standing(a) && AllPossible(hs)
    && b.core == AfterAll(a.core, hs) && AllExplained(a.core, hs, fixed)
    && AllFit(a, turns, hs)
    && PollAll(a.tcp, a.cdc, Arrivals(turns)) == Pair(b.tcp, b.cdc, ReceivedIn(hs))
    && b.receiver == ReceiverAfter(a.receiver, UartChunks(turns))
    && b.log == a.log + SentIn(hs) && (forall e <- b.log :: Printable(e))
    && ClockedUpTo(a.now, AllEvents(hs), b.now)
  }

  lemma RunBegins(a: Snapshot, fixed: FixedRegisters)
    requires FixedOk(fixed) && Standing(a) && forall e <- a.log :: Printable(e)
    ensures Leads(a, a, [], [], fixed)
  {
    assert a.log + [] == a.log;
  }

  predicate ClockedUpTo(from: int, events: seq<Scheduler.Event>, to: int) {
    Scheduler.ClocksOk(from, events) && Scheduler.FinalTime(from, events) <= to
  }

  lemma ClockedOn(from: int, a: seq<Scheduler.Event>, between: int, b: seq<Scheduler.Event>, to: int)
    requires ClockedUpTo(from, a, between) && ClockedUpTo(between, b, to)
    requires b == [] || b[0].Tick? || b[0].SyncPulse?
    requires between <= to
    ensures ClockedUpTo(from, a + b, to)
  {
    Scheduler.ClocksAppend(from, a, b);
    var reached := Scheduler.FinalTime(from, a);
    assert b != [] ==> Scheduler.ClockOk(reached, b[0]);
  }

  /** The clock readings of a pass, in order. */
  lemma PassIsClocked(h: Happening, from: int, to: int)
    requires h.Looped? && Possible(h) && from <= h.pass.tick.t && Within(h.pass.command, h.pass.tick.t, to)
    requires to < TWO_64 / 2
    ensures ClockedUpTo(from, EventsOf(h), to)
  {
    var tick := Scheduler.Tick(h.pass.tick.t, h.pass.tick.host);
    assert [tick][1..] == [];
    if h.received != [] {
      var more := FrameEvents(h.received[0].delivery.frame, h.pass.command);
      Scheduler.ClocksAppend(from, [tick], more);
      assert more == [] || more[1..] == [];
    } else {
      assert [tick] + [] == [tick];
    }
  }

  lemma InterruptIsClocked(h: Happening, from: int, to: int)
    requires h.Interrupt? && from <= h.at <= to < TWO_64 / 2
    ensures ClockedUpTo(from, EventsOf(h), to)
    ensures EventsOf(h) == [] || EventsOf(h)[0].SyncPulse?
  {
    if h.second.Some? {
      assert [PulseOf(h.second.value, h.at)][1..] == [];
    }
  }

  lemma LeadsByPass(a: Snapshot, b: Snapshot, c: Snapshot, hs: seq<Happening>, turns: seq<Turn>,
                    h: Happening, arrival: Arrival, fixed: FixedRegisters)
    requires Leads(a, b, hs, turns, fixed) && h.Looped? && Possible(h)
    requires c.core == After(b.core, h) && Explains(b.core, h, fixed) && c.receiver == b.receiver
    requires Poll(b.tcp, b.cdc, arrival) == Pair(c.tcp, c.cdc, h.received)
    requires c.log == b.log + SentBy(h) && forall e <- c.log :: Printable(e)
    requires b.now <= c.now && ClockedUpTo(b.now, EventsOf(h), c.now)
    ensures Leads(a, c, hs + [h], turns + [Loop(arrival)], fixed)
  {
    hide After;
    hide Explains;
    hide Poll;
    hide ClockedUpTo;
    hide Listen;
    Extend(a.core, hs, h, fixed);
    MoreTurns(turns, Loop(arrival));
    assert UartChunks(turns) + [] == UartChunks(turns);
    PollAllAppend(a.tcp, a.cdc, Arrivals(turns), arrival);
    FitOneMore(a, turns, hs, Loop(arrival), h);
    ClockedOn(a.now, AllEvents(hs), b.now, EventsOf(h), c.now);
    Associative(a.log, SentIn(hs), SentBy(h));
  }

  /** The receiver after one more interrupt. */
  lemma ListenOneMore(receiver: Option<Receiver>, chunks: seq<seq<byte>>, bytes: seq<byte>)
    requires receiver.Some? ==> Reachable(receiver.value.fsm)
    ensures var before := ReceiverAfter(receiver, chunks);
            ReceiverAfter(receiver, chunks + [bytes])
            == if before.None? then None else Some(Interrupted(before.value, bytes).receiver)
  {
    if receiver.Some? {
      ListenGrows(receiver.value, chunks, bytes);
    }
  }

  lemma LeadsByInterrupt(a: Snapshot, b: Snapshot, c: Snapshot, hs: seq<Happening>, turns: seq<Turn>,
                         h: Happening, bytes: seq<byte>, fixed: FixedRegisters)
    requires Leads(a, b, hs, turns, fixed) && h.Interrupt?
    requires b.receiver.Some? ==> Reachable(b.receiver.value.fsm)
    requires h.second == Reported(b.receiver, bytes)
    requires c.receiver == if b.receiver.None? then None else Some(Interrupted(b.receiver.value, bytes).receiver)
    requires c == b.(core := After(b.core, h), now := c.now, receiver := c.receiver)
    requires b.now <= h.at <= c.now < TWO_64 / 2
    ensures Leads(a, c, hs + [h], turns + [Uart(bytes)], fixed)
  {
    hide After;
    hide PulseOf;
    hide ClockedUpTo;
    hide Listen;
    hide Interrupted;
    hide PollAll;
    Extend(a.core, hs, h, fixed);
    MoreTurns(turns, Uart(bytes));
    assert Arrivals(turns) + [] == Arrivals(turns);
    assert ReceivedIn(hs) + [] == ReceivedIn(hs) && SentIn(hs) + [] == SentIn(hs);
    ListenOneMore(a.receiver, UartChunks(turns), bytes);
    FitOneMore(a, turns, hs, Uart(bytes), h);
    InterruptIsClocked(h, b.now, c.now);
    ClockedOn(a.now, AllEvents(hs), b.now, EventsOf(h), c.now);
  }

  // ---------------------------------------------------------------------------------------------
  // Messages
  // ---------------------------------------------------------------------------------------------

  /** Every happening of an explained run is explained by the state it meets. */
  lemma {:induction false} EachIsExplained(c: Core, hs: seq<Happening>, fixed: FixedRegisters, k: nat)
    requires FixedOk(fixed) && Sized(c) && AllPossible(hs) && AllExplained(c, hs, fixed) && k < |hs|
    ensures AllPossible(hs[..k]) && Possible(hs[k]) && Explains(AfterAll(c, hs[..k]), hs[k], fixed)
    decreases |hs|
  {
    hide Explains;
    hide AfterAll;
    var front := hs[..|hs| - 1];
    assert hs[k] in hs;
    if k < |hs| - 1 {
      EachIsExplained(c, front, fixed, k);
      assert front[..k] == hs[..k];
    }
  }

  function HeadsOf(sent: seq<Sent>): seq<Head> { seq(|sent|, i requires 0 <= i < |sent| => HeadOf(sent[i])) }

  /**
   * The replies of a pass that meets the state c: those its message calls for, under the mute and
   * lock bits it meets.
   */
  predicate MessageAnswered(c: Core, h: Happening)
    requires Sized(c) && Possible(h) && h.Looped?
  {
    if h.received == [] then h.sent == []
    else
      var r, met := h.received[0], Ticked(c, h.pass.tick).sched;
      HeadsOf(h.sent) == Answers(r.delivery.frame, r.source, Scheduler.Muted(met), Scheduler.Unlocked(met))
  }

  /** Over any run every message delivered is answered in its pass, and nothing else is. */
  lemma EveryMessageIsAnswered(a: Snapshot, b: Snapshot, hs: seq<Happening>, turns: seq<Turn>,
                               fixed: FixedRegisters, k: nat)
    requires Leads(a, b, hs, turns, fixed) && k < |hs| && hs[k].Looped?
    ensures AllPossible(hs[..k]) && Possible(hs[k])
    ensures MessageAnswered(AfterAll(a.core, hs[..k]), hs[k])
  {
    hide AllFit;
    hide PollAll;
    hide Listen;
    EachIsExplained(a.core, hs, fixed, k);
    ExplainedIsAnswered(AfterAll(a.core, hs[..k]), hs[k], fixed);
  }

  lemma ExplainedIsAnswered(c: Core, h: Happening, fixed: FixedRegisters)
    requires FixedOk(fixed) && Sized(c) && Possible(h) && h.Looped? && Explains(c, h, fixed)
    ensures MessageAnswered(c, h)
  {
    hide Executed;
    hide Ticked;
    hide Tells;
    hide CoreState.Announced;
    hide Answers;
  }

  /** The reads that a run issues to one transport. */
  function ReadsOf(transport: Source, tcp: seq<byte>, arrivals: seq<Arrival>): seq<seq<byte>>
    requires |tcp| <= MAX_PACKET_SIZE
  {
    if transport.Tcp? then TcpReads(arrivals) else CdcReads(tcp, arrivals)
  }

  /** A host sends whole frames on one transport, starting with an empty buffer. */
  predicate SendsFrames(a: Snapshot, turns: seq<Turn>, transport: Source, frames: seq<seq<byte>>) {
    && !transport.NoSource? && a.tcp == [] && a.cdc == [] && AllWellFormed(frames)
    && var issued := ReadsOf(transport, [], Arrivals(turns)); Compliant([], issued) && Concat(issued) == Concat(frames)
  }

  /**
   * Over any run, the frames a host sends on one transport are dispatched each once, in order and
   * byte for byte, if and only if no read crosses a frame end, whatever the other transport brings.
   */
  lemma FramesAreDispatchedIff(a: Snapshot, b: Snapshot, hs: seq<Happening>, turns: seq<Turn>,
                               fixed: FixedRegisters, transport: Source, frames: seq<seq<byte>>)
    requires Leads(a, b, hs, turns, fixed) && SendsFrames(a, turns, transport, frames)
    ensures (Frames(From(transport, ReceivedIn(hs))) == frames && (if transport.Tcp? then b.tcp else b.cdc) == [])
              <==> Aligned([], frames, ReadsOf(transport, [], Arrivals(turns)))
  {
    hide AfterAll;
    hide AllExplained;
    hide AllEvents;
    hide AllFit;
    hide Listen;
    TransportsAreIsolated(a.tcp, a.cdc, Arrivals(turns));
    DeliversExactlyTheFramesIff([], frames, ReadsOf(transport, [], Arrivals(turns)));
    assert [] + Concat(ReadsOf(transport, [], Arrivals(turns))) == Concat(frames);
  }

  // ---------------------------------------------------------------------------------------------
  // The clock
  // ---------------------------------------------------------------------------------------------

  /** The seconds that the interrupts of a run report. */
  function SecondsIn(hs: seq<Happening>): seq<uint32>
    decreases |hs|
  {
    if hs == [] then []
    else
      var last := hs[|hs| - 1];
      SecondsIn(hs[..|hs| - 1]) + if last.Interrupt? then OneOrNone(last.second) else []
  }

  /** They are those that the receiver makes of the bytes on the sync line. */
  lemma {:induction false} SecondsAreHeard(a: Snapshot, turns: seq<Turn>, hs: seq<Happening>)
    requires Standing(a) && AllFit(a, turns, hs) && a.receiver.Some?
    ensures SecondsIn(hs) == Listen(a.receiver.value, UartChunks(turns)).seconds
    decreases |turns|
  {
    hide Listen;
    hide Interrupted;
    hide AllFit;
    hide Fits;
    OneEach(a, turns, hs);
    if turns != [] {
      var n := |turns| - 1;
      var front, last := turns[..n], turns[n];
      FitsBefore(a, turns, hs);
      SecondsAreHeard(a, front, hs[..n]);
      var chunks := UartChunks(front);
      LastHeard(a, front, last, hs[n]);
      if last.Uart? {
        ListenGrows(a.receiver.value, chunks, last.bytes);
      } else {
        assert chunks + [] == chunks && SecondsIn(hs[..n]) + [] == SecondsIn(hs[..n]);
      }
    } else {
      NothingHeard(a.receiver.value);
    }
  }

  lemma NothingHeard(r: Receiver)
    requires Reachable(r.fsm)
    ensures Listen(r, []).seconds == []
  {
  }

  lemma LastHeard(a: Snapshot, front: seq<Turn>, last: Turn, h: Happening)
    requires Standing(a) && a.receiver.Some? && Fits(a, front, last, h)
    ensures h.Interrupt? <==> last.Uart?
    ensures last.Uart? ==>
              h.second == Interrupted(Listen(a.receiver.value, UartChunks(front)).receiver, last.bytes).second
  {
    hide Listen;
    hide Interrupted;
    hide PollAll;
    hide Poll;
  }

  lemma OneEach(a: Snapshot, turns: seq<Turn>, hs: seq<Happening>)
    requires Standing(a) && AllFit(a, turns, hs)
    ensures |hs| == |turns|
  {
  }

  lemma FitsBefore(a: Snapshot, turns: seq<Turn>, hs: seq<Happening>)
    requires Standing(a) && AllFit(a, turns, hs) && turns != []
    ensures AllFit(a, turns[..|turns| - 1], hs[..|turns| - 1])
    ensures Fits(a, turns[..|turns| - 1], turns[|turns| - 1], hs[|turns| - 1])
  {
    hide Fits;
    var n := |turns| - 1;
    forall k | 0 <= k < n
      ensures Fits(a, turns[..n][..k], turns[..n][k], hs[..n][k])
    {
      assert turns[..n][..k] == turns[..k];
    }
  }

  /**
   * Every timely run of the core task without sync packets keeps its heartbeats on whole Harp
   * seconds, whatever commands the two hosts send.
   */
  lemma HeartbeatsOfARunAreWhole(a: Snapshot, b: Snapshot, hs: seq<Happening>, turns: seq<Turn>,
                                 fixed: FixedRegisters, off: int)
    requires Leads(a, b, hs, turns, fixed) && Scheduler.Sane(a.core.sched) && Scheduler.Ahead(a.core.sched, a.now)
    requires Scheduler.AllTimely(a.core.sched, a.now, AllEvents(hs))
    requires WholeSeconds.OnWholeSeconds(a.core.sched, off, a.now)
    requires forall e <- AllEvents(hs) :: !e.SyncPulse?
    ensures WholeSeconds.OnWholeSeconds(b.core.sched, WholeSeconds.FinalOff(a.core.sched, off, AllEvents(hs)),
                                        Scheduler.FinalTime(a.now, AllEvents(hs)))
  {
    hide AllFit;
    hide AllExplained;
    hide AfterAll;
    hide ReceiverAfter;
    hide PollAll;
    hide Scheduler.AllTimely;
    TimelyRunsAreUnbounded(a.core, a.now, hs);
    WholeSeconds.HeartbeatsStayOnWholeSeconds(a.core.sched, off, a.now, AllEvents(hs));
  }

  /** The happening sets the clock: it applies a packet or an accepted write of TIMESTAMP_SECOND. */
  predicate SetsClock(c: Core, h: Happening)
    requires Sized(c) && Possible(h)
  {
    match h
    case Interrupt(second, _) => second.Some?
    case Looped(received, pass, _, _, _) =>
      && received != [] && received[0].delivery.frame[2] == TIMESTAMP_SECOND
      && Accepted(received[0].delivery.frame, Scheduler.Unlocked(Ticked(c, pass.tick).sched))
  }

  lemma StepKeepsOffset(s: Scheduler.Sched, e: Scheduler.Event)
    ensures Scheduler.Step(s, e).s.sync.Some? <==> s.sync.Some?
    ensures !WholeSeconds.MovesClock(s, e) ==>
              Scheduler.OffsetInUse(Scheduler.Step(s, e).s) == Scheduler.OffsetInUse(s)
  {
    hide Scheduler.UpdateState;
    hide Scheduler.NextClockConfig;
    if !e.WriteTimestamp? && !e.WriteClockConfig? && !e.SyncPulse? {
      Scheduler.OtherStepsKeepClock(s, e);
    }
  }

  lemma FirmwareKeepsOffset(s: Scheduler.Sched, e: Scheduler.Event)
    ensures var next := WrappedDeadline.FirmwareStep(s, e).s;
            && (next.sync.Some? <==> s.sync.Some?)
            && (!WholeSeconds.MovesClock(s, e) ==> Scheduler.OffsetInUse(next) == Scheduler.OffsetInUse(s))
            && (e.Tick? ==> next.clockConfig == s.clockConfig)
  {
    hide Scheduler.Step;
    hide WrappedDeadline.FirmwareStep;
    StepKeepsOffset(s, e);
    WrappedDeadline.StepIgnoresDeadline(s, s, e);
    if e.Tick? {
      Scheduler.OtherStepsKeepClock(s, e);
    }
  }

  lemma HappeningKeepsClock(c: Core, h: Happening)
    requires Sized(c) && Possible(h)
    ensures After(c, h).sched.sync.Some? <==> c.sched.sync.Some?
    ensures !SetsClock(c, h) ==> Scheduler.OffsetInUse(After(c, h).sched) == Scheduler.OffsetInUse(c.sched)
  {
    hide Scheduler.OffsetInUse;
    hide After;
    hide WrappedDeadline.FirmwareStep;
    hide WriteEvents;
    PassFollowsSchedule(c, h);
    match h
    case Interrupt(second, at) =>
      if second.Some? {
        OneEventRun(c.sched, PulseOf(second.value, at));
        FirmwareKeepsOffset(c.sched, PulseOf(second.value, at));
      }
    case Looped(received, pass, _, _, _) => {
      var tick := Scheduler.Tick(pass.tick.t, pass.tick.host);
      FirmwareKeepsOffset(c.sched, tick);
      TickFollowsSchedule(c, pass.tick);
      OneEventRun(c.sched, tick);
      if received == [] {
        assert [tick] + [] == [tick];
      } else {
        var more := FrameEvents(received[0].delivery.frame, pass.command);
        WrappedDeadline.RunAppend(c.sched, [tick], more);
        FrameKeepsClock(WrappedDeadline.FirmwareStep(c.sched, tick).s, received[0].delivery.frame, pass.command);
      }
    }
  }

  lemma OneEventRun(s: Scheduler.Sched, e: Scheduler.Event)
    ensures WrappedDeadline.FirmwareRun(s, [e]).s == WrappedDeadline.FirmwareStep(s, e).s
  {
    assert [e][1..] == [];
  }

  lemma FrameKeepsClock(s: Scheduler.Sched, frame: seq<byte>, i: CommandInput)
    requires Dispatchable(frame)
    ensures var after := WrappedDeadline.FirmwareRun(s, FrameEvents(frame, i)).s;
            && (after.sync.Some? <==> s.sync.Some?)
            && (!(frame[2] == TIMESTAMP_SECOND && Accepted(frame, Scheduler.Unlocked(s))) ==>
                  Scheduler.OffsetInUse(after) == Scheduler.OffsetInUse(s))
  {
    hide WrappedDeadline.FirmwareStep;
    hide Scheduler.OffsetInUse;
    hide Scheduler.Unlocked;
    var events := FrameEvents(frame, i);
    if events != [] {
      assert events == [events[0]];
      OneEventRun(s, events[0]);
      FirmwareKeepsOffset(s, events[0]);
    }
  }

  lemma {:induction false} SyncStaysAttached(c: Core, hs: seq<Happening>)
    requires Sized(c) && AllPossible(hs)
    ensures AfterAll(c, hs).sched.sync.Some? <==> c.sched.sync.Some?
    decreases |hs|
  {
    hide After;
    if hs != [] {
      SyncStaysAttached(c, hs[..|hs| - 1]);
      HappeningKeepsClock(AfterAll(c, hs[..|hs| - 1]), hs[|hs| - 1]);
    }
  }

  lemma PossibleUpTo(hs: seq<Happening>, j: nat)
    requires AllPossible(hs) && j <= |hs|
    ensures AllPossible(hs[..j]) && (j < |hs| ==> Possible(hs[j]))
  {
    hide Possible;
    assert j < |hs| ==> hs[j] in hs;
  }

  /** From the state that `hs[..k]` leads to, no happening sets the clock. */
  predicate ClockLeftAlone(c: Core, hs: seq<Happening>, k: nat)
    requires Sized(c) && AllPossible(hs) && k <= |hs|
  {
    forall j :: k <= j < |hs| ==>
      (PossibleUpTo(hs, j); !SetsClock(AfterAll(c, hs[..j]), hs[j]))
  }

  lemma {:induction false} OffsetStays(c: Core, hs: seq<Happening>, k: nat, n: nat)
    requires Sized(c) && AllPossible(hs) && k <= n <= |hs| && ClockLeftAlone(c, hs, k)
    ensures AllPossible(hs[..k]) && AllPossible(hs[..n])
    ensures Scheduler.OffsetInUse(AfterAll(c, hs[..n]).sched) == Scheduler.OffsetInUse(AfterAll(c, hs[..k]).sched)
    decreases n
  {
    hide After;
    hide SetsClock;
    hide Scheduler.OffsetInUse;
    PossibleUpTo(hs, k);
    PossibleUpTo(hs, n);
    if k < n {
      OffsetStays(c, hs, k, n - 1);
      NextState(c, hs, n - 1);
      HappeningKeepsClock(AfterAll(c, hs[..n - 1]), hs[n - 1]);
    }
  }

  lemma NextState(c: Core, hs: seq<Happening>, k: nat)
    requires Sized(c) && AllPossible(hs) && k < |hs|
    ensures AllPossible(hs[..k]) && AllPossible(hs[..k + 1]) && Possible(hs[k])
    ensures AfterAll(c, hs[..k + 1]) == After(AfterAll(c, hs[..k]), hs[k])
  {
    hide After;
    PossibleUpTo(hs, k);
    PossibleUpTo(hs, k + 1);
    assert hs[..k + 1][..k] == hs[..k];
  }

  /** The Harp time that a packet applied at `at` makes it at time t. */
  function NamedTime(second: uint32, at: int, t: int): uint64 { Wrap64(PulseTime(second) + (t - at)) }

  lemma PulseSetsClock(c: Core, second: uint32, at: int, t: int)
    requires c.sched.sync.Some?
    ensures Scheduler.HarpTime(Pulse(c, Some(second), at).sched, t) == NamedTime(second, at, t)
  {
    WrapLater(t, at, PulseTime(second));
  }

  lemma SameOffsetSameTime(s: Scheduler.Sched, other: Scheduler.Sched, t: int)
    requires Scheduler.OffsetInUse(s) == Scheduler.OffsetInUse(other)
    ensures Scheduler.HarpTime(s, t) == Scheduler.HarpTime(other, t)
  {
  }

  lemma PulseThenQuiet(c: Core, hs: seq<Happening>, k: nat, t: int)
    requires Sized(c) && AllPossible(hs) && c.sched.sync.Some?
    requires k < |hs| && hs[k].Interrupt? && hs[k].second.Some? && ClockLeftAlone(c, hs, k + 1)
    ensures Scheduler.HarpTime(AfterAll(c, hs).sched, t) == NamedTime(hs[k].second.value, hs[k].at, t)
  {
    hide ClockLeftAlone;
    hide AfterAll;
    hide After;
    hide NamedTime;
    hide Pulse;
    hide Scheduler.OffsetInUse;
    hide Scheduler.HarpTime;
    NextState(c, hs, k);
    SyncStaysAttached(c, hs[..k]);
    OffsetStays(c, hs, k + 1, |hs|);
    assert hs[..|hs|] == hs;
    var before, pulsed := AfterAll(c, hs[..k]), AfterAll(c, hs[..k + 1]);
    AfterInterrupt(before, hs[k]);
    assert pulsed == Pulse(before, Some(hs[k].second.value), hs[k].at);
    PulseSetsClock(before, hs[k].second.value, hs[k].at, t);
    SameOffsetSameTime(AfterAll(c, hs).sched, pulsed.sched, t);
  }

  lemma AfterInterrupt(c: Core, h: Happening)
    requires Sized(c) && Possible(h) && h.Interrupt?
    ensures After(c, h) == Pulse(c, h.second, h.at)
  {
  }

  /** A packet that was reported is the one the receiver completes at its turn. */
  lemma ReportedByReceiver(a: Snapshot, turns: seq<Turn>, hs: seq<Happening>, k: nat)
    requires Standing(a) && AllFit(a, turns, hs) && k < |hs| && hs[k].Interrupt? && hs[k].second.Some?
    ensures a.core.sched.sync.Some? && k < |turns| && turns[k].Uart?
    ensures hs[k].second == Reported(ReceiverAfter(a.receiver, UartChunks(turns[..k])), turns[k].bytes)
  {
    hide Listen;
    hide Interrupted;
    hide Poll;
    hide PollAll;
    hide UartChunks;
    assert Fits(a, turns[..k], turns[k], hs[k]);
  }

  /**
   * After any run the Harp clock is the one named by the last packet that was decoded, unless
   * TIMESTAMP_SECOND was written since.
   */
  lemma ClockFollowsLastPacket(a: Snapshot, b: Snapshot, hs: seq<Happening>, turns: seq<Turn>,
                               fixed: FixedRegisters, k: nat, t: int)
    requires Leads(a, b, hs, turns, fixed) && k < |hs| && hs[k].Interrupt? && hs[k].second.Some?
    requires ClockLeftAlone(a.core, hs, k + 1)
    ensures k < |turns| && turns[k].Uart?
    ensures hs[k].second == Reported(ReceiverAfter(a.receiver, UartChunks(turns[..k])), turns[k].bytes)
    ensures Scheduler.HarpTime(b.core.sched, t) == NamedTime(hs[k].second.value, hs[k].at, t)
  {
    hide AllFit;
    hide AfterAll;
    hide AllExplained;
    hide Reported;
    hide ReceiverAfter;
    ReportedByReceiver(a, turns, hs, k);
    PulseThenQuiet(a.core, hs, k, t);
  }

  /** A fresh receiver was handed a printed stream and has taken all of it. */
  predicate HeardAll(a: Snapshot, b: Snapshot, turns: seq<Turn>, seconds: seq<uint32>, fillers: seq<seq<byte>>) {
    && a.receiver == Some(Receiver(AwaitHeader0, []))
    && b.receiver.Some? && b.receiver.value.queue == []
    && Printed(seconds, fillers, UartChunks(turns))
  }

  /** The seconds reported are then those printed, plus one, in whatever pieces the stream came. */
  lemma StreamIsReported(a: Snapshot, b: Snapshot, hs: seq<Happening>, turns: seq<Turn>, fixed: FixedRegisters,
                         seconds: seq<uint32>, fillers: seq<seq<byte>>)
    requires Leads(a, b, hs, turns, fixed) && HeardAll(a, b, turns, seconds, fillers)
    ensures SecondsIn(hs) == SyncDecoding.Announced(seconds)
  {
    hide AllFit;
    hide AfterAll;
    hide AllExplained;
    hide Listen;
    hide SyncDecoding.Announced;
    hide Printed;
    ListenInvertsPrinter(seconds, fillers, UartChunks(turns));
    SecondsAreHeard(a, turns, hs);
  }

  /** And the Harp clock is the one that the last packet named, whatever commands came in between. */
  lemma ClockFollowsTheStream(a: Snapshot, b: Snapshot, hs: seq<Happening>, turns: seq<Turn>, fixed: FixedRegisters,
                              seconds: seq<uint32>, fillers: seq<seq<byte>>, k: nat, t: int)
    requires k < |hs| && hs[k].Interrupt? && hs[k].second.Some? && seconds != []
    requires Leads(a, b, hs, turns, fixed) && ClockLeftAlone(a.core, hs, k + 1)
    requires HeardAll(a, b, turns, seconds, fillers)
    ensures var last := Wrap32(seconds[|seconds| - 1] as int + 1);
            Scheduler.HarpTime(b.core.sched, t) == NamedTime(last, hs[k].at, t)
  {
    hide AllFit;
    hide AfterAll;
    hide AllExplained;
    hide AllEvents;
    hide ClockedUpTo;
    hide ReceivedIn;
    hide SentIn;
    hide PollAll;
    hide ReceiverAfter;
    hide ClockLeftAlone;
    hide HeardAll;
    StreamIsReported(a, b, hs, turns, fixed, seconds, fillers);
    ClockFollowsLastPacket(a, b, hs, turns, fixed, k, t);
    LastReported(a.core, hs, k);
  }

  /** With the clock left alone since, the last second reported is that of `hs[k]`. */
  lemma LastReported(c: Core, hs: seq<Happening>, k: nat)
    requires Sized(c) && AllPossible(hs) && k < |hs| && hs[k].Interrupt? && hs[k].second.Some?
    requires ClockLeftAlone(c, hs, k + 1)
    ensures SecondsIn(hs) != [] && SecondsIn(hs)[|SecondsIn(hs)| - 1] == hs[k].second.value
  {
    forall j | k < j < |hs|
      ensures hs[j].Looped? || hs[j].second.None?
    {
      PossibleUpTo(hs, j);
      assert !SetsClock(AfterAll(c, hs[..j]), hs[j]);
    }
    LastSecond(hs, k);
  }

  lemma {:induction false} LastSecond(hs: seq<Happening>, k: nat)
    requires k < |hs| && hs[k].Interrupt? && hs[k].second.Some?
    requires forall j :: k < j < |hs| ==> hs[j].Looped? || hs[j].second.None?
    ensures SecondsIn(hs) != [] && SecondsIn(hs)[|SecondsIn(hs)| - 1] == hs[k].second.value
    decreases |hs|
  {
    if k < |hs| - 1 {
      LastSecond(hs[..|hs| - 1], k);
    }
  }
}
