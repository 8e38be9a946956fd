/** What the hosts see of a whole run: the replies on each transport, and the periodic events. */
module HostView {
  import opened Basics
  import opened HarpMessage
  import opened Framing
  import opened Commands
  import opened CoreState
  import opened CoreRuns
  import opened TaskRuns
  import opened Heartbeats
  import Scheduler
  import WrappedDeadline
  import SyncDecoding
  import Replies

  /** Every frame is a periodic event, for both transports. */
  predicate AllEventFrames(sent: seq<Sent>) { forall e <- sent :: e.kind == EVENT && e.to == NoSource }

  /** No frame is a periodic event, and all go to one transport. */
  predicate AllReplies(sent: seq<Sent>, to: Source) { forall e <- sent :: e.kind != EVENT && e.to == to }

  lemma PassTraffic(c: Core, h: Happening, fixed: FixedRegisters)
    requires FixedOk(fixed) && Sized(c) && Possible(h) && h.Looped? && Explains(c, h, fixed)
    ensures AllEventFrames(h.ticked) && AllEventFrames(h.events)
    ensures if h.received == [] then h.sent == [] else AllReplies(h.sent, h.received[0].source)
  {
    hide Tells;
    hide Ticked;
    hide Executed;
    hide Answers;
    if h.received != [] {
      var met := Ticked(c, h.pass.tick).sched;
      var r := h.received[0];
      var heads := Answers(r.delivery.frame, r.source, Scheduler.Muted(met), Scheduler.Unlocked(met));
      AnswersAreReplies(r.delivery.frame, r.source, Scheduler.Muted(met), Scheduler.Unlocked(met));
      ExplainedIsAnswered(c, h, fixed);
      forall e | e in h.sent
        ensures e.kind != EVENT && e.to == r.source
      {
        var k :| 0 <= k < |h.sent| && h.sent[k] == e;
        assert HeadsOf(h.sent)[k] == heads[k];
      }
    }
  }

  // ---------------------------------------------------------------------------------------------
  // Replies
  // ---------------------------------------------------------------------------------------------

  /** The replies, not events, among the frames routed to a transport. */
  function RepliesTo(sent: seq<Sent>, transport: Source): seq<Head> {
    if sent == [] then []
    else
      (if sent[0].kind != EVENT && Routed(sent[0], transport) then [Head(sent[0].kind, sent[0].address, transport)]
       else [])
      + RepliesTo(sent[1..], transport)
  }

  lemma {:induction false} RepliesToAppend(a: seq<Sent>, b: seq<Sent>, transport: Source)
    ensures RepliesTo(a + b, transport) == RepliesTo(a, transport) + RepliesTo(b, transport)
  {
    if a == [] {
      assert a + b == b;
    } else {
      assert (a + b)[1..] == a[1..] + b;
      RepliesToAppend(a[1..], b, transport);
    }
  }

  lemma {:induction false} EventsAreNoReplies(sent: seq<Sent>, transport: Source)
    requires AllEventFrames(sent)
    ensures RepliesTo(sent, transport) == []
  {
    if sent != [] {
      assert sent[0] in sent;
      EventsAreNoReplies(sent[1..], transport);
    }
  }

  lemma {:induction false} RepliesOfOneSource(sent: seq<Sent>, to: Source, transport: Source)
    requires AllReplies(sent, to) && !to.NoSource?
    ensures RepliesTo(sent, transport) == if to == transport then HeadsOf(sent) else []
  {
    if sent != [] {
      assert sent[0] in sent;
      RepliesOfOneSource(sent[1..], to, transport);
      assert to == transport ==> HeadsOf(sent) == [HeadOf(sent[0])] + HeadsOf(sent[1..]);
    }
  }

  /** The states that the messages from one transport meet. */
  function Met(c: Core, hs: seq<Happening>, transport: Source): seq<Scheduler.Sched>
    requires Sized(c) && AllPossible(hs)
    decreases |hs|
  {
    if hs == [] then []
    else
      var front, h := hs[..|hs| - 1], hs[|hs| - 1];
      Met(c, front, transport)
      + if FromTransport(h, transport) then [Ticked(AfterAll(c, front), h.pass.tick).sched] else []
  }

  predicate FromTransport(h: Happening, transport: Source) {
    h.Looped? && h.received != [] && h.received[0].source == transport
  }

  predicate AllDispatchable(frames: seq<seq<byte>>) { forall f <- frames :: Dispatchable(f) }

  /** The answers to frames, each under the mute and lock bits of the state it meets. */
  function AnswersTo(frames: seq<seq<byte>>, transport: Source, met: seq<Scheduler.Sched>): seq<Head>
    requires AllDispatchable(frames) && |met| == |frames|
    decreases |frames|
  {
    if frames == [] then []
    else
      var n := |frames| - 1;
      AnswersTo(frames[..n], transport, met[..n])
      + Answers(frames[n], transport, Scheduler.Muted(met[n]), Scheduler.Unlocked(met[n]))
  }

  /** The frames dispatched from one transport. */
  function Dispatched(hs: seq<Happening>, transport: Source): seq<seq<byte>> {
    Frames(From(transport, ReceivedIn(hs)))
  }

  lemma {:induction false} FromAppend(transport: Source, a: seq<Received>, b: seq<Received>)
    ensures From(transport, a + b) == From(transport, a) + From(transport, b)
  {
    if a == [] {
      assert a + b == b;
    } else {
      assert (a + b)[1..] == a[1..] + b;
      FromAppend(transport, a[1..], b);
    }
  }

  lemma {:induction false} FramesAppend(a: seq<Delivery>, b: seq<Delivery>)
    ensures Frames(a + b) == Frames(a) + Frames(b)
  {
    if a == [] {
      assert a + b == b;
    } else {
      assert (a + b)[1..] == a[1..] + b;
      FramesAppend(a[1..], b);
    }
  }

  lemma OneReceived(transport: Source, r: Received)
    ensures Frames(From(transport, [r])) == if r.source == transport then [r.delivery.frame] else []
  {
    assert [r][1..] == [];
    var delivered := [r.delivery];
    assert delivered[1..] == [];
    assert delivered + [] == delivered;
  }

  lemma DispatchedNext(hs: seq<Happening>, transport: Source)
    requires AllPossible(hs) && hs != []
    ensures var h := hs[|hs| - 1];
            Dispatched(hs, transport)
            == Dispatched(hs[..|hs| - 1], transport)
               + if FromTransport(h, transport) then [h.received[0].delivery.frame] else []
  {
    hide Frames;
    hide From;
    var front, h := hs[..|hs| - 1], hs[|hs| - 1];
    assert h in hs;
    var received := if h.Looped? then h.received else [];
    FromAppend(transport, ReceivedIn(front), received);
    FramesAppend(From(transport, ReceivedIn(front)), From(transport, received));
    if received != [] {
      assert received == [received[0]];
      OneReceived(transport, received[0]);
    } else {
      NothingReceived(transport);
    }
  }

  lemma NothingReceived(transport: Source)
    ensures Frames(From(transport, [])) == []
  {
  }

  lemma PassReplies(c: Core, h: Happening, fixed: FixedRegisters, transport: Source)
    requires FixedOk(fixed) && Sized(c) && Possible(h) && h.Looped? && Explains(c, h, fixed)
    requires forall r <- h.received :: !r.source.NoSource?
    ensures RepliesTo(SentBy(h), transport)
         == if FromTransport(h, transport) then
              var met := Ticked(c, h.pass.tick).sched;
              Answers(h.received[0].delivery.frame, transport, Scheduler.Muted(met), Scheduler.Unlocked(met))
            else []
  {
    hide Explains;
    hide Answers;
    hide Ticked;
    PassTraffic(c, h, fixed);
    ExplainedIsAnswered(c, h, fixed);
    RepliesToAppend(h.ticked, h.events + h.sent, transport);
    RepliesToAppend(h.events, h.sent, transport);
    EventsAreNoReplies(h.ticked, transport);
    EventsAreNoReplies(h.events, transport);
    if h.received != [] {
      assert h.received[0] in h.received;
      RepliesOfOneSource(h.sent, h.received[0].source, transport);
    }
  }

  predicate HasSource(h: Happening) { h.Looped? ==> forall r <- h.received :: !r.source.NoSource? }

  /** Each message met one state, and the replies to a transport are the answers to its messages, in order. */
  lemma {:induction false} RepliesAreAnswers(c: Core, hs: seq<Happening>, fixed: FixedRegisters, transport: Source)
    requires FixedOk(fixed) && Sized(c) && AllPossible(hs) && AllExplained(c, hs, fixed)
    requires forall h <- hs :: HasSource(h)
    ensures var frames, met := Dispatched(hs, transport), Met(c, hs, transport);
            && AllDispatchable(frames) && |met| == |frames|
            && RepliesTo(SentIn(hs), transport) == AnswersTo(frames, transport, met)
    decreases |hs|
  {
    hide Explains;
    hide Answers;
    hide Dispatched;
    hide SentBy;
    hide Ticked;
    if hs == [] {
      NothingDispatched(transport);
    } else {
      var front, h := hs[..|hs| - 1], hs[|hs| - 1];
      assert h in hs;
      RepliesAreAnswers(c, front, fixed, transport);
      DispatchedNext(hs, transport);
      if h.Looped? {
        RepliesToAppend(SentIn(front), SentBy(h), transport);
        PassReplies(AfterAll(c, front), h, fixed, transport);
      } else {
        assert SentIn(front) + [] == SentIn(front);
      }
      if FromTransport(h, transport) {
        AnswersNext(Dispatched(front, transport), h.received[0].delivery.frame, transport, Met(c, front, transport),
                    Ticked(AfterAll(c, front), h.pass.tick).sched);
      } else {
        assert Dispatched(front, transport) + [] == Dispatched(front, transport);
        assert Met(c, front, transport) + [] == Met(c, front, transport);
      }
    }
  }

  lemma NothingDispatched(transport: Source)
    ensures Dispatched([], transport) == []
  {
  }

  lemma AnswersNext(frames: seq<seq<byte>>, frame: seq<byte>, transport: Source, met: seq<Scheduler.Sched>,
                    s: Scheduler.Sched)
    requires AllDispatchable(frames) && Dispatchable(frame) && |met| == |frames|
    ensures AllDispatchable(frames + [frame])
    ensures AnswersTo(frames + [frame], transport, met + [s])
         == AnswersTo(frames, transport, met) + Answers(frame, transport, Scheduler.Muted(s), Scheduler.Unlocked(s))
  {
    assert (frames + [frame])[..|frames|] == frames && (met + [s])[..|met|] == met;
  }

  // ---------------------------------------------------------------------------------------------
  // The host's end
  // ---------------------------------------------------------------------------------------------

  /** The replies, not events, that a host on a transport has read. */
  function HeadsRead(replies: seq<Replies.HostReply>, transport: Source): seq<Head> {
    if replies == [] then []
    else
      (if replies[0].kind != EVENT then [Head(replies[0].kind, replies[0].address, transport)] else [])
      + HeadsRead(replies[1..], transport)
  }

  lemma {:induction false} HeadsReadAreReplies(log: seq<Sent>, transport: Source)
    requires forall e <- log :: Printable(e)
    ensures HeadsRead(ReadingsOf(log, transport), transport) == RepliesTo(log, transport)
  {
    hide Printable;
    if log != [] {
      assert log[0] in log;
      HeadsReadAreReplies(log[1..], transport);
      var rest := ReadingsOf(log[1..], transport);
      if Routed(log[0], transport) {
        assert ([ReadingOf(log[0])] + rest)[1..] == rest;
      } else {
        assert ReadingsOf(log, transport) == rest;
      }
    }
  }

  /**
   * Command to reply, through both hosts' wires: whatever the other transport brings, a host that
   * sends whole frames, none crossed by a read, parses exactly the answers to its frames, in order
   * and each judged by the mute and lock bits it met, and nothing else but events.
   */
  lemma HostReadsTheAnswers(a: Snapshot, b: Snapshot, hs: seq<Happening>, turns: seq<Turn>, fixed: FixedRegisters,
                            transport: Source, frames: seq<seq<byte>>)
    requires Leads(a, b, hs, turns, fixed) && SendsFrames(a, turns, transport, frames)
    requires Aligned([], frames, ReadsOf(transport, [], Arrivals(turns)))
    ensures var met := Met(a.core, hs, transport);
            && AllDispatchable(frames) && |met| == |frames|
            && HeadsRead(HostReads(Wire(SentIn(hs), transport)), transport) == AnswersTo(frames, transport, met)
  {
    hide AllExplained;
    hide AfterAll;
    hide ClockedUpTo;
    hide ReceiverAfter;
    hide Wire;
    hide SendsFrames;
    hide ReadsOf;
    hide AnswersTo;
    hide Met;
    FramesAreDispatchedIff(a, b, hs, turns, fixed, transport, frames);
    AllHaveSources(a, hs, turns);
    RepliesAreAnswers(a.core, hs, fixed, transport);
    forall e | e in SentIn(hs)
      ensures Printable(e)
    {
      assert e in b.log;
    }
    HostReadsWhatWasSent(SentIn(hs), transport);
    HeadsReadAreReplies(SentIn(hs), transport);
  }

  lemma AllHaveSources(a: Snapshot, hs: seq<Happening>, turns: seq<Turn>)
    requires Standing(a) && AllFit(a, turns, hs)
    ensures forall h <- hs :: HasSource(h)
  {
    forall h | h in hs
      ensures HasSource(h)
    {
      var k :| 0 <= k < |hs| && hs[k] == h;
      assert Fits(a, turns[..k], turns[k], hs[k]);
    }
  }

  // ---------------------------------------------------------------------------------------------
  // Periodic events
  // ---------------------------------------------------------------------------------------------

  /** The registers that the periodic events among the frames report. */
  function EventsIn(sent: seq<Sent>): seq<byte> {
    if sent == [] then [] else (if sent[0].kind == EVENT then [sent[0].address] else []) + EventsIn(sent[1..])
  }

  lemma {:induction false} EventsInAppend(a: seq<Sent>, b: seq<Sent>)
    ensures EventsIn(a + b) == EventsIn(a) + EventsIn(b)
  {
    if a == [] {
      assert a + b == b;
    } else {
      assert (a + b)[1..] == a[1..] + b;
      EventsInAppend(a[1..], b);
    }
  }

  lemma {:induction false} RepliesAreNoEvents(sent: seq<Sent>, to: Source)
    requires AllReplies(sent, to)
    ensures EventsIn(sent) == []
  {
    if sent != [] {
      assert sent[0] in sent;
      RepliesAreNoEvents(sent[1..], to);
    }
  }

  lemma {:induction false} EventFramesAreEvents(sent: seq<Sent>)
    requires AllEventFrames(sent)
    ensures |EventsIn(sent)| == |sent|
  {
    if sent != [] {
      assert sent[0] in sent;
      EventFramesAreEvents(sent[1..]);
    }
  }

  function EventsRead(replies: seq<Replies.HostReply>): seq<byte> {
    if replies == [] then []
    else (if replies[0].kind == EVENT then [replies[0].address] else []) + EventsRead(replies[1..])
  }

  /** Events go to both transports. */
  predicate EventsGoEverywhere(sent: seq<Sent>) { forall e <- sent :: e.kind == EVENT ==> e.to == NoSource }

  lemma {:induction false} EventsReadAreSent(log: seq<Sent>, transport: Source)
    requires (forall e <- log :: Printable(e)) && EventsGoEverywhere(log)
    ensures EventsRead(ReadingsOf(log, transport)) == EventsIn(log)
  {
    hide Printable;
    if log != [] {
      assert log[0] in log;
      EventsReadAreSent(log[1..], transport);
      var rest := ReadingsOf(log[1..], transport);
      if Routed(log[0], transport) {
        assert ([ReadingOf(log[0])] + rest)[1..] == rest;
      } else {
        assert ReadingsOf(log, transport) == rest;
      }
    }
  }

  function Copies(n: nat, t: int): seq<int> { seq(n, i => t) }

  /** For each periodic event of a pass, the clock reading of the call of update_state that brought it out. */
  function EventTimes(h: Happening): seq<int> {
    if h.Interrupt? then []
    else Copies(|EventsIn(h.ticked)|, h.pass.tick.t) + Copies(|EventsIn(h.events + h.sent)|, h.pass.command.t1)
  }

  function EventTimesIn(hs: seq<Happening>): seq<int>
    decreases |hs|
  {
    if hs == [] then [] else EventTimesIn(hs[..|hs| - 1]) + EventTimes(hs[|hs| - 1])
  }

  lemma {:induction false} OneTimePerEvent(hs: seq<Happening>)
    ensures |EventTimesIn(hs)| == |EventsIn(SentIn(hs))|
    decreases |hs|
  {
    if hs != [] {
      var front, h := hs[..|hs| - 1], hs[|hs| - 1];
      OneTimePerEvent(front);
      if h.Looped? {
        EventsInAppend(SentIn(front), SentBy(h));
        EventsInAppend(h.ticked, h.events + h.sent);
      } else {
        assert SentIn(front) + [] == SentIn(front);
      }
    }
  }

  lemma TickTimesOfPass(c: Core, h: Happening, fixed: FixedRegisters)
    requires FixedOk(fixed) && Sized(c) && Possible(h) && h.Looped? && Explains(c, h, fixed)
    ensures var event := WrappedDeadline.FirmwareStep(c.sched, Scheduler.Tick(h.pass.tick.t, h.pass.tick.host)).event;
            |EventsIn(h.ticked)| == if event.Some? then 1 else 0
  {
    hide Tells;
    hide Ticked;
    hide Answering;
    hide WrappedDeadline.FirmwareStep;
    PassTraffic(c, h, fixed);
    EventFramesAreEvents(h.ticked);
  }

  /** The event of a command, as the scheduler has it. */
  function FrameEmission(s: Scheduler.Sched, frame: seq<byte>, i: CommandInput): seq<int>
    requires Dispatchable(frame)
  {
    EmissionTimes(FrameEvents(frame, i), WrappedDeadline.FirmwareRun(s, FrameEvents(frame, i)).emitted)
  }

  lemma CommandEmission(c: Core, frame: seq<byte>, i: CommandInput)
    requires Dispatchable(frame)
    ensures FrameEmission(c.sched, frame, i) == if CommandEvent(c, frame, i).Some? then [i.t1] else []
  {
    hide WrappedDeadline.Update;
    hide Scheduler.Realign;
    hide Scheduler.NextClockConfig;
    hide WrappedDeadline.FirmwareRun;
    hide EmissionTimes;
    var events := FrameEvents(frame, i);
    if events == [] {
      NoEmission(c.sched);
    } else {
      assert events == [events[0]];
      OneEmission(c.sched, events[0]);
    }
  }

  lemma NoEmission(s: Scheduler.Sched)
    ensures EmissionTimes([], WrappedDeadline.FirmwareRun(s, []).emitted) == []
  {
  }

  lemma CommandTimesOfPass(c: Core, h: Happening, fixed: FixedRegisters)
    requires FixedOk(fixed) && Sized(c) && Possible(h) && h.Looped? && Explains(c, h, fixed)
    ensures var n := |EventsIn(h.events + h.sent)|;
            if h.received == [] then n == 0
            else n == |FrameEmission(Ticked(c, h.pass.tick).sched, h.received[0].delivery.frame, h.pass.command)|
  {
    hide Tells;
    hide Ticked;
    hide Executed;
    hide Answers;
    hide CommandEvent;
    hide FrameEmission;
    PassTraffic(c, h, fixed);
    EventFramesAreEvents(h.events);
    EventsInAppend(h.events, h.sent);
    if h.received != [] {
      RepliesAreNoEvents(h.sent, h.received[0].source);
      CommandEmission(Ticked(c, h.pass.tick), h.received[0].delivery.frame, h.pass.command);
    }
  }

  lemma PassEmits(c: Core, h: Happening, fixed: FixedRegisters)
    requires FixedOk(fixed) && Sized(c) && Possible(h) && Explains(c, h, fixed)
    ensures EventTimes(h) == EmissionTimes(EventsOf(h), WrappedDeadline.FirmwareRun(c.sched, EventsOf(h)).emitted)
  {
    hide Explains;
    hide CommandEvent;
    hide FrameEvents;
    hide EventsIn;
    hide Ticked;
    hide WrappedDeadline.FirmwareStep;
    match h
    case Interrupt(second, at) => PulseEmitsNothing(c.sched, second, at);
    case Looped(received, pass, _, _, _) => {
      var tick := Scheduler.Tick(pass.tick.t, pass.tick.host);
      TickTimesOfPass(c, h, fixed);
      CommandTimesOfPass(c, h, fixed);
      OneEmission(c.sched, tick);
      if received == [] {
        assert [tick] + [] == [tick];
      } else {
        var frame := received[0].delivery.frame;
        var ticked := Ticked(c, pass.tick);
        TickFollowsSchedule(c, pass.tick);
        CommandEmission(ticked, frame, pass.command);
        var more := FrameEvents(frame, pass.command);
        WrappedDeadline.RunAppend(c.sched, [tick], more);
        OneEventRun(c.sched, tick);
        EmissionTimesAppend([tick], WrappedDeadline.FirmwareRun(c.sched, [tick]).emitted,
                            more, WrappedDeadline.FirmwareRun(ticked.sched, more).emitted);
      }
    }
  }

  lemma OneEmission(s: Scheduler.Sched, e: Scheduler.Event)
    ensures EmissionTimes([e], WrappedDeadline.FirmwareRun(s, [e]).emitted)
         == if WrappedDeadline.FirmwareStep(s, e).event.Some? then [TimeOf(e)] else []
  {
    hide WrappedDeadline.FirmwareStep;
    hide TimeOf;
    assert [e][1..] == [];
  }

  lemma PulseEmitsNothing(s: Scheduler.Sched, second: Option<uint32>, at: int)
    ensures var events := if second.Some? then [PulseOf(second.value, at)] else [];
            EmissionTimes(events, WrappedDeadline.FirmwareRun(s, events).emitted) == []
  {
    hide SyncDecoding.PulseTime;
    if second.Some? {
      OneEmission(s, PulseOf(second.value, at));
    }
  }

  /** Over any run, timely or not, the events on the wire are those the scheduler emits, at the same calls. */
  lemma {:induction false} EventsOnTheWire(c: Core, hs: seq<Happening>, fixed: FixedRegisters)
    requires FixedOk(fixed) && Sized(c) && AllPossible(hs) && AllExplained(c, hs, fixed)
    ensures EventTimesIn(hs)
         == EmissionTimes(AllEvents(hs), WrappedDeadline.FirmwareRun(c.sched, AllEvents(hs)).emitted)
    decreases |hs|
  {
    hide Explains;
    hide EventTimes;
    hide EventsOf;
    if hs != [] {
      var front, h := hs[..|hs| - 1], hs[|hs| - 1];
      EventsOnTheWire(c, front, fixed);
      SchedulerInsideTheCore(c, front);
      PassEmits(AfterAll(c, front), h, fixed);
      var before := WrappedDeadline.FirmwareRun(c.sched, AllEvents(front));
      WrappedDeadline.RunAppend(c.sched, AllEvents(front), EventsOf(h));
      EmissionTimesAppend(AllEvents(front), before.emitted,
                          EventsOf(h), WrappedDeadline.FirmwareRun(before.s, EventsOf(h)).emitted);
    }
  }

  lemma EventsGo(c: Core, hs: seq<Happening>, fixed: FixedRegisters)
    requires FixedOk(fixed) && Sized(c) && AllPossible(hs) && AllExplained(c, hs, fixed)
    ensures EventsGoEverywhere(SentIn(hs))
    decreases |hs|
  {
    hide Explains;
    if hs != [] {
      var front, h := hs[..|hs| - 1], hs[|hs| - 1];
      EventsGo(c, front, fixed);
      if h.Looped? {
        PassTraffic(AfterAll(c, front), h, fixed);
      }
    }
  }

  /** The scheduler events of a run keep the device beating, from a deadline that is up to date at `last`. */
  predicate BeatsThroughout(s: Scheduler.Sched, last: int, events: seq<Scheduler.Event>) {
    Scheduler.Ahead(s, last) && Scheduler.AllTimely(s, last, events) && KeepsBeating(s, events)
  }

  /** Over any run the host on either transport reads every periodic event that was sent. */
  lemma HostReadsTheEvents(a: Snapshot, b: Snapshot, hs: seq<Happening>, turns: seq<Turn>, fixed: FixedRegisters,
                           transport: Source)
    requires Leads(a, b, hs, turns, fixed)
    ensures EventsRead(HostReads(Wire(SentIn(hs), transport))) == EventsIn(SentIn(hs))
    ensures forall e <- SentIn(hs) :: Printable(e)
  {
    hide AllExplained;
    hide AfterAll;
    hide AllFit;
    hide ReceiverAfter;
    hide ClockedUpTo;
    hide PollAll;
    hide Wire;
    hide AllEvents;
    hide ReceivedIn;
    forall e | e in SentIn(hs)
      ensures Printable(e)
    {
      assert e in b.log;
    }
    EventsGo(a.core, hs, fixed);
    HostReadsWhatWasSent(SentIn(hs), transport);
    EventsReadAreSent(SentIn(hs), transport);
  }

  lemma OneEventSentPerSecond(c: Core, hs: seq<Happening>, fixed: FixedRegisters, last: int)
    requires FixedOk(fixed) && Sized(c) && AllPossible(hs) && AllExplained(c, hs, fixed)
    requires BeatsThroughout(c.sched, last, AllEvents(hs))
    ensures var times, passes := EventTimesIn(hs), TickTimes(AllEvents(hs));
            && |EventsIn(SentIn(hs))| == |times| == PointsUpTo(c.sched.deadline, LastTime(last, passes))
            && forall k :: 0 <= k < |times| ==>
                 FirstAtOrAfter(passes, c.sched.deadline + k * Scheduler.SECOND) == Some(times[k])
  {
    hide AllExplained;
    hide KeepsBeating;
    hide Scheduler.AllTimely;
    hide Scheduler.Ahead;
    hide PointsUpTo;
    hide FirstAtOrAfter;
    hide LastTime;
    hide TickTimes;
    hide EventsIn;
    hide EventTimesIn;
    hide EmissionTimes;
    hide AllEvents;
    hide SentIn;
    hide WrappedDeadline.FirmwareRun;
    OneTimePerEvent(hs);
    EventsOnTheWire(c, hs, fixed);
    FirmwareBeatsOncePerSecond(c.sched, last, AllEvents(hs));
  }

  /**
   * In any timely run that starts and stays ACTIVE, unmuted and enabled, whatever commands and sync
   * packets come in, the host on either transport reads one event for each one-second point D, D + 1 s,
   * ... up to the last pass, sent in the first pass at or after its point.
   */
  lemma HostReadsOneEventPerSecond(a: Snapshot, b: Snapshot, hs: seq<Happening>, turns: seq<Turn>,
                                   fixed: FixedRegisters, transport: Source, last: int)
    requires Leads(a, b, hs, turns, fixed)
    requires BeatsThroughout(a.core.sched, last, AllEvents(hs))
    ensures var read := EventsRead(HostReads(Wire(SentIn(hs), transport)));
            var times, passes, deadline := EventTimesIn(hs), TickTimes(AllEvents(hs)), a.core.sched.deadline;
            && |read| == |times| == PointsUpTo(deadline, LastTime(last, passes))
            && forall k :: 0 <= k < |times| ==>
                 FirstAtOrAfter(passes, deadline + k * Scheduler.SECOND) == Some(times[k])
  {
    hide AllFit;
    hide AllExplained;
    hide AfterAll;
    hide ReceiverAfter;
    hide ClockedUpTo;
    hide PollAll;
    hide Wire;
    hide BeatsThroughout;
    hide PointsUpTo;
    hide FirstAtOrAfter;
    hide LastTime;
    hide TickTimes;
    hide EventsIn;
    hide EventTimesIn;
    hide AllEvents;
    hide SentIn;
    hide ReceivedIn;
    HostReadsTheEvents(a, b, hs, turns, fixed, transport);
    OneEventSentPerSecond(a.core, hs, fixed, last);
  }
}
