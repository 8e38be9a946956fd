/** What the device says about NET_PASSWORD: which replies are masked, and which disclose the register. */
module PasswordReplies {
  import opened Basics
  import opened HarpMessage
  import opened CoreRegisters
  import opened Framing
  import opened Commands
  import opened CoreState
  import opened CoreRuns
  import opened TaskRuns
  import Scheduler
  import WrappedDeadline
  import NetworkSettings
  import BootedRuns
  import Replies

  const BLANK := NetworkSettings.Zeros(PASSWORD_LENGTH)

  predicate IsRead(frame: seq<byte>)
    requires Dispatchable(frame)
  {
    frame[0] == READ && WellTyped(frame)
  }

  /** A frame about the password is blank exactly as it should be: masked, or about a blank register. */
  predicate ShowsPassword(e: Sent, masked: bool, password: seq<byte>) {
    e.address == NET_PASSWORD ==> e.payload == if masked then BLANK else password
  }

  lemma TellsPassword(e: Sent, fixed: FixedRegisters, c: Core, reading: bool)
    requires FixedOk(fixed) && Tells(e, fixed, c, reading)
    ensures ShowsPassword(e, reading && e.kind == READ, c.net.password)
  {
  }

  /** One message: every reply about the password carries the register, but for a well-typed READ, which is masked. */
  lemma ReplyShowsPassword(c: Core, after: Core, frame: seq<byte>, i: CommandInput, events: seq<Sent>, sent: seq<Sent>,
                           to: Source, fixed: FixedRegisters, e: Sent)
    requires FixedOk(fixed) && Sized(c) && Dispatchable(frame) && Obeyed(c, after, frame, i, events, sent, to, fixed)
    requires e in events + sent
    ensures ShowsPassword(e, IsRead(frame), after.net.password)
  {
    hide Executed;
    hide Tells;
    hide Accepts;
    hide OpCtrlAnswers;
    if e in events {
      var k :| 0 <= k < |events| && events[k] == e;
      TellsPassword(e, fixed, after, false);
      assert e.kind == EVENT;
      CommandEventRegister(c, frame, i);
    } else {
      var k :| 0 <= k < |sent| && sent[k] == e;
      TellsPassword(e, fixed, after, frame[0] == READ);
      var heads := Answers(frame, to, Scheduler.Muted(c.sched), Scheduler.Unlocked(c.sched));
      assert HeadOf(e) == heads[k];
    }
  }

  lemma CommandEventRegister(c: Core, frame: seq<byte>, i: CommandInput)
    requires Dispatchable(frame)
    ensures var event := CommandEvent(c, frame, i); event.Some? ==> event.value != NET_PASSWORD
  {
    hide WrappedDeadline.FirmwareStep;
    if frame[0] == WRITE && WellTyped(frame) && frame[2] == OPERATION_CTRL {
      WrappedDeadline.EventRegisters(c.sched, Scheduler.WriteOpCtrl(i.t1, i.host, Payload(frame)[0] as bv8));
    }
  }

  /** A reply about the password is all zeros if and only if it answers a well-typed READ or the register is blank. */
  lemma MaskedIff(c: Core, after: Core, frame: seq<byte>, i: CommandInput, events: seq<Sent>, sent: seq<Sent>,
                  to: Source, fixed: FixedRegisters, e: Sent)
    requires FixedOk(fixed) && Sized(c) && Dispatchable(frame) && Obeyed(c, after, frame, i, events, sent, to, fixed)
    requires e in events + sent && e.address == NET_PASSWORD
    ensures e.payload == BLANK <==> IsRead(frame) || after.net.password == BLANK
  {
    hide Obeyed;
    ReplyShowsPassword(c, after, frame, i, events, sent, to, fixed, e);
  }

  // ---------------------------------------------------------------------------------------------
  // The four replies that disclose it
  // ---------------------------------------------------------------------------------------------

  /** The only reply to a command, and what it carries. */
  predicate Discloses(sent: seq<Sent>, kind: byte, password: seq<byte>) {
    |sent| == 1 && sent[0].kind == kind && sent[0].address == NET_PASSWORD && sent[0].payload == password
  }

  /** A READ of the register as U16 instead of U8 is answered with an error that carries the password. */
  lemma MistypedReadDiscloses(c: Core, after: Core, i: CommandInput, events: seq<Sent>, sent: seq<Sent>, to: Source,
                              fixed: FixedRegisters)
    requires FixedOk(fixed) && Sized(c) && !Scheduler.Muted(c.sched)
    requires Dispatchable(Replies.BuildCommand(READ, NET_PASSWORD, U16, []))
    requires Obeyed(c, after, Replies.BuildCommand(READ, NET_PASSWORD, U16, []), i, events, sent, to, fixed)
    ensures Discloses(sent, READ_ERROR, c.net.password)
  {
    hide Replies.BuildCommand;
    var frame := Replies.BuildCommand(READ, NET_PASSWORD, U16, []);
    Replies.CommandShape(READ, NET_PASSWORD, U16, []);
    assert HeadOf(sent[0]) == Head(READ_ERROR, NET_PASSWORD, to);
    ReplyShowsPassword(c, after, frame, i, events, sent, to, fixed, sent[0]);
  }

  /** So is a WRITE of the wrong length. */
  lemma ShortWriteDiscloses(c: Core, after: Core, payload: seq<byte>, i: CommandInput, events: seq<Sent>,
                            sent: seq<Sent>, to: Source, fixed: FixedRegisters)
    requires FixedOk(fixed) && Sized(c) && !Scheduler.Muted(c.sched)
    requires |payload| <= 249 && |payload| != PASSWORD_LENGTH
    requires Dispatchable(Replies.BuildWrite(NET_PASSWORD, U8, payload))
    requires Obeyed(c, after, Replies.BuildWrite(NET_PASSWORD, U8, payload), i, events, sent, to, fixed)
    ensures Discloses(sent, WRITE_ERROR, c.net.password)
  {
    hide Replies.BuildCommand;
    var frame := Replies.BuildWrite(NET_PASSWORD, U8, payload);
    Replies.CommandShape(WRITE, NET_PASSWORD, U8, payload);
    assert HeadOf(sent[0]) == Head(WRITE_ERROR, NET_PASSWORD, to);
    ReplyShowsPassword(c, after, frame, i, events, sent, to, fixed, sent[0]);
  }

  /** The acknowledgement of a WRITE repeats what was written. */
  lemma AcknowledgementDiscloses(c: Core, after: Core, payload: seq<byte>, i: CommandInput, events: seq<Sent>,
                                 sent: seq<Sent>, to: Source, fixed: FixedRegisters)
    requires FixedOk(fixed) && Sized(c) && !Scheduler.Muted(c.sched) && |payload| == PASSWORD_LENGTH
    requires Dispatchable(Replies.BuildWrite(NET_PASSWORD, U8, payload))
    requires Obeyed(c, after, Replies.BuildWrite(NET_PASSWORD, U8, payload), i, events, sent, to, fixed)
    ensures Discloses(sent, WRITE, NetworkSettings.Terminate(payload))
  {
    hide Replies.BuildCommand;
    var frame := Replies.BuildWrite(NET_PASSWORD, U8, payload);
    HostWriteIsUnderstood(NET_PASSWORD, payload);
    assert after.net.password == NetworkSettings.Terminate(payload);
    assert HeadOf(sent[0]) == Head(WRITE, NET_PASSWORD, to);
    ReplyShowsPassword(c, after, frame, i, events, sent, to, fixed, sent[0]);
  }

  /** The twenty-second frame of the dump, after the acknowledgement of the command, carries the password. */
  lemma DumpDiscloses(c: Core, after: Core, value: bv8, i: CommandInput, events: seq<Sent>, sent: seq<Sent>, to: Source,
                      fixed: FixedRegisters)
    requires FixedOk(fixed) && Sized(c) && Scheduler.Mode(value) != Scheduler.SPEED
    requires Has(value, Scheduler.DUMP) && !Has(value, Scheduler.MUTE_RPL)
    requires Dispatchable(Replies.BuildWrite(OPERATION_CTRL, U8, [value as byte]))
    requires Obeyed(c, after, Replies.BuildWrite(OPERATION_CTRL, U8, [value as byte]), i, events, sent, to, fixed)
    ensures |sent| == 26 && sent[22].kind == READ && sent[22].address == NET_PASSWORD
    ensures sent[22].payload == c.net.password
  {
    hide Replies.BuildCommand;
    hide Answers;
    hide Executed;
    hide CommandEvent;
    hide Announced;
    hide WellTyped;
    var frame := Replies.BuildWrite(OPERATION_CTRL, U8, [value as byte]);
    DumpCommand(value, to, Scheduler.Muted(c.sched), Scheduler.Unlocked(c.sched));
    OpCtrlKeepsPassword(c, frame, i);
    assert HeadOf(sent[22]) == Head(READ, NET_PASSWORD, to);
    ReplyShowsPassword(c, after, frame, i, events, sent, to, fixed, sent[22]);
  }

  lemma DumpCommand(value: bv8, to: Source, muted: bool, unlocked: bool)
    requires Scheduler.Mode(value) != Scheduler.SPEED && Has(value, Scheduler.DUMP) && !Has(value, Scheduler.MUTE_RPL)
    ensures var f := Replies.BuildWrite(OPERATION_CTRL, U8, [value as byte]);
            && Dispatchable(f) && f[0] == WRITE && f[2] == OPERATION_CTRL
            && |Answers(f, to, muted, unlocked)| == 26
            && Answers(f, to, muted, unlocked)[22] == Head(READ, NET_PASSWORD, to)
  {
    hide Replies.BuildCommand;
    hide Has;
    hide Scheduler.Mode;
    var frame := Replies.BuildWrite(OPERATION_CTRL, U8, [value as byte]);
    HostWriteIsUnderstood(OPERATION_CTRL, [value as byte]);
    SameBits(value);
    DumpAnswer(frame, to, muted, unlocked);
    assert Dump(to)[21] == Head(READ, NET_PASSWORD, to);
  }

  lemma OpCtrlKeepsPassword(c: Core, frame: seq<byte>, i: CommandInput)
    requires Sized(c) && Dispatchable(frame) && frame[2] == OPERATION_CTRL
    ensures Executed(c, frame, i).net == c.net
  {
    hide Scheduler.Mode;
    hide WrappedDeadline.Entered;
    hide WrappedDeadline.Check;
  }

  // ---------------------------------------------------------------------------------------------
  // Over runs
  // ---------------------------------------------------------------------------------------------

  /**
   * The password that a history leaves in the register: the last one written, unless an APPLY has
   * consumed it since.
   */
  function Unconsumed(password: seq<byte>, cs: seq<NetworkSettings.Change>): seq<byte> {
    if cs == [] then password
    else
      match cs[|cs| - 1]
      case SetPassword(bytes) => NetworkSettings.Terminate(bytes)
      case SetConfig(value, _, _) =>
        if Has(value, NetworkSettings.APPLY) && Has(value, NetworkSettings.ENABLE_WIFI) then BLANK
        else Unconsumed(password, cs[..|cs| - 1])
      case _ => Unconsumed(password, cs[..|cs| - 1])
  }

  lemma ChangedPassword(s: NetworkSettings.Settings, c: NetworkSettings.Change)
    requires |s.port| == 2 && NetworkSettings.Legal(c) && !c.Reboot?
    ensures NetworkSettings.Change1(s, c).password == Unconsumed(s.password, [c])
  {
    assert [c][..0] == [];
    if c.SetConfig? {
      NetworkSettings.EnableBits(c.value);
    }
  }

  lemma {:induction false} PasswordIsUnconsumed(c: Core, hs: seq<Happening>)
    requires Sized(c) && AllPossible(hs)
    ensures AfterAll(c, hs).net.password == Unconsumed(c.net.password, AllChanges(hs))
    decreases |hs|
  {
    hide After;
    hide NetworkSettings.Change1;
    hide WriteChanges;
    if hs != [] {
      var front, h := hs[..|hs| - 1], hs[|hs| - 1];
      var before, cs := AllChanges(front), ChangesOf(h);
      PasswordIsUnconsumed(c, front);
      PassFollowsSettings(AfterAll(c, front), h);
      if cs == [] {
        assert before + cs == before;
      } else {
        NoReboots(h);
        assert cs == [cs[0]] && (before + cs)[..|before + cs| - 1] == before;
        ChangedPassword(AfterAll(c, front).net, cs[0]);
        assert [cs[0]][..0] == [];
      }
    }
  }

  lemma NoReboots(h: Happening)
    requires Possible(h)
    ensures forall c <- ChangesOf(h) :: !c.Reboot?
  {
  }

  /** The pass answers a well-typed READ. */
  predicate ServesRead(h: Happening)
    requires Possible(h)
  {
    h.Looped? && h.received != [] && IsRead(h.received[0].delivery.frame)
  }

  lemma PassShowsPassword(c: Core, h: Happening, fixed: FixedRegisters, e: Sent)
    requires FixedOk(fixed) && Sized(c) && Possible(h) && h.Looped? && Explains(c, h, fixed) && e in SentBy(h)
    ensures ShowsPassword(e, ServesRead(h), After(c, h).net.password)
  {
    hide Tells;
    hide Ticked;
    hide Obeyed;
    hide IsRead;
    hide After;
    if e in h.ticked {
      assert e in h.ticked;
      TickShowsNoPassword(c, h, fixed, e);
    } else if h.received != [] {
      assert e in h.events + h.sent;
      ReplyShowsPassword(Ticked(c, h.pass.tick), After(c, h), h.received[0].delivery.frame, h.pass.command,
                         h.events, h.sent, h.received[0].source, fixed, e);
    }
  }

  lemma TickShowsNoPassword(c: Core, h: Happening, fixed: FixedRegisters, e: Sent)
    requires FixedOk(fixed) && Sized(c) && Possible(h) && h.Looped? && Explains(c, h, fixed) && e in h.ticked
    ensures e.address != NET_PASSWORD
  {
    hide Tells;
    hide Ticked;
    hide WrappedDeadline.FirmwareStep;
    WrappedDeadline.EventRegisters(c.sched, Scheduler.Tick(h.pass.tick.t, h.pass.tick.host));
    var k :| 0 <= k < |h.ticked| && h.ticked[k] == e;
    assert HeadOf(e).address == e.address;
  }

  /**
   * In every run, a frame about the password is all zeros if and only if its pass serves a well-typed
   * READ, or no password written since the start is left unconsumed after it.
   */
  lemma MaskedInARunIff(a: Snapshot, b: Snapshot, hs: seq<Happening>, turns: seq<Turn>, fixed: FixedRegisters,
                        k: nat, e: Sent)
    requires Leads(a, b, hs, turns, fixed) && k < |hs| && hs[k].Looped?
    requires e in SentBy(hs[k]) && e.address == NET_PASSWORD
    ensures AllPossible(hs[..k + 1]) && Possible(hs[k])
    ensures e.payload == BLANK <==>
              ServesRead(hs[k]) || Unconsumed(a.core.net.password, AllChanges(hs[..k + 1])) == BLANK
  {
    hide AllFit;
    hide ReceiverAfter;
    hide PollAll;
    hide ClockedUpTo;
    hide Explains;
    hide SentBy;
    hide ServesRead;
    hide AllChanges;
    EachIsExplained(a.core, hs, fixed, k);
    NextState(a.core, hs, k);
    PassShowsPassword(AfterAll(a.core, hs[..k]), hs[k], fixed, e);
    PasswordIsUnconsumed(a.core, hs[..k + 1]);
  }

  predicate NoPasswordWritten(cs: seq<NetworkSettings.Change>) { forall c <- cs :: !c.SetPassword? }

  lemma {:induction false} BlankStaysBlank(cs: seq<NetworkSettings.Change>)
    requires NoPasswordWritten(cs)
    ensures Unconsumed(BLANK, cs) == BLANK
    decreases |cs|
  {
    if cs != [] {
      assert cs[|cs| - 1] in cs;
      BlankStaysBlank(cs[..|cs| - 1]);
    }
  }

  /** From a blank register on, until a password is written, no frame about it shows anything but zeros. */
  lemma {:induction false} BlankUntilWritten(c: Core, hs: seq<Happening>, fixed: FixedRegisters)
    requires FixedOk(fixed) && Sized(c) && AllPossible(hs) && AllExplained(c, hs, fixed)
    requires c.net.password == BLANK && NoPasswordWritten(AllChanges(hs))
    ensures forall e <- SentIn(hs) :: e.address == NET_PASSWORD ==> e.payload == BLANK
    decreases |hs|
  {
    hide After;
    hide Explains;
    hide SentBy;
    hide ChangesOf;
    hide ServesRead;
    if hs != [] {
      var front, h := hs[..|hs| - 1], hs[|hs| - 1];
      BlankUntilWritten(c, front, fixed);
      PasswordIsUnconsumed(c, hs);
      BlankStaysBlank(AllChanges(hs));
      if h.Looped? {
        forall e | e in SentBy(h) && e.address == NET_PASSWORD
          ensures e.payload == BLANK
        {
          PassShowsPassword(AfterAll(c, front), h, fixed, e);
        }
      }
    }
  }

  /** An accepted APPLY with Wi-Fi enabled blanks the register. */
  lemma ApplyBlanks(c: Core, frame: seq<byte>, i: CommandInput)
    requires Sized(c) && Dispatchable(frame) && frame[2] == NET_CONFIG && Accepted(frame, Scheduler.Unlocked(c.sched))
    requires var value := Payload(frame)[0] as bv8;
             Has(value, NetworkSettings.APPLY) && Has(value, NetworkSettings.ENABLE_WIFI)
    ensures Executed(c, frame, i).net.password == BLANK
  {
    NetworkSettings.EnableBits(Payload(frame)[0] as bv8);
  }

  /** So does power-on; from then on, until a password is written, only zeros are shown. */
  lemma BlankSincePowerOn(p: BootedRuns.PowerOn, now: int, b: Snapshot, hs: seq<Happening>, turns: seq<Turn>,
                          fixed: FixedRegisters)
    requires BootedRuns.Plausible(p) && Leads(BootedRuns.Started(p, now), b, hs, turns, fixed)
    requires NoPasswordWritten(AllChanges(hs))
    ensures forall e <- SentIn(hs) :: e.address == NET_PASSWORD ==> e.payload == BLANK
  {
    hide AllFit;
    hide ReceiverAfter;
    hide PollAll;
    hide ClockedUpTo;
    hide AllExplained;
    hide AfterAll;
    StartsBlank(p, now);
    BlankUntilWritten(BootedRuns.Started(p, now).core, hs, fixed);
  }

  lemma StartsBlank(p: BootedRuns.PowerOn, now: int)
    requires BootedRuns.Plausible(p)
    ensures BootedRuns.Started(p, now).core.net.password == BLANK
  {
    hide Scheduler.Boot;
    if p.stored.Some? && p.loaded {
      NetworkSettings.BootRestoresProfile(p.stored.value, p.saved);
    }
  }
}
