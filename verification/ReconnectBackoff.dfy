/** How far apart consecutive connection attempts are. */
module ReconnectBackoff {
  import opened Basics
  import opened NetworkProtocol

  lemma {:induction false} Pow2Grows(a: nat, b: nat)
    requires a <= b
    ensures Pow2(a) <= Pow2(b)
    decreases b
  {
    if a < b {
      Pow2Grows(a, b - 1);
    }
  }

  /** The cap on the shift never shows: the delay is 500 ms doubled per attempt, up to 8 s. */
  lemma DelayIsCappedDoubling(n: nat)
    ensures ReconnectDelayMs(n) == Min(500 * Pow2(n), 8000)
  {
    if n > 8 {
      Pow2Grows(4, n);
      Pow2Grows(4, 8);
      assert Pow2(4) == 16;
    }
  }

  lemma DelayGrows(a: nat, b: nat)
    requires a <= b
    ensures ReconnectDelayMs(a) <= ReconnectDelayMs(b) <= 8000
  {
    Pow2Grows(Min(a, 8), Min(b, 8));
  }

  /** The wait scheduled by n consecutive failures from a cleared policy. */
  function TotalDelayMs(n: nat): nat {
    if n == 0 then 0 else TotalDelayMs(n - 1) + ReconnectDelayMs(n - 1)
  }

  lemma {:induction false} TotalDelayClosedForm(n: nat)
    ensures TotalDelayMs(n) == if n <= 4 then 500 * (Pow2(n) - 1) else 7500 + 8000 * (n - 4)
  {
    if n > 0 {
      TotalDelayClosedForm(n - 1);
      DelayIsCappedDoubling(n - 1);
      assert Pow2(4) == 16;
      if n <= 4 {
        Pow2Grows(n - 1, 3);
      } else {
        Pow2Grows(4, n - 1);
      }
    }
  }

  /** A wait that runs its full length ends at or after its deadline, less than a tick late; a past one is no wait. */
  lemma WaitReachesDeadline(now: int, due: int)
    requires due - now < TWO_32 * 1000 - 999
    ensures due <= WaitEnd(now, due)
    ensures now < due ==> WaitEnd(now, due) < due + 1000
    ensures due <= now ==> WaitEnd(now, due) == now
  {
  }

  predicate Wanted(f: Flags) { f.reconnectEnabled && f.cfgTcp && f.wifiConnected && f.cmd.APPLY? }

  /** The core task has no reconnect deadline of a failed transfer still to store, and will not get one. */
  predicate NothingToStore(core: CorePc) {
    || core.CoreIdle? || core.IoLoad?
    || (core.CoreSchedule? && (core.at.StorePending? || core.at.Wake? || core.at.Scheduled?))
  }

  /**
   * A reconnect is wanted and possible, and neither the core task nor the event loop is in the
   * middle of dropping a connection.
   */
  predicate Retrying(s: Net) {
    && Wanted(s.flags)
    && s.sockets.cell.None?
    && NothingToStore(s.core)
    && (s.event.EventIdle? || s.event.GotWifi? || s.event.GotWake?)
  }

  /** No Wi-Fi loss, apply or disconnect, and no attempt succeeds; time, transfers and notifications are free. */
  predicate StillFailing(s: Net, l: Label) {
    match l
    case StartApply(_, _, _) => false
    case StartDisconnect => false
    case WifiLost => false
    case NetStep(ok) => !s.net.Publish? && (s.net.Connect? ==> !ok)
    case _ => true
  }

  /** All along the run, with a 32-bit attempt counter that has not wrapped. */
  predicate KeepsFailing(s: Net, labels: seq<Label>)
    decreases |labels|
  {
    labels == [] ||
    (s.flags.attempts < TWO_32 - 1 && StillFailing(s, labels[0]) && KeepsFailing(Step(s, labels[0]), labels[1..]))
  }

  /** The failed attempt is not counted yet. */
  predicate Uncounted(pc: NetPc) {
    pc.NetSchedule? && (pc.at.AskEnabled? || pc.at.AskTcp? || pc.at.AskWifi? || pc.at.AskCmd? || pc.at.CountAttempt?)
  }

  /** Everywhere from the raised pending flag to the check of the deadline. */
  predicate Guarded(pc: NetPc) {
    || (pc.NetSchedule? && (pc.at.Wake? || pc.at.Scheduled?))
    || pc.LoopTop? || pc.LoopDue? || pc.WaitForever? || pc.WaitUntil? || pc.Woken?
    || pc.AskLink? || pc.GatePending? || pc.GateClock? || pc.GateDue?
  }

  /** Past the check of the deadline, up to the start of the attempt. */
  predicate Passed(pc: NetPc) { pc.OldExchange? || pc.OldClose? || pc.OldMark? || pc.OpenSocket? }

  /** The deadline guards the next attempt from the failure on; earliest is when it may start. */
  predicate Backed(f: Flags, net: NetPc, now: int, failures: nat, earliest: int) {
    failures > 0 ==>
      && (net.NetSchedule? || Guarded(net) || Passed(net) || net.Connect? || net.GiveUp?)
      && f.attempts >= (if Uncounted(net) then failures - 1 else failures)
      && (net.NetSchedule? && net.at.ReadClock? ==> net.at.idx >= failures - 1)
      && (net.NetSchedule? && net.at.StoreDue? ==> net.at.due >= earliest)
      && (net.NetSchedule? && net.at.StorePending? ==> f.due >= earliest)
      && (Guarded(net) ==> f.due >= earliest && f.pending)
      && (net.GateDue? ==> net.clock <= now)
      && (Passed(net) ==> now >= earliest)
  }

  function Earliest(s: Net): int {
    if s.failures == 0 then s.lastFailure else s.lastFailure + ReconnectDelayMs(s.failures - 1) * 1000
  }

  predicate BackedOff(s: Net) {
    s.lastFailure <= s.now && Backed(s.flags, s.net, s.now, s.failures, Earliest(s))
  }

  lemma ScheduleBacks(f: Flags, now: int, p: SchedulePc, lastFailure: int, failures: nat)
    requires Wanted(f)
    requires lastFailure <= now && failures > 0 && f.attempts < TWO_32 - 1
    requires Backed(f, NetSchedule(p), now, failures, lastFailure + ReconnectDelayMs(failures - 1) * 1000)
    ensures var earliest := lastFailure + ReconnectDelayMs(failures - 1) * 1000;
            var next := if p.Scheduled? then LoopTop else NetSchedule(ScheduleNext(f, now, p));
            Backed(ScheduleFlag(f, p), next, now, failures, earliest)
  {
    match p
    case AskEnabled =>
    case AskTcp =>
    case AskWifi =>
    case AskCmd =>
    case CountAttempt =>
    case ReadClock(idx) => DelayGrows(failures - 1, idx);
    case StoreDue(_) =>
    case StorePending =>
    case Wake =>
    case Scheduled =>
  }

  lemma NetBacks(f: Flags, now: int, net: NetPc, ok: bool, failures: nat, earliest: int)
    requires Wanted(f) && failures > 0 && Backed(f, net, now, failures, earliest)
    requires !net.NetSchedule? && !Fails(net, ok) && (net.Connect? ==> !ok)
    ensures var m := NetMoves(f, now, net, ok); Backed(m.flags, m.next, now, failures, earliest)
  {
    match net
    case LoopTop =>
    case LoopDue(_) =>
    case WaitForever =>
    case WaitUntil(_) =>
    case Woken =>
    case AskLink =>
    case GatePending =>
    case GateClock =>
    case GateDue(_) =>
    case OldExchange =>
    case OldClose =>
    case OldMark =>
    case OpenSocket =>
    case Connect =>
  }

  lemma NetKeepsWanting(f: Flags, now: int, net: NetPc, ok: bool)
    requires Wanted(f)
    ensures var m := NetMoves(f, now, net, ok);
            && Wanted(m.flags)
            && m.flags.attempts <= f.attempts + 1
            && (m.op.NetPublishes? ==> net.Publish?)
            && (Fails(net, ok) ==> m.next == NetSchedule(AskEnabled) && m.flags == f)
  {
    match net
    case NetSchedule(p) => ScheduleKeepsWanting(f, p);
    case DropClear(p) => ClearKeepsWanting(f, p);
    case UpClear(p) => ClearKeepsWanting(f, p);
    case OpenSocket =>
    case GiveUp =>
    case Publish =>
    case WaitForever =>
    case WaitUntil(_) =>
    case DropMark =>
    case OldMark =>
    case MarkUp =>
    case _ =>
  }

  lemma ScheduleKeepsWanting(f: Flags, p: SchedulePc)
    requires Wanted(f)
    ensures Wanted(ScheduleFlag(f, p)) && ScheduleFlag(f, p).attempts <= f.attempts + 1
  {
  }

  lemma ClearKeepsWanting(f: Flags, p: ClearPc)
    requires Wanted(f)
    ensures Wanted(ClearFlag(f, p)) && ClearFlag(f, p).attempts <= f.attempts
  {
  }

  lemma NetStepKeepsRetrying(s: Net, ok: bool)
    requires Retrying(s) && !s.net.Publish?
    ensures Retrying(StepNet(s, ok)) && StepNet(s, ok).flags.attempts <= s.flags.attempts + 1
  {
    NetKeepsWanting(s.flags, s.now, s.net, ok);
    CellStaysEmpty(s.sockets, NetMoves(s.flags, s.now, s.net, ok).op);
  }

  lemma CellStaysEmpty(k: Sockets, op: SocketOp)
    requires k.cell.None? && !op.NetPublishes?
    ensures Apply(k, op).cell.None?
  {
  }

  lemma NetMoveBacks(f: Flags, now: int, net: NetPc, ok: bool, failures: nat, lastFailure: int)
    requires Wanted(f) && lastFailure <= now && failures > 0 && f.attempts < TWO_32 - 1
    requires Backed(f, net, now, failures, lastFailure + ReconnectDelayMs(failures - 1) * 1000)
    requires !Fails(net, ok) && (net.Connect? ==> !ok)
    ensures var m := NetMoves(f, now, net, ok);
            Backed(m.flags, m.next, now, failures, lastFailure + ReconnectDelayMs(failures - 1) * 1000)
  {
    var earliest := lastFailure + ReconnectDelayMs(failures - 1) * 1000;
    if net.NetSchedule? {
      ScheduleBacks(f, now, net.at, lastFailure, failures);
    } else {
      NetBacks(f, now, net, ok, failures, earliest);
    }
  }

  lemma NetStepBacks(s: Net, ok: bool)
    requires Retrying(s) && BackedOff(s) && StillFailing(s, NetStep(ok)) && s.flags.attempts < TWO_32 - 1
    ensures BackedOff(StepNet(s, ok))
  {
    if Fails(s.net, ok) {
      NetKeepsWanting(s.flags, s.now, s.net, ok);
    } else if s.failures > 0 {
      NetMoveBacks(s.flags, s.now, s.net, ok, s.failures, s.lastFailure);
    }
  }

  lemma CoreStepBacks(s: Net, ok: bool)
    requires Retrying(s) && BackedOff(s)
    ensures BackedOff(StepCore(s, ok)) && Retrying(StepCore(s, ok))
    ensures StepCore(s, ok).flags.attempts == s.flags.attempts
  {
  }

  lemma StepBacks(s: Net, l: Label)
    requires Retrying(s) && BackedOff(s) && StillFailing(s, l) && s.flags.attempts < TWO_32 - 1
    ensures BackedOff(Step(s, l)) && Retrying(Step(s, l))
    ensures Step(s, l).flags.attempts <= s.flags.attempts + 1
  {
    match l
    case NetStep(ok) => {
      NetStepKeepsRetrying(s, ok);
      NetStepBacks(s, ok);
    }
    case Elapse(_) =>
    case StartIo =>
    case CoreStep(ok) => CoreStepBacks(s, ok);
    case GotIp =>
    case EventStep =>
  }

  lemma {:induction false} RunStaysBackedOff(s: Net, labels: seq<Label>)
    requires Retrying(s) && BackedOff(s) && KeepsFailing(s, labels)
    ensures BackedOff(Run(s, labels))
    decreases |labels|
  {
    if labels != [] {
      StepBacks(s, labels[0]);
      RunStaysBackedOff(Step(s, labels[0]), labels[1..]);
    }
  }

  /**
   * While attempts keep failing, and nothing but failures, time and notifications happens, the
   * attempt after the k-th consecutive failure starts at least min(500 * 2^(k-1), 8000) ms after it.
   */
  lemma AttemptsAreSpaced(s: Net, labels: seq<Label>)
    requires Retrying(s) && BackedOff(s) && KeepsFailing(s, labels)
    ensures var end := Run(s, labels);
            end.net.OpenSocket? && end.failures > 0 ==>
              end.now >= end.lastFailure + Min(500 * Pow2(end.failures - 1), 8000) * 1000
  {
    RunStaysBackedOff(s, labels);
    var end := Run(s, labels);
    if end.failures > 0 {
      DelayIsCappedDoubling(end.failures - 1);
    }
  }
}
