/**
 * The command path gets on: at rest no flag is left over that would keep a writer waiting, what
 * becomes of a writer is a matter of a few bits, and the status of a command is what the next
 * write returns.
 */
module WdmProgress {
  import opened Options
  import opened WdmCommand

  // ----- what is left over -----

  /** A writer has set WDM_IN_USE and neither handed the URB over nor cleared it. */
  predicate Using(writer: Writer) {
    writer.SetOutbuf? || writer.SubmitUrb? || writer.FailOutbuf? || writer.FailInUse?
  }

  /** A writer has set desc->outbuf and neither handed the URB over nor cleared it. */
  predicate Carrying(writer: Writer) {
    writer.SubmitUrb? || writer.FailOutbuf?
  }

  /** The writer that holds wlock is at such a place. */
  ghost predicate Holder(s: Sys, p: Writer -> bool) {
    s.c.wlock.ByWriter? && s.c.wlock.w in s.writers && p(s.writers[s.c.wlock.w])
  }

  /** A disconnect is going on. */
  predicate InDisconnect(q: Quiesce) {
    (q.Locking? || q.Poisoning? || q.Killing? || q.Quiet?) && !q.reset
  }

  /** Every flag has somebody who will clear it. */
  ghost predicate RestInv(s: Sys) {
    && (s.c.resetting ==> InReset(s.c.quiesce))
    && (InDisconnect(s.c.quiesce) ==> s.c.disconnecting)
    && (s.c.poisoned ==> s.c.disconnecting || s.c.quiesce.Killing? || s.c.quiesce.Quiet?)
    && (s.c.inUse ==> s.c.Busy() || Holder(s, Using))
    && (s.c.outbuf.Some? ==> s.c.Busy() || Holder(s, Carrying))
    && (s.c.callback.ClearInUse? ==> s.c.outbuf.None?)
    && (s.c.wlock.ByWriter? ==> Holder(s, HoldsLock))
  }

  lemma EnterRest(s: Sys, w: nat, interrupted: bool)
    requires RestInv(s) && w in s.writers && WriterInv(s.c, w, s.writers[w]) && Enters(s.writers[w])
    ensures var (c, writer) := EnterStep(s.c, w, s.writers[w], interrupted);
            RestInv(s.(c := c, writers := s.writers[w := writer]))
  {
  }

  lemma SendRest(s: Sys, w: nat, rv: int)
    requires RestInv(s) && w in s.writers && WriterInv(s.c, w, s.writers[w])
    requires !Enters(s.writers[w]) && !s.writers[w].FreeBuf? && !s.writers[w].UnlockDone?
    ensures var (c, writer) := SendStep(s.c, w, s.writers[w], rv);
            RestInv(s.(c := c, writers := s.writers[w := writer]))
  {
  }

  lemma WriterRest(s: Sys, w: nat, interrupted: bool, rv: int)
    requires SafeInv(s) && RestInv(s) && w in s.writers
    ensures RestInv(WriterStep(s, w, interrupted, rv))
  {
    assert WriterInv(s.c, w, s.writers[w]);
    hide SafeInv, EnterStep, SendStep;
    if s.writers[w].FreeBuf? || s.writers[w].UnlockDone? {
    } else if Enters(s.writers[w]) {
      EnterRest(s, w, interrupted);
    } else {
      SendRest(s, w, rv);
    }
  }

  lemma WriteRest(s: Sys, dupFails: bool, nonblock: bool)
    requires SafeInv(s) && RestInv(s)
    ensures RestInv(WriteStep(s, dupFails, nonblock))
  {
    if s.c.wlock.ByWriter? {
      assert WriterInv(s.c, s.c.wlock.w, s.writers[s.c.wlock.w]) && s.c.wlock.w < s.next;
    }
  }

  lemma SharedRest(s: Sys, step: Step)
    requires SafeInv(s) && RestInv(s)
    ensures RestInv(s.(c := SharedStep(s.c, step)))
  {
    hide WriterInv;
  }

  lemma StepRest(s: Sys, step: Step)
    requires SafeInv(s) && RestInv(s)
    ensures RestInv(Next(s, step))
  {
    hide WriterStep, WriteStep, SharedStep, SafeInv, RestInv;
    match step
    case Write(dupFails, nonblock) => WriteRest(s, dupFails, nonblock);
    case WriterGoes(w, interrupted, rv) =>
      if w in s.writers {
        WriterRest(s, w, interrupted, rv);
      }
    case _ => SharedRest(s, step);
  }

  lemma {:induction false} RunRest(steps: seq<Step>)
    ensures SafeInv(Run(steps)) && RestInv(Run(steps))
  {
    hide Next, SafeInv;
    RunSafe(steps);
    if steps != [] {
      RunRest(steps[..|steps| - 1]);
      StepRest(Run(steps[..|steps| - 1]), steps[|steps| - 1]);
    }
  }

  /** No reset or disconnect, no writer in wlock, and the URB is idle. */
  predicate AtRest(s: Sys) {
    s.c.quiesce.Running? && !s.c.disconnecting && s.c.wlock.Unlocked? && !s.c.Busy()
  }

  /**
   * At rest, in every run: neither flag that keeps writers away is set, no buffer is left over,
   * and the URB takes a submit.
   */
  lemma NothingLeftOver(steps: seq<Step>)
    requires AtRest(Run(steps))
    ensures var c := Run(steps).c;
            !c.inUse && !c.resetting && c.outbuf.None? && !c.poisoned
  {
    hide Run;
    RunRest(steps);
  }

  // ----- what becomes of a writer -----

  /** `n` steps of one writer that no signal interrupts; `rv` is what its submit returns. */
  function Goes(s: Sys, w: nat, rv: int, n: nat): Sys
    decreases n
  {
    if n == 0 then s else Goes(Next(s, WriterGoes(w, false, rv)), w, rv, n - 1)
  }

  /** The writer holds wlock and is at `writer`; nothing else has changed since `s`. */
  function Locked(s: Sys, w: nat, writer: Writer): Sys {
    s.(c := s.c.(wlock := ByWriter(w)), writers := s.writers[w := writer])
  }

  /** The writer has left with its buffer freed; nothing else has changed since `s`. */
  function Refused(s: Sys, w: nat): Sys {
    s.(c := s.c.(freed := s.c.freed + multiset{w}), writers := s.writers - {w})
  }

  /** The command of the writer is in flight, and the writer has left. */
  function SentBy(s: Sys, w: nat): Sys {
    s.(c := s.c.(inUse := true, transfer := w, outbuf := Some(w), flight := Some(w)), writers := s.writers - {w})
  }

  lemma GoesOnce(s: Sys, w: nat, rv: int, n: nat)
    requires n > 0
    ensures Goes(s, w, rv, n) == Goes(Next(s, WriterGoes(w, false, rv)), w, rv, n - 1)
  {
    hide Next;
  }

  lemma {:induction false} GoneStays(s: Sys, w: nat, rv: int, n: nat)
    requires w !in s.writers
    ensures Goes(s, w, rv, n) == s
    decreases n
  {
    if n > 0 {
      GoneStays(s, w, rv, n - 1);
    }
  }

  /** Every step of a writer that holds wlock, but for those that change more than where it is. */
  lemma Moves(s: Sys, w: nat, writer: Writer, writer': Writer, rv: int, n: nat)
    requires n > 0 && Enters(writer) && !writer.WantLock?
    requires EnterStep(Locked(s, w, writer).c, w, writer, false) == (Locked(s, w, writer).c, writer')
    ensures Goes(Locked(s, w, writer), w, rv, n) == Goes(Locked(s, w, writer'), w, rv, n - 1)
  {
    hide EnterStep, SendStep, Goes;
    assert s.writers[w := writer][w := writer'] == s.writers[w := writer'];
    GoesOnce(Locked(s, w, writer), w, rv, n);
  }

  lemma TakesLock(s: Sys, w: nat, rv: int, n: nat)
    requires n > 0 && w in s.writers && s.writers[w].WantLock? && s.c.wlock.Unlocked?
    ensures Goes(s, w, rv, n) == Goes(Locked(s, w, TestGone(s.writers[w].nonblock)), w, rv, n - 1)
  {
    hide Goes;
    GoesOnce(s, w, rv, n);
  }

  lemma Leaves(s: Sys, w: nat, rv: int, n: nat)
    requires n > 1 && s.c.wlock.Unlocked?
    ensures Goes(Locked(s, w, UnlockFree), w, rv, n) == Refused(s, w)
  {
    hide Goes;
    var s1 := s.(writers := s.writers[w := FreeBuf]);
    assert s.writers[w := UnlockFree][w := FreeBuf] == s.writers[w := FreeBuf];
    assert s.writers[w := FreeBuf] - {w} == s.writers - {w};
    GoesOnce(Locked(s, w, UnlockFree), w, rv, n);
    assert Next(Locked(s, w, UnlockFree), WriterGoes(w, false, rv)) == s1;
    GoesOnce(s1, w, rv, n - 1);
    GoneStays(Refused(s, w), w, rv, n - 2);
  }

  /** The tests in front of the URB. */
  lemma Tests(s: Sys, w: nat, rv: int, n: nat)
    requires n >= 10 && w in s.writers && s.writers[w].WantLock? && s.c.wlock.Unlocked?
    requires s.c.disconnecting || !s.c.inUse || s.writers[w].nonblock
    ensures Goes(s, w, rv, n)
            == if s.c.disconnecting || s.c.inUse || s.c.resetting then Refused(s, w)
               else Goes(Locked(s, w, FillUrb), w, rv, n - 5)
  {
    hide Goes, Next, Refused, Locked;
    var nonblock := s.writers[w].nonblock;
    TakesLock(s, w, rv, n);
    LockedSame(s, w);
    if s.c.disconnecting {
      Moves(s, w, TestGone(nonblock), UnlockFree, rv, n - 1);
      Leaves(s, w, rv, n - 2);
    } else {
      var failed := s.c.inUse || s.c.resetting;
      Moves(s, w, TestGone(nonblock), AwaitIdle(nonblock), rv, n - 1);
      Moves(s, w, AwaitIdle(nonblock), TestReset(s.c.inUse), rv, n - 2);
      Moves(s, w, TestReset(s.c.inUse), TestGoneAgain(failed), rv, n - 3);
      Moves(s, w, TestGoneAgain(failed), if failed then UnlockFree else FillUrb, rv, n - 4);
      if failed {
        Leaves(s, w, rv, n - 5);
      }
    }
  }

  lemma LockedSame(s: Sys, w: nat)
    ensures forall writer :: Locked(s, w, writer).c == s.c.(wlock := ByWriter(w))
  {
  }

  /** The writer holds wlock and has filled the URB; `c` has what else it has done. */
  function Filled(s: Sys, w: nat, c: Shared, writer: Writer): Sys {
    s.(c := c.(transfer := w, wlock := ByWriter(w)), writers := s.writers[w := writer])
  }

  lemma SendMoves(s: Sys, w: nat, c: Shared, writer: Writer, c': Shared, writer': Writer, rv: int, n: nat)
    requires n > 0 && !Enters(writer) && !writer.FreeBuf? && !writer.UnlockDone?
    requires SendStep(Filled(s, w, c, writer).c, w, writer, rv) == (Filled(s, w, c', writer').c, writer')
    ensures Goes(Filled(s, w, c, writer), w, rv, n) == Goes(Filled(s, w, c', writer'), w, rv, n - 1)
  {
    hide EnterStep, SendStep, Goes;
    assert s.writers[w := writer][w := writer'] == s.writers[w := writer'];
    GoesOnce(Filled(s, w, c, writer), w, rv, n);
  }

  lemma Fills(s: Sys, w: nat, rv: int, n: nat)
    requires n > 3 && !s.c.Busy()
    ensures Goes(Locked(s, w, FillUrb), w, rv, n)
            == Goes(Filled(s, w, s.c.(inUse := true, outbuf := Some(w)), SubmitUrb), w, rv, n - 3)
  {
    hide Goes;
    assert s.writers[w := FillUrb][w := SetInUse] == s.writers[w := SetInUse];
    GoesOnce(Locked(s, w, FillUrb), w, rv, n);
    assert Next(Locked(s, w, FillUrb), WriterGoes(w, false, rv)) == Filled(s, w, s.c, SetInUse);
    SendMoves(s, w, s.c, SetInUse, s.c.(inUse := true), SetOutbuf, rv, n - 1);
    SendMoves(s, w, s.c.(inUse := true), SetOutbuf, s.c.(inUse := true, outbuf := Some(w)), SubmitUrb, rv, n - 2);
  }

  lemma Submits(s: Sys, w: nat, rv: int, n: nat)
    requires n > 2 && !s.c.Busy() && !s.c.poisoned && rv >= 0 && s.c.wlock.Unlocked?
    ensures Goes(Filled(s, w, s.c.(inUse := true, outbuf := Some(w)), SubmitUrb), w, rv, n) == SentBy(s, w)
  {
    hide Goes;
    var c := s.c.(inUse := true, outbuf := Some(w));
    SendMoves(s, w, c, SubmitUrb, c.(flight := Some(w)), UnlockDone, rv, n);
    var s1 := Filled(s, w, c.(flight := Some(w)), UnlockDone);
    GoesOnce(s1, w, rv, n - 1);
    assert s.writers[w := UnlockDone] - {w} == s.writers - {w};
    assert Next(s1, WriterGoes(w, false, rv)) == SentBy(s, w);
    GoneStays(SentBy(s, w), w, rv, n - 2);
  }

  lemma SubmitFails(s: Sys, w: nat, rv: int, n: nat)
    requires n > 4 && !s.c.Busy() && (s.c.poisoned || rv < 0) && s.c.wlock.Unlocked? && !s.c.inUse && s.c.outbuf.None?
    ensures Goes(Filled(s, w, s.c.(inUse := true, outbuf := Some(w)), SubmitUrb), w, rv, n)
            == Refused(s.(c := s.c.(transfer := w)), w)
  {
    hide Goes;
    var c := s.c.(inUse := true, outbuf := Some(w));
    SendMoves(s, w, c, SubmitUrb, c, FailOutbuf, rv, n);
    SendMoves(s, w, c, FailOutbuf, c.(outbuf := None), FailInUse, rv, n - 1);
    SendMoves(s, w, c.(outbuf := None), FailInUse, s.c, UnlockFree, rv, n - 2);
    assert Filled(s, w, s.c, UnlockFree) == Locked(s.(c := s.c.(transfer := w)), w, UnlockFree);
    Leaves(s.(c := s.c.(transfer := w)), w, rv, n - 3);
  }

  /** A writer that finds wlock free and need not wait for the URB. */
  predicate NeedNotWait(s: Sys, w: nat) {
    && w in s.writers && s.writers[w].WantLock? && s.c.wlock.Unlocked?
    && (s.c.disconnecting || !s.c.inUse || s.writers[w].nonblock)
  }

  /** It has left and released wlock, with its command in flight or without a trace. */
  ghost predicate Ended(s: Sys, w: nat, rv: int, r: Sys) {
    && r.writers == s.writers - {w} && r.c.wlock.Unlocked?
    && (if !s.c.disconnecting && !s.c.inUse && !s.c.resetting && !s.c.poisoned && rv >= 0 then
          r.c == s.c.(inUse := true, transfer := w, outbuf := Some(w), flight := Some(w))
        else
          r.c == s.c.(transfer := r.c.transfer, freed := s.c.freed + multiset{w}))
  }

  lemma WriterEnds(s: Sys, w: nat, rv: int)
    requires NeedNotWait(s, w) && (!s.c.inUse && !s.c.resetting ==> !s.c.Busy() && s.c.outbuf.None?)
    ensures Ended(s, w, rv, Goes(s, w, rv, 13))
  {
    hide Goes, Filled, Shared.Busy;
    Tests(s, w, rv, 13);
    if !s.c.disconnecting && !s.c.inUse && !s.c.resetting {
      Fills(s, w, rv, 8);
      if s.c.poisoned || rv < 0 {
        SubmitFails(s, w, rv, 5);
      } else {
        Submits(s, w, rv, 5);
      }
    }
  }

  lemma FreeUrb(s: Sys)
    requires FlagInv(s.c) && RestInv(s) && s.c.wlock.Unlocked? && !s.c.inUse && !s.c.resetting
    ensures !s.c.Busy() && s.c.outbuf.None?
  {
  }

  /**
   * In every run, what becomes of a writer that finds wlock free, is not interrupted and need not
   * wait: within 13 of its own steps it has left and released wlock. Its command is in flight if
   * and only if the device is neither gone nor in a reset, the URB is free and takes the submit;
   * otherwise its buffer is freed and neither a flag nor the URB has changed.
   */
  lemma LoneWriter(steps: seq<Step>, w: nat, rv: int)
    requires NeedNotWait(Run(steps), w)
    ensures Ended(Run(steps), w, rv, Goes(Run(steps), w, rv, 13))
  {
    var s := Run(steps);
    RunRest(steps);
    assert FlagInv(s.c);
    hide Run, Goes, RestInv, SafeInv, FlagInv, Ended, Shared.Busy;
    if !s.c.inUse && !s.c.resetting {
      FreeUrb(s);
    }
    WriterEnds(s, w, rv);
  }

  /** Otherwise it waits with wlock, however long, and changes nothing. */
  lemma {:induction false} WaitsForUrb(s: Sys, w: nat, rv: int, n: nat)
    requires s.c.inUse && !s.c.disconnecting && n >= 1
    ensures Goes(Locked(s, w, TestGone(false)), w, rv, n) == Locked(s, w, AwaitIdle(false))
    decreases n
  {
    hide Goes, Next;
    Moves(s, w, TestGone(false), AwaitIdle(false), rv, n);
    StaysWaiting(s, w, rv, n - 1);
  }

  lemma {:induction false} StaysWaiting(s: Sys, w: nat, rv: int, n: nat)
    requires s.c.inUse
    ensures Goes(Locked(s, w, AwaitIdle(false)), w, rv, n) == Locked(s, w, AwaitIdle(false))
    decreases n
  {
    hide Next;
    if n > 0 {
      Moves(s, w, AwaitIdle(false), AwaitIdle(false), rv, n);
      StaysWaiting(s, w, rv, n - 1);
    }
  }

  /** At rest, a command whose submit succeeds is in flight. */
  lemma RestSends(steps: seq<Step>, w: nat, rv: int)
    requires var s := Run(steps);
             AtRest(s) && w in s.writers && s.writers[w].WantLock? && rv >= 0
    ensures Goes(Run(steps), w, rv, 13).c.flight == Some(w)
  {
    hide Run, Goes;
    NothingLeftOver(steps);
    LoneWriter(steps, w, rv);
  }

  // ----- what becomes of a command -----

  /** The steps of wdm_out_callback. */
  const CALLBACK: seq<Step> := [CallbackGoes, CallbackGoes, CallbackGoes, CallbackGoes]

  function Steps(s: Sys, steps: seq<Step>): Sys
    decreases |steps|
  {
    if steps == [] then s else Steps(Next(s, steps[0]), steps[1..])
  }

  lemma {:induction false} RunOn(before: seq<Step>, after: seq<Step>)
    ensures Run(before + after) == Steps(Run(before), after)
    decreases |after|
  {
    hide Next;
    if after == [] {
      assert before + after == before;
    } else {
      var first := before + [after[0]];
      assert first[..|first| - 1] == before;
      RunOn(first, after[1..]);
      assert first + after[1..] == before + after;
    }
  }

  lemma HandlerRuns(c: Shared, status: int)
    requires c.flight.Some? && c.outbuf == c.flight && c.callback.NoCallback?
    ensures var c1 := SharedStep(c, Complete(status));
            CallbackStep(CallbackStep(CallbackStep(CallbackStep(c1))))
            == c.(flight := None, outbuf := None, inUse := false, werr := status,
                  freed := c.freed + multiset{c.flight.value})
  {
    hide QuiesceStep;
  }

  /** The completion handler, with nothing else in between: buffer freed, flags cleared, status noted. */
  lemma CommandEnds(steps: seq<Step>, status: int)
    requires Run(steps).c.flight.Some?
    ensures var c := Run(steps).c;
            Run(steps + [Complete(status)] + CALLBACK).c
            == c.(flight := None, outbuf := None, inUse := false, werr := status,
                  freed := c.freed + multiset{c.flight.value})
  {
    var s := Run(steps);
    RunSafe(steps);
    var all := [Complete(status)] + CALLBACK;
    RunOn(steps, all);
    assert steps + [Complete(status)] + CALLBACK == steps + all;
    assert s.c.outbuf == s.c.flight && s.c.callback.NoCallback?;
    hide Run, Steps, SafeInv, WriterStep, WriteStep, QuiesceStep, CallbackStep, Shared.Cargo, Shared.Busy;
    FiveSteps(s, all);
    HandlerRuns(s.c, status);
  }

  lemma StepsFirst(s: Sys, steps: seq<Step>)
    requires steps != []
    ensures Steps(s, steps) == Steps(Next(s, steps[0]), steps[1..])
  {
    hide Next;
  }

  lemma FiveSteps(s: Sys, steps: seq<Step>)
    requires |steps| == 5
    ensures Steps(s, steps) == Next(Next(Next(Next(Next(s, steps[0]), steps[1]), steps[2]), steps[3]), steps[4])
  {
    hide Next, Steps;
    var s1 := Next(s, steps[0]);
    var s2 := Next(s1, steps[1]);
    var s3 := Next(s2, steps[2]);
    var s4 := Next(s3, steps[3]);
    StepsFirst(s, steps);
    StepsFirst(s1, steps[1..]);
    StepsFirst(s2, steps[1..][1..]);
    StepsFirst(s3, steps[1..][1..][1..]);
    StepsFirst(s4, steps[1..][1..][1..][1..]);
    assert steps[1..][1..][1..][1..][1..] == [];
    StepsNone(Next(s4, steps[4]));
  }

  lemma StepsNone(s: Sys)
    ensures Steps(s, []) == s
  {
  }

  /** No other write has asked for it, and no other command has ended. */
  predicate KeepsStatus(step: Step) {
    !step.Write? && !step.Complete? && !step.Open?
  }

  /** The status is still to be asked for, and no handler is about to note another. */
  ghost predicate StatusKept(s: Sys, r: Sys) {
    r.c.werr == s.c.werr && r.told == s.told && r.next == s.next && !r.c.callback.NoteStatus?
  }

  lemma WriterKeepsStatus(s: Sys, w: nat, interrupted: bool, rv: int)
    requires w in s.writers && !s.c.callback.NoteStatus?
    ensures StatusKept(s, WriterStep(s, w, interrupted, rv))
  {
    hide Shared.Busy;
  }

  lemma QuiesceKeepsStatus(c: Shared)
    ensures QuiesceStep(c).werr == c.werr && QuiesceStep(c).callback == c.callback
  {
    hide Shared.Busy;
  }

  lemma StatusStays(s: Sys, step: Step)
    requires KeepsStatus(step) && !s.c.callback.NoteStatus?
    ensures StatusKept(s, Next(s, step))
  {
    hide WriterStep, QuiesceStep;
    if step.WriterGoes? {
      if step.w in s.writers {
        WriterKeepsStatus(s, step.w, step.interrupted, step.rv);
      }
    } else {
      QuiesceKeepsStatus(s.c);
    }
  }

  lemma {:induction false} StatusWaits(s: Sys, steps: seq<Step>)
    requires !s.c.callback.NoteStatus? && forall i | 0 <= i < |steps| :: KeepsStatus(steps[i])
    ensures StatusKept(s, Steps(s, steps))
    decreases |steps|
  {
    hide Next;
    if steps != [] {
      StatusStays(s, steps[0]);
      StatusWaits(Next(s, steps[0]), steps[1..]);
    }
  }

  /**
   * The status of a completed command is what the next write returns: whatever happens from the
   * moment the handler notes it, if nobody opens the device anew, the next call returns it if it
   * is an error, once, and goes on otherwise.
   */
  lemma NextWriteTells(steps: seq<Step>, between: seq<Step>, dupFails: bool, nonblock: bool)
    requires Run(steps).c.callback.NoteStatus? && forall i | 0 <= i < |between| :: KeepsStatus(between[i])
    ensures var s := Run(steps);
            var status := s.c.callback.status;
            var r := Run(steps + [CallbackGoes] + between + [Write(dupFails, nonblock)]);
            && r.told == s.told + (if status < 0 then [status] else [])
            && r.c.werr == 0
            && (if status >= 0 && !dupFails then r.next == s.next + 1 && s.next in r.writers else r.next == s.next)
  {
    hide Run, Steps, Next;
    var s := Run(steps);
    var noted := steps + [CallbackGoes];
    RunOneMore(steps, CallbackGoes);
    StatusNoted(s);
    StatusWaits(Run(noted), between);
    RunOn(noted, between);
    RunOneMore(noted + between, Write(dupFails, nonblock));
    StatusAsked(Run(noted + between), dupFails, nonblock);
  }

  lemma RunOneMore(steps: seq<Step>, step: Step)
    ensures Run(steps + [step]) == Next(Run(steps), step)
  {
    hide Next;
    assert (steps + [step])[..|steps|] == steps;
  }

  lemma StatusNoted(s: Sys)
    requires s.c.callback.NoteStatus?
    ensures var r := Next(s, CallbackGoes);
            && r.c.werr == s.c.callback.status && !r.c.callback.NoteStatus?
            && r.told == s.told && r.next == s.next
  {
  }

  lemma StatusAsked(s: Sys, dupFails: bool, nonblock: bool)
    ensures var r := Next(s, Write(dupFails, nonblock));
            && r.told == s.told + (if s.c.werr < 0 then [s.c.werr] else [])
            && r.c.werr == 0
            && (if s.c.werr >= 0 && !dupFails then r.next == s.next + 1 && s.next in r.writers else r.next == s.next)
  {
  }
}
