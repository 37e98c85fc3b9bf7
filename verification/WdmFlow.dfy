/**
 * Flow control of responses: as long as submits succeed and completions are fine or stalled,
 * every notification is answered by exactly one fetch, one at a time, into an empty buffer.
 */
module WdmFlow {
  import opened Bytes
  import opened WdmSpec
  import opened WdmResponse
  import opened WdmQueue

  /** The steps of a run without failures. */
  predicate Smooth(step: Step) {
    match step
    case Notify(rv) => rv >= 0
    case Complete(status, _) => status == 0 || status == EPIPE
    case ReaderGoes(rv, _, _) => rv >= 0
    case IntStall => false
    case ResetBegins => false
    case DisconnectBegins => false
    case Release => false
    case _ => true
  }

  /** Nothing is going on that a failure would start. */
  ghost predicate Calm(s: Sys) {
    && !s.dev.disconnecting && !s.dev.resetting && !s.dev.overflow && s.dev.rerr == 0
    && !s.poisoned && s.collisions == 0 && s.discards == 0
    && s.worker.WorkerIdle? && !s.workQueued && s.rx.RxIdle? && !s.rxQueued
    && s.intCb.IntIdle? && s.quiesce.Running?
    && !s.reader.HeldByReset? && !s.reader.ClearOverflow? && !s.reader.LeaveNoBufs?
    && (s.reader.Submitted? ==> s.reader.rv == 0)
  }

  function Pending(respCount: nat): nat {
    if respCount == 0 then 0 else respCount - 1
  }

  /** The reader was woken up because a response is ready. */
  predicate PastWait(reader: Reader) {
    || (reader.TestGoneAgain? && !reader.interrupted) || (reader.TestReset? && !reader.interrupted)
    || reader.LockedCheck? || reader.Copying?
  }

  /** A response is being fetched, is about to be, is ready for readers, or none is owed. */
  ghost predicate Phase(s: Sys) {
    var d := s.dev;
    && Sound(s)
    && (PastWait(s.reader) ==> d.read)
    && (s.reader.Copying? ==> d.length > 0)
    && (if s.inFlight then
          !s.reader.Submitting? && d.responding && d.respCount >= 1 && d.length == 0 && !d.read
        else if s.reader.Submitting? then
          d.responding && d.respCount >= 1 && d.length == 0 && !d.read
        else if d.read then
          d.respCount >= 1 && (d.responding ==> d.respCount >= 2) && (d.length == 0 <==> d.reslength == 0)
        else
          d.respCount == 0 && !d.responding && d.length == 0)
  }

  /** Every notification was or will be answered by one fetch. */
  ghost predicate Balanced(s: Sys) {
    s.submits + (if s.reader.Submitting? then 1 else 0) + Pending(s.dev.respCount) == s.notes
  }

  ghost predicate FlowInv(s: Sys) {
    Calm(s) && Phase(s) && Balanced(s)
  }

  lemma NotifyFlow(s: Sys, rv: int)
    requires FlowInv(s) && rv >= 0
    ensures FlowInv(NotifyStep(s, rv))
  {
  }

  lemma CompleteFlow(s: Sys, status: int, data: seq<Byte>)
    requires FlowInv(s) && s.inFlight && (status == 0 || status == EPIPE) && |data| <= |s.dev.ubuf|
    ensures FlowInv(CompleteStep(s, status, data))
  {
    hide Patch;
  }

  lemma ServiceFlow(s: Sys, d: Dev, after: After)
    requires Calm(s) && Balanced(s) && !s.inFlight && !s.reader.Submitting?
    requires d.Valid() && d.length == 0 && !d.read && d.respCount >= 1 && (d.responding ==> d.respCount >= 2)
    requires !s.reader.HeldByReset? && s.quiesce.Running? && |s.tags| == |s.accepted|
    requires d.respCount == s.dev.respCount && !d.disconnecting && !d.resetting && !d.overflow && d.rerr == 0
    ensures FlowInv(ReaderService(s, d, after))
  {
  }

  lemma CheckFlow(s: Sys, call: Call)
    requires FlowInv(s) && s.reader.LockedCheck?
    ensures FlowInv(CheckStep(s, call))
  {
    hide ReaderService;
    if CheckOf(s.dev).ZeroLength? {
      ServiceFlow(s, AfterCheck(s.dev), Retry(call));
    }
  }

  lemma CopyFlow(s: Sys, fault: bool)
    requires FlowInv(s) && s.reader.Copying?
    ensures FlowInv(CopyStep(s, fault))
  {
    hide ReaderService, ShiftLeft;
    if |s.reader.copied| == s.reader.cntr {
      var (d, empty) := Consume(s.dev, s.reader.cntr);
      if empty {
        ServiceFlow(s.(returned := s.returned + s.reader.copied), d, Return(s.reader.cntr));
      }
    }
  }

  lemma SubmitFlow(s: Sys, rv: int)
    requires FlowInv(s) && rv >= 0 && (s.reader.Submitting? || s.reader.Submitted?)
    ensures FlowInv(SubmitStep(s, rv))
  {
  }

  lemma WaitFlow(s: Sys, signal: bool)
    requires FlowInv(s)
    ensures FlowInv(WaitStep(s, signal))
  {
  }

  lemma ReaderFlow(s: Sys, rv: int, signal: bool, fault: bool)
    requires FlowInv(s) && rv >= 0
    ensures FlowInv(ReaderStep(s, rv, signal, fault))
  {
    hide CheckStep, CopyStep, SubmitStep, WaitStep;
    match s.reader
    case LockedCheck(call) => CheckFlow(s, call);
    case Copying(_, _) => CopyFlow(s, fault);
    case Submitting(_) => SubmitFlow(s, rv);
    case Submitted(_, _) => SubmitFlow(s, rv);
    case Leave(_) =>
    case _ => WaitFlow(s, signal);
  }

  lemma StepFlow(s: Sys, step: Step)
    requires FlowInv(s) && Smooth(step)
    ensures FlowInv(Next(s, step))
  {
    hide ReaderStep, CompleteStep, NotifyStep;
    match step
    case Notify(rv) => NotifyFlow(s, rv);
    case Complete(status, data) =>
      if s.inFlight && |data| <= |s.dev.ubuf| {
        CompleteFlow(s, status, data);
      }
    case ReaderGoes(rv, signal, fault) => ReaderFlow(s, rv, signal, fault);
    case _ =>
  }

  ghost predicate AllSmooth(steps: seq<Step>) {
    forall i | 0 <= i < |steps| :: Smooth(steps[i])
  }

  lemma {:induction false} RunFlow(wMaxCommand: nat, steps: seq<Step>)
    requires AllSmooth(steps)
    ensures FlowInv(Run(wMaxCommand, steps))
  {
    hide Next;
    if steps != [] {
      RunFlow(wMaxCommand, steps[..|steps| - 1]);
      StepFlow(Run(wMaxCommand, steps[..|steps| - 1]), steps[|steps| - 1]);
    }
  }

  /**
   * In a run without failures the response URB is never submitted while it is in flight, a
   * response always finds the buffer empty, nothing is lost, and no notification is forgotten:
   * when nothing is in flight or ready, there were as many fetches as notifications and
   * readers got every byte.
   */
  lemma FlowControl(wMaxCommand: nat, steps: seq<Step>)
    requires AllSmooth(steps)
    ensures var s := Run(wMaxCommand, steps);
            var fetching := s.inFlight || s.reader.Submitting?;
            && s.collisions == 0
            && (fetching ==> s.dev.length == 0)
            && !s.dev.overflow && s.discards == 0
            && s.submits + (if s.reader.Submitting? then 1 else 0) + Pending(s.dev.respCount) == s.notes
            && (s.dev.respCount >= 1 ==> fetching || s.dev.read)
            && (!fetching && !s.dev.read ==> s.submits == s.notes && s.returned == s.accepted)
  {
    hide Run;
    RunFlow(wMaxCommand, steps);
    ReadsAreAQueue(wMaxCommand, steps);
  }

  // ----- a submit that fails -----

  /** A response is owed, and nothing that goes on will fetch it. */
  ghost predicate Stuck(s: Sys) {
    && Sound(s)
    && s.dev.respCount >= 1 && !s.dev.read && !s.dev.overflow && s.dev.length == 0
    && !s.dev.disconnecting && !s.dev.resetting
    && !s.inFlight && s.intCb.IntIdle? && s.quiesce.Running?
    && s.worker.WorkerIdle? && !s.workQueued && s.rx.RxIdle? && !s.rxQueued
    && !PastWait(s.reader) && !s.reader.Submitting? && !s.reader.ClearOverflow?
    && (s.reader.Submitted? ==> s.reader.rv == 0)
  }

  /** A stall schedules wdm_rxwork, and the others start over. */
  predicate Rescues(step: Step) {
    step.IntStall? || step.ResetBegins? || step.DisconnectBegins? || step.Release?
  }

  lemma StuckReader(s: Sys, rv: int, signal: bool, fault: bool)
    requires Stuck(s)
    ensures var r := ReaderStep(s, rv, signal, fault);
            Stuck(r) && r.submits == s.submits
  {
    hide BufferKept, LossKept, ErrorsKept, FetchKept;
  }

  lemma StuckStep(s: Sys, step: Step)
    requires Stuck(s) && !Rescues(step)
    ensures Stuck(Next(s, step)) && Next(s, step).submits == s.submits
  {
    hide ReaderStep, CompleteStep, BufferKept, LossKept, ErrorsKept, FetchKept;
    if step.ReaderGoes? {
      StuckReader(s, step.rv, step.signal, step.fault);
    }
  }

  ghost predicate NoRescue(steps: seq<Step>) {
    forall i | 0 <= i < |steps| :: !Rescues(steps[i])
  }

  /** However many notifications, reads and opens follow: no response is fetched. */
  lemma {:induction false} StuckStays(s: Sys, steps: seq<Step>)
    requires Stuck(s) && NoRescue(steps)
    ensures Stuck(Steps(s, steps)) && Steps(s, steps).submits == s.submits
    decreases |steps|
  {
    hide Next, BufferKept, LossKept, ErrorsKept, FetchKept, Reports, Forgets;
    if steps != [] {
      StuckStep(s, steps[0]);
      StuckStays(Next(s, steps[0]), steps[1..]);
    }
  }

  /** Nothing is in flight, about to be submitted or ready. */
  predicate Idle(s: Sys) {
    !s.inFlight && !s.reader.Submitting? && !s.dev.read
  }

  /** No run without a rescue submits the response URB again. */
  ghost predicate NeverFetches(s: Sys, submits: nat)
    requires Sound(s)
  {
    forall steps | NoRescue(steps) :: Steps(s, steps).submits == submits
  }

  /** A notification whose submit returns `rv`, and what wdm_int_callback does after a failure. */
  function AfterNotify(s: Sys, rv: int): (r: Sys)
    requires Sound(s)
    ensures Sound(r)
  {
    Next(Next(s, Notify(rv)), IntFails)
  }

  lemma FailureSticks(s: Sys, rv: int)
    requires FlowInv(s) && Idle(s) && rv < 0 && rv != ENOMEM
    ensures Stuck(AfterNotify(s, rv)) && AfterNotify(s, rv).submits == s.submits
  {
    hide BufferKept, LossKept, ErrorsKept, FetchKept, ReaderStep, WorkerStep, RxStep, QuiesceStep, CompleteStep;
  }

  lemma SuccessFetches(s: Sys, rv: int)
    requires FlowInv(s) && Idle(s) && rv >= 0
    ensures AfterNotify(s, rv).submits == s.submits + 1
  {
    hide BufferKept, LossKept, ErrorsKept, FetchKept, ReaderStep, WorkerStep, RxStep, QuiesceStep, CompleteStep;
  }

  /** After -ENOMEM wdm_rxwork tries again. */
  lemma NoMemoryRecovers(s: Sys)
    requires FlowInv(s) && Idle(s)
    ensures Steps(AfterNotify(s, ENOMEM), [RxGoes(0), RxGoes(0)]).submits == s.submits + 1
  {
    hide BufferKept, LossKept, ErrorsKept, FetchKept, ReaderStep, WorkerStep, QuiesceStep, CompleteStep, Steps;
    var r := AfterNotify(s, ENOMEM);
    assert r.rxQueued && r.rx.RxIdle? && !r.dev.responding && !r.dev.disconnecting && !r.inFlight && !r.poisoned;
    var r1 := Next(r, RxGoes(0));
    assert r1.rx.RxSubmitting? && !r1.inFlight && !r1.poisoned;
    var r2 := Next(r1, RxGoes(0));
    hide NotifyStep, IntFailsStep;
    var steps := [RxGoes(0), RxGoes(0)];
    StepsCons(r, steps);
    StepsCons(r1, steps[1..]);
    assert steps[1..][1..] == [];
    StepsNone(r2);
  }

  /**
   * A failed submit in the interrupt callback strands the response, exactly: in an idle state of
   * a run without failures so far, no later notification, read, completion or open makes the
   * driver fetch again if and only if the submit fails with something else than -ENOMEM.
   */
  lemma FailedSubmitStrands(wMaxCommand: nat, steps: seq<Step>, rv: int)
    requires AllSmooth(steps) && Idle(Run(wMaxCommand, steps))
    ensures var s := Run(wMaxCommand, steps);
            NeverFetches(AfterNotify(s, rv), s.submits) <==> rv < 0 && rv != ENOMEM
  {
    hide Run, Next, Stuck, FlowInv, Idle, BufferKept, LossKept, ErrorsKept, FetchKept, Reports, Forgets;
    RunFlow(wMaxCommand, steps);
    var s := Run(wMaxCommand, steps);
    var r := AfterNotify(s, rv);
    if rv < 0 && rv != ENOMEM {
      FailureSticks(s, rv);
      hide AfterNotify;
      forall later | NoRescue(later)
        ensures Steps(r, later).submits == s.submits
      {
        StuckStays(r, later);
      }
    } else if rv == ENOMEM {
      NoMemoryRecovers(s);
      hide AfterNotify, Steps;
      assert NoRescue([RxGoes(0), RxGoes(0)]);
    } else {
      SuccessFetches(s, rv);
      hide AfterNotify;
      StepsNone(r);
      assert NoRescue([]);
    }
  }
}
