/**
 * When the driver fetches a response: again after a submit of its own has failed, and never again
 * once the device is gone.
 */
module WdmFetch {
  import opened Bytes
  import opened WdmSpec
  import opened WdmResponse

  // ----- after a failed submit -----

  /** No response is owed or being fetched, as far as the flags say. */
  predicate Forgotten(d: Dev) {
    d.respCount == 0 && !d.responding
  }

  lemma ServiceForgets(s: Sys, d: Dev, after: After)
    requires d.Valid() && (s.quiesce.Running? || s.quiesce.Locking?) && !s.reader.LeaveNoBufs?
    requires |s.tags| == |s.accepted| && Forgotten(d)
    ensures Forgotten(ReaderService(s, d, after).dev)
  {
    hide BufferKept, LossKept, ErrorsKept, FetchKept, Sound;
  }

  lemma CopyForgets(s: Sys, fault: bool)
    requires Sound(s) && s.reader.Copying? && Forgotten(s.dev)
    ensures Forgotten(CopyStep(s, fault).dev)
  {
    hide BufferKept, LossKept, ErrorsKept, FetchKept, ShiftLeft, ReaderService;
    if |s.reader.copied| == s.reader.cntr {
      var (d, empty) := Consume(s.dev, s.reader.cntr);
      if empty {
        ServiceForgets(s.(returned := s.returned + s.reader.copied), d, Return(s.reader.cntr));
      }
    }
  }

  lemma CheckForgets(s: Sys, call: Call)
    requires Sound(s) && s.reader.LockedCheck? && Forgotten(s.dev)
    ensures Forgotten(CheckStep(s, call).dev)
  {
    hide BufferKept, LossKept, ErrorsKept, FetchKept, ReaderService, AfterCheck, Checked;
    if CheckOf(s.dev).ZeroLength? {
      ServiceForgets(s, AfterCheck(s.dev), Retry(call));
    }
  }

  lemma SubmitForgets(s: Sys, rv: int)
    requires Sound(s) && (s.reader.Submitting? || s.reader.Submitted?) && Forgotten(s.dev)
    ensures Forgotten(SubmitStep(s, rv).dev)
  {
    hide BufferKept, LossKept, ErrorsKept, FetchKept, Sound, AfterService;
  }

  lemma ReaderForgets(s: Sys, rv: int, signal: bool, fault: bool)
    requires Sound(s) && Forgotten(s.dev)
    ensures Forgotten(ReaderStep(s, rv, signal, fault).dev)
  {
    hide BufferKept, LossKept, ErrorsKept, Sound, CheckStep, CopyStep, SubmitStep, ReturnStep, WaitStep;
    if s.reader.LockedCheck? {
      CheckForgets(s, s.reader.call);
    } else if s.reader.Copying? {
      CopyForgets(s, fault);
    } else if s.reader.Submitting? || s.reader.Submitted? {
      SubmitForgets(s, rv);
    }
  }

  lemma WorkerForgets(s: Sys, rv: int)
    requires Sound(s) && Forgotten(s.dev)
    ensures Forgotten(WorkerStep(s, rv).dev)
  {
    hide BufferKept, LossKept, ErrorsKept, FetchKept;
  }

  lemma CompleteForgets(s: Sys, status: int, data: seq<Byte>)
    requires Sound(s) && Forgotten(s.dev)
    ensures Forgotten(CompleteStep(s, status, data).dev)
  {
    hide Patch, Unlinked;
  }

  lemma QuiesceForgets(s: Sys)
    requires Sound(s) && Forgotten(s.dev)
    ensures Forgotten(QuiesceStep(s).dev)
  {
    hide QuiesceStep, BufferKept, LossKept, ErrorsKept, Sound;
  }

  lemma OtherForgets(s: Sys, step: Step)
    requires Sound(s) && Forgotten(s.dev) && !step.Notify? && !step.RxGoes?
    requires !step.ReaderGoes? && !step.WorkerGoes? && !step.Complete? && !step.QuiesceGoes?
    ensures Forgotten(Next(s, step).dev)
  {
    hide ReaderStep, WorkerStep, CompleteStep, QuiesceStep, NotifyStep, RxStep, BufferKept, LossKept;
    hide ErrorsKept, FetchKept, Sound;
  }

  lemma StepForgets(s: Sys, step: Step)
    requires Sound(s) && Forgotten(s.dev) && !step.Notify? && !step.RxGoes?
    ensures Forgotten(Next(s, step).dev)
  {
    hide ReaderStep, WorkerStep, CompleteStep, QuiesceStep, Forgotten, BufferKept, LossKept, ErrorsKept;
    hide FetchKept, Sound;
    if step.ReaderGoes? {
      ReaderForgets(s, step.rv, step.signal, step.fault);
    } else if step.WorkerGoes? {
      WorkerForgets(s, step.rv);
    } else if step.Complete? {
      CompleteForgets(s, step.status, step.data);
    } else if step.QuiesceGoes? {
      QuiesceForgets(s);
    } else {
      OtherForgets(s, step);
    }
  }

  /** Neither a notification nor wdm_rxwork, which fetches on its own account. */
  ghost predicate NoneFetches(steps: seq<Step>) {
    forall i | 0 <= i < |steps| :: !steps[i].Notify? && !steps[i].RxGoes?
  }

  lemma {:induction false} StaysForgotten(s: Sys, steps: seq<Step>)
    requires Sound(s) && Forgotten(s.dev) && NoneFetches(steps)
    ensures Forgotten(Steps(s, steps).dev)
    decreases |steps|
  {
    hide Next, BufferKept, LossKept, ErrorsKept, FetchKept, TouchesErrors, Reports, Forgets, Forgotten;
    if steps != [] {
      StepForgets(s, steps[0]);
      StaysForgotten(Next(s, steps[0]), steps[1..]);
    }
  }

  /** A reader or service_interrupt_work whose submit has failed takes the lock again. */
  predicate FailedSubmitEnds(s: Sys, step: Step) {
    || (step.ReaderGoes? && s.reader.Submitted? && s.reader.rv != 0)
    || (step.WorkerGoes? && s.worker.WorkerSubmitted? && s.worker.rv != 0)
  }

  lemma EndForgets(s: Sys, step: Step)
    requires Sound(s) && FailedSubmitEnds(s, step)
    ensures Forgotten(Next(s, step).dev)
  {
    hide BufferKept, LossKept, ErrorsKept, FetchKept;
  }

  /** A notification fetches if the URB can be submitted and nothing is owed. */
  lemma NotifyFetches(s: Sys)
    requires Sound(s) && Forgotten(s.dev)
    ensures Next(s, Notify(0)).submits == s.submits + 1
            <==> s.intCb.IntIdle? && !s.inFlight && !s.poisoned && !s.dev.disconnecting
  {
    hide BufferKept, LossKept, ErrorsKept, FetchKept;
  }

  /**
   * In every run, after the submit of a reader or of the work item has failed and whatever
   * happens then, but for notifications and wdm_rxwork: the next notification fetches if and only
   * if the interrupt callback is not busy, the URB is idle and not poisoned, and the device is
   * still there.
   */
  lemma NextNotificationFetches(wMaxCommand: nat, steps: seq<Step>, step: Step, between: seq<Step>)
    requires FailedSubmitEnds(Run(wMaxCommand, steps), step) && NoneFetches(between)
    ensures var s := Run(wMaxCommand, steps + [step] + between);
            Next(s, Notify(0)).submits == s.submits + 1
            <==> s.intCb.IntIdle? && !s.inFlight && !s.poisoned && !s.dev.disconnecting
  {
    var s := Run(wMaxCommand, steps);
    EndForgets(s, step);
    var ended := steps + [step];
    assert ended[..|steps|] == steps && Run(wMaxCommand, ended) == Next(s, step);
    hide Run, Next, Forgotten, FailedSubmitEnds, BufferKept, LossKept, ErrorsKept, FetchKept, TouchesErrors;
    hide Reports, Forgets;
    StaysForgotten(Run(wMaxCommand, ended), between);
    RunOn(wMaxCommand, ended, between);
    NotifyFetches(Run(wMaxCommand, ended + between));
  }

  // ----- after a disconnect -----

  /** The device is gone, and nobody is on the way to a submit. */
  predicate Gone(s: Sys) {
    s.dev.disconnecting && !s.reader.Submitting? && !s.worker.WorkerSubmitting? && !s.rx.RxSubmitting?
  }

  /** The step neither fetches nor sets out to. */
  ghost predicate StaysGone(s: Sys, r: Sys) {
    Gone(r) && r.submits == s.submits
  }

  lemma ServiceGone(s: Sys, d: Dev, after: After)
    requires d.Valid() && (s.quiesce.Running? || s.quiesce.Locking?) && !s.reader.LeaveNoBufs?
    requires |s.tags| == |s.accepted| && d.disconnecting && Gone(s)
    ensures StaysGone(s, ReaderService(s, d, after))
  {
    hide BufferKept, LossKept, ErrorsKept, FetchKept, Sound;
  }

  lemma CopyGone(s: Sys, fault: bool)
    requires Sound(s) && s.reader.Copying? && Gone(s)
    ensures StaysGone(s, CopyStep(s, fault))
  {
    hide BufferKept, LossKept, ErrorsKept, FetchKept, ShiftLeft, ReaderService;
    if |s.reader.copied| == s.reader.cntr {
      var (d, empty) := Consume(s.dev, s.reader.cntr);
      if empty {
        ServiceGone(s.(returned := s.returned + s.reader.copied), d, Return(s.reader.cntr));
      }
    }
  }

  lemma CheckGone(s: Sys, call: Call)
    requires Sound(s) && s.reader.LockedCheck? && Gone(s)
    ensures StaysGone(s, CheckStep(s, call))
  {
    hide BufferKept, LossKept, ErrorsKept, FetchKept, ReaderService, AfterCheck, Checked;
    if CheckOf(s.dev).ZeroLength? {
      ServiceGone(s, AfterCheck(s.dev), Retry(call));
    }
  }

  lemma EndGone(s: Sys, rv: int)
    requires Sound(s) && s.reader.Submitted? && Gone(s)
    ensures StaysGone(s, SubmitStep(s, rv))
  {
    hide BufferKept, LossKept, ErrorsKept, FetchKept, Sound;
  }

  lemma ReaderGone(s: Sys, rv: int, signal: bool, fault: bool)
    requires Sound(s) && Gone(s)
    ensures StaysGone(s, ReaderStep(s, rv, signal, fault))
  {
    hide BufferKept, LossKept, ErrorsKept, Sound, CheckStep, CopyStep, SubmitStep, ReturnStep, WaitStep;
    if s.reader.LockedCheck? {
      CheckGone(s, s.reader.call);
    } else if s.reader.Copying? {
      CopyGone(s, fault);
    } else if s.reader.Submitted? {
      EndGone(s, rv);
    } else if !s.reader.ClearOverflow? && !s.reader.Leave? && !s.reader.LeaveNoBufs? {
      WaitGone(s, signal);
    }
  }

  lemma WaitGone(s: Sys, signal: bool)
    requires Sound(s) && !s.reader.Submitting?
    ensures !WaitStep(s, signal).reader.Submitting?
  {
    hide BufferKept, LossKept, ErrorsKept, FetchKept, Sound;
  }

  lemma NoService(d: Dev)
    requires d.disconnecting
    ensures !ServiceBegin(d).1.Submit? && ServiceBegin(d).0.disconnecting
  {
  }

  lemma WorkerGone(s: Sys, rv: int)
    requires Sound(s) && Gone(s)
    ensures StaysGone(s, WorkerStep(s, rv))
  {
    NoService(s.dev);
    hide ServiceBegin, BufferKept, LossKept, ErrorsKept, FetchKept, Sound, WdmResponse.SubmitUrb;
  }

  lemma RxGone(s: Sys, rv: int)
    requires Sound(s) && Gone(s)
    ensures StaysGone(s, RxStep(s, rv))
  {
    hide BufferKept, LossKept, ErrorsKept, FetchKept, Sound;
  }

  lemma NotifyGone(s: Sys, rv: int)
    requires Sound(s) && Gone(s)
    ensures StaysGone(s, NotifyStep(s, rv))
  {
    hide BufferKept, LossKept, ErrorsKept, FetchKept, Sound;
  }

  lemma CompleteGone(s: Sys, status: int, data: seq<Byte>)
    requires Sound(s) && Gone(s)
    ensures StaysGone(s, CompleteStep(s, status, data))
  {
    hide Patch, Unlinked, Repeat;
  }

  lemma QuiesceGone(s: Sys)
    requires Sound(s) && Gone(s)
    ensures StaysGone(s, QuiesceStep(s))
  {
    hide QuiesceStep, BufferKept, LossKept, ErrorsKept, Sound;
  }

  lemma OtherGone(s: Sys, step: Step)
    requires Sound(s) && Gone(s) && !step.Notify? && !step.RxGoes?
    requires !step.ReaderGoes? && !step.WorkerGoes? && !step.Complete? && !step.QuiesceGoes?
    ensures StaysGone(s, Next(s, step))
  {
    hide ReaderStep, WorkerStep, CompleteStep, QuiesceStep, NotifyStep, RxStep, BufferKept, LossKept;
    hide ErrorsKept, FetchKept, Sound;
  }

  lemma StepGone(s: Sys, step: Step)
    requires Sound(s) && Gone(s)
    ensures StaysGone(s, Next(s, step))
  {
    hide ReaderStep, WorkerStep, CompleteStep, QuiesceStep, NotifyStep, RxStep, BufferKept, LossKept;
    hide ErrorsKept, FetchKept, Sound;
    match step
    case ReaderGoes(rv, signal, fault) => ReaderGone(s, rv, signal, fault);
    case WorkerGoes(rv) => WorkerGone(s, rv);
    case RxGoes(rv) => RxGone(s, rv);
    case Notify(rv) => NotifyGone(s, rv);
    case Complete(status, data) => CompleteGone(s, status, data);
    case QuiesceGoes => QuiesceGone(s);
    case _ => OtherGone(s, step);
  }

  /** Nothing is fetched any more, whatever happens. */
  lemma {:induction false} NoFetchWhenGone(s: Sys, steps: seq<Step>)
    requires Sound(s) && Gone(s)
    ensures Gone(Steps(s, steps)) && Steps(s, steps).submits == s.submits
    decreases |steps|
  {
    hide Next, Gone, BufferKept, LossKept, ErrorsKept, FetchKept, TouchesErrors, Reports, Forgets;
    if steps != [] {
      StepGone(s, steps[0]);
      NoFetchWhenGone(Next(s, steps[0]), steps[1..]);
    }
  }

  // ----- during a reset -----

  /** Between wdm_pre_reset and wdm_post_reset, and at the end of wdm_disconnect. */
  ghost predicate QuietInv(s: Sys) {
    && (s.quiesce.Cancelling? || s.quiesce.Quiet? ==> s.poisoned)
    && (s.quiesce.Quiet? ==> !s.inFlight && s.worker.WorkerIdle? && !s.workQueued)
  }

  /** The step leaves alone what a reset has made quiet. */
  ghost predicate QuietKept(s: Sys, r: Sys) {
    && r.quiesce == s.quiesce && r.poisoned == s.poisoned
    && (s.poisoned && !s.inFlight ==> !r.inFlight)
    && (s.worker.WorkerIdle? && !s.workQueued ==> r.worker.WorkerIdle? && !r.workQueued)
  }

  lemma ServiceQuiet(s: Sys, d: Dev, after: After)
    requires d.Valid() && (s.quiesce.Running? || s.quiesce.Locking?) && !s.reader.LeaveNoBufs?
    requires |s.tags| == |s.accepted|
    ensures QuietKept(s, ReaderService(s, d, after))
  {
    hide BufferKept, LossKept, ErrorsKept, FetchKept, Sound, ServiceBegin, AfterService;
  }

  lemma CheckQuiet(s: Sys, call: Call)
    requires Sound(s) && s.reader.LockedCheck?
    ensures QuietKept(s, CheckStep(s, call))
  {
    hide BufferKept, LossKept, ErrorsKept, FetchKept, ReaderService, AfterCheck, Checked;
    if CheckOf(s.dev).ZeroLength? {
      ServiceQuiet(s, AfterCheck(s.dev), Retry(call));
    }
  }

  lemma CopyQuiet(s: Sys, fault: bool)
    requires Sound(s) && s.reader.Copying?
    ensures QuietKept(s, CopyStep(s, fault))
  {
    hide BufferKept, LossKept, ErrorsKept, FetchKept, ShiftLeft, ReaderService;
    if |s.reader.copied| == s.reader.cntr {
      var (d, empty) := Consume(s.dev, s.reader.cntr);
      if empty {
        ServiceQuiet(s.(returned := s.returned + s.reader.copied), d, Return(s.reader.cntr));
      }
    }
  }

  lemma SubmitQuiet(s: Sys, rv: int)
    requires Sound(s)
    ensures QuietKept(s, SubmitStep(s, rv))
  {
    hide BufferKept, LossKept, ErrorsKept, FetchKept, Sound, ServiceEnd, AfterService;
  }

  lemma ReaderQuiet(s: Sys, rv: int, signal: bool, fault: bool)
    requires Sound(s)
    ensures QuietKept(s, ReaderStep(s, rv, signal, fault))
  {
    hide BufferKept, LossKept, ErrorsKept, FetchKept, Sound, CheckStep, CopyStep, SubmitStep, Waited;
    if s.reader.LockedCheck? {
      CheckQuiet(s, s.reader.call);
    } else if s.reader.Copying? {
      CopyQuiet(s, fault);
    } else {
      SubmitQuiet(s, rv);
    }
  }

  lemma CallbackQuiet(s: Sys, step: Step)
    requires Sound(s) && (step.Notify? || step.IntFails?)
    ensures QuietKept(s, Next(s, step))
  {
    hide BufferKept, LossKept, ErrorsKept, FetchKept, Sound, Notified;
    hide ReaderStep, CompleteStep, QuiesceStep, RxStep, WorkerStep;
  }

  lemma WorkQuiet(s: Sys, step: Step)
    requires Sound(s) && (step.RxGoes? || step.WorkerGoes?)
    ensures QuietKept(s, Next(s, step))
  {
    hide BufferKept, LossKept, ErrorsKept, FetchKept, Sound, ServiceBegin, ServiceEnd;
    hide ReaderStep, CompleteStep, QuiesceStep, NotifyStep;
  }

  lemma CompleteQuiet(s: Sys, status: int, data: seq<Byte>)
    requires Sound(s) && QuietInv(s)
    ensures QuietInv(Next(s, Complete(status, data)))
  {
    hide BufferKept, LossKept, ErrorsKept, FetchKept, Sound, InCallback, Repeat;
  }

  lemma OtherQuiet(s: Sys, step: Step)
    requires Sound(s) && QuietInv(s)
    requires !step.Notify? && !step.IntFails? && !step.RxGoes? && !step.WorkerGoes?
    requires !step.ReaderGoes? && !step.Complete?
    ensures QuietInv(Next(s, step))
  {
    hide BufferKept, LossKept, ErrorsKept, FetchKept, Sound;
    hide ReaderStep, CompleteStep, NotifyStep, RxStep, WorkerStep;
  }

  lemma StepQuiet(s: Sys, step: Step)
    requires Sound(s) && QuietInv(s)
    ensures QuietInv(Next(s, step))
  {
    hide BufferKept, LossKept, ErrorsKept, FetchKept, Sound;
    hide ReaderStep, CompleteStep, NotifyStep, RxStep, WorkerStep, IntFailsStep, QuiesceStep;
    if step.ReaderGoes? {
      ReaderQuiet(s, step.rv, step.signal, step.fault);
    } else if step.Notify? || step.IntFails? {
      CallbackQuiet(s, step);
    } else if step.RxGoes? || step.WorkerGoes? {
      WorkQuiet(s, step);
    } else if step.Complete? {
      CompleteQuiet(s, step.status, step.data);
    } else {
      OtherQuiet(s, step);
    }
  }

  /**
   * In every run: while a reset or disconnect has made the device quiet, the response URB is
   * poisoned and idle, no work item runs on behalf of a response or is queued, and no reader is inside.
   */
  lemma {:induction false} QuietIsIdle(wMaxCommand: nat, steps: seq<Step>)
    ensures QuietInv(Run(wMaxCommand, steps))
    ensures Run(wMaxCommand, steps).quiesce.Quiet? ==> Run(wMaxCommand, steps).reader.HeldByReset?
  {
    hide Next;
    if steps != [] {
      QuietIsIdle(wMaxCommand, steps[..|steps| - 1]);
      StepQuiet(Run(wMaxCommand, steps[..|steps| - 1]), steps[|steps| - 1]);
    }
  }
}
