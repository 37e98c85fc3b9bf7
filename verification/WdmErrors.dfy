/**
 * Failed responses are told: every error that a response leaves behind is returned by exactly one
 * read, unless a reset or an open replaces it first, and a read that finds one returns nothing else.
 */
module WdmErrors {
  import opened Bytes
  import opened WdmSpec
  import opened WdmResponse
  import opened WdmFlow
  import opened WdmRead

  // ----- conservation -----

  /** Every error that became pending was returned, was replaced, is pending, or is about to be returned. */
  ghost predicate ErrorInv(s: Sys) {
    multiset(s.errors.noted)
    == multiset(s.errors.told) + multiset(s.errors.replaced) + multiset(PendingError(s.dev)) + multiset(Taken(s.reader))
  }

  /** The device after a completion, in plain numbers: -2 is -ENOENT, -104 -ECONNRESET, -108 -ESHUTDOWN, -32 -EPIPE. */
  lemma CallbackExactly(d: Dev, status: int, data: seq<Byte>)
    requires d.Valid()
    ensures var r := InCallback(d, status, data).0;
            && !r.responding && r.respCount == d.respCount
            && r.rerr == (if Fails(status) && d.rerr == 0 then status else d.rerr)
            && r.read == (d.read || r.rerr == 0)
            && InCallback(d, status, data).1 == (r.rerr != 0)
  {
    hide Completed;
    CompletedExactly(d, status, data);
  }

  lemma CompletedExactly(d: Dev, status: int, data: seq<Byte>)
    requires d.Valid()
    ensures var r := Completed(d, status, data);
            && !r.responding && r.respCount == d.respCount && r.read == d.read
            && r.rerr == (if Fails(status) && d.rerr == 0 then status else d.rerr)
  {
    hide Receive;
  }

  /** The URB was killed, or the device is gone. */
  predicate Killed(status: int) {
    status == -2 || status == -104 || status == -108
  }

  /** The response failed. */
  predicate Fails(status: int) {
    status != 0 && status != -32 && !Killed(status)
  }

  /**
   * What a completion does: a URB that was killed brings nothing; otherwise the data is stored,
   * lost, or follows a loss, and a failure is noted if no error is pending. With an error the work
   * item is to serve the next response; without, readers are woken up.
   */
  lemma CompletionExactly(s: Sys, status: int, data: seq<Byte>)
    requires Sound(s) && s.inFlight && |data| <= |s.dev.ubuf|
    ensures var r := Next(s, Complete(status, data));
            var fits := |data| + s.dev.length <= |s.dev.ubuf|;
            var notes := Fails(status) && s.dev.rerr == 0;
            && !r.inFlight && !r.dev.responding && r.dev.respCount == s.dev.respCount && r.reader == s.reader
            && r.accepted == (if !Killed(status) && fits && !s.dev.overflow then s.accepted + data else s.accepted)
            && r.discards == (if !Killed(status) && (!fits || s.dev.overflow) then s.discards + 1 else s.discards)
            && r.dev.rerr == (if notes then status else s.dev.rerr)
            && r.errors == (if notes then s.errors.(noted := s.errors.noted + [status]) else s.errors)
            && r.dev.read == (s.dev.read || r.dev.rerr == 0)
            && r.workQueued == (s.workQueued || r.dev.rerr != 0)
  {
    CallbackExactly(s.dev, status, data);
    hide InCallback, Repeat, BufferKept, LossKept, ErrorsKept, FetchKept, Sound;
  }

  lemma CompleteErrors(s: Sys, status: int, data: seq<Byte>)
    requires Sound(s) && ErrorInv(s) && s.inFlight && |data| <= |s.dev.ubuf|
    ensures ErrorInv(Next(s, Complete(status, data)))
  {
    hide Next;
    CompletionExactly(s, status, data);
  }

  /**
   * The locked check: a read that has passed the wait is about to return an error if and only if
   * one is pending, and then it is that one; afterwards none is.
   */
  lemma CheckTells(s: Sys, step: Step)
    requires Sound(s) && s.reader.LockedCheck? && step.ReaderGoes?
    ensures var r := Next(s, step);
            && (r.reader.Leave? && r.reader.outcome.Translated? <==> s.dev.rerr != 0)
            && (s.dev.rerr != 0 ==> r.reader == Leave(Translated(s.dev.rerr)))
            && Taken(r.reader) == PendingError(s.dev)
            && r.dev.rerr == 0 && r.errors == s.errors
  {
    CheckExactly(s, step);
    hide Next, Dealt;
  }

  /** What a reader is about to return it returns, and another one may come. */
  lemma LeavingTells(s: Sys, step: Step)
    requires Sound(s) && s.reader.Leave? && step.ReaderGoes?
    ensures Next(s, step) == s.(reader := Free, errors := s.errors.(told := s.errors.told + Taken(s.reader)))
  {
    hide BufferKept, LossKept, ErrorsKept, FetchKept, CheckStep, CopyStep, SubmitStep, WaitStep;
  }

  lemma ResetErrors(s: Sys)
    requires Sound(s) && ErrorInv(s) && s.quiesce.Running?
    ensures ErrorInv(ResetStep(s))
  {
    hide BufferKept, LossKept, ErrorsKept, FetchKept, Sound;
  }

  lemma OpenErrors(s: Sys)
    requires Sound(s) && ErrorInv(s)
    ensures ErrorInv(OpenStep(s))
  {
    hide BufferKept, LossKept, ErrorsKept, FetchKept, Sound;
  }

  lemma KeptErrors(s: Sys, r: Sys)
    requires ErrorInv(s) && ErrorsKept(s, r)
    ensures ErrorInv(r)
  {
  }

  lemma Impossible(s: Sys, step: Step)
    requires Sound(s)
    requires || (step.Complete? && !(s.inFlight && |step.data| <= |s.dev.ubuf|))
             || (step.ResetBegins? && !s.quiesce.Running?)
    ensures Next(s, step) == s
  {
    hide BufferKept, LossKept, ErrorsKept, FetchKept;
  }

  lemma StepErrors(s: Sys, step: Step)
    requires Sound(s) && ErrorInv(s)
    ensures ErrorInv(Next(s, step))
  {
    hide ErrorInv, ReaderStep, CompleteStep, ResetStep, OpenStep, BufferKept, LossKept, ErrorsKept, FetchKept, Sound;
    if !TouchesErrors(s, step) {
      KeptErrors(s, Next(s, step));
    } else if step.Complete? {
      if s.inFlight && |step.data| <= |s.dev.ubuf| {
        CompleteErrors(s, step.status, step.data);
      } else {
        Impossible(s, step);
      }
    } else if step.ResetBegins? {
      if s.quiesce.Running? {
        ResetErrors(s);
      } else {
        Impossible(s, step);
      }
    } else if step.Open? {
      OpenErrors(s);
    } else if s.reader.LockedCheck? {
      CheckErrors(s, step);
    } else {
      LeavingErrors(s, step);
    }
  }

  lemma CheckErrors(s: Sys, step: Step)
    requires Sound(s) && ErrorInv(s) && step.ReaderGoes? && s.reader.LockedCheck?
    ensures ErrorInv(Next(s, step))
  {
    hide Next;
    CheckTells(s, step);
  }

  lemma LeavingErrors(s: Sys, step: Step)
    requires Sound(s) && ErrorInv(s) && step.ReaderGoes? && s.reader.Leave?
    ensures ErrorInv(Next(s, step))
  {
    hide Next;
    LeavingTells(s, step);
  }

  /**
   * Over every run, with any failures, resets, opens and faults: counting repetitions, the errors
   * that responses left behind are those that reads returned, those that a reset or an open
   * replaced, the one that is pending, and the one that a reader is about to return.
   */
  lemma {:induction false} ErrorsAreTold(wMaxCommand: nat, steps: seq<Step>)
    ensures ErrorInv(Run(wMaxCommand, steps))
  {
    hide Next;
    if steps != [] {
      ErrorsAreTold(wMaxCommand, steps[..|steps| - 1]);
      StepErrors(Run(wMaxCommand, steps[..|steps| - 1]), steps[|steps| - 1]);
    }
  }

  // ----- a reader gets it -----

  /** A whole call of wdm_read that nobody disturbs. */
  function ReadCall(s: Sys, call: Call): (r: Sys)
    requires Sound(s)
    ensures Sound(r)
  {
    Next(Alone(Next(s, ReadBegins(call)), false, false, 13), ReaderGoes(0, false, false))
  }

  /** A device with an error for a reader, and nothing else. */
  predicate OnlyError(s: Sys) {
    && s.reader.Free? && s.quiesce.Running? && s.dev.rerr != 0 && s.dev.read
    && s.dev.length == 0 && !s.dev.overflow && !s.dev.disconnecting && !s.dev.resetting
  }

  /** The next read returns it, whether it may wait or not, and changes nothing else. */
  lemma ReadTells(s: Sys, call: Call)
    requires Sound(s) && OnlyError(s)
    ensures ReadCall(s, call)
            == s.(dev := s.dev.(rerr := 0), errors := s.errors.(told := s.errors.told + [s.dev.rerr]))
  {
    hide Next, Alone, Sound;
    ReadAlone(s, call, false, false, 13);
    LeavingTells(Alone(Next(s, ReadBegins(call)), false, false, 13), ReaderGoes(0, false, false));
  }

  /**
   * A response that fails without data, in any run without failures so far in which no other is
   * owed: once the work item has run, the next read returns its error.
   */
  lemma FailureReachesReader(wMaxCommand: nat, steps: seq<Step>, status: int, call: Call)
    requires AllSmooth(steps) && status != 0 && status != EPIPE && !Unlinked(status)
    requires var s := Run(wMaxCommand, steps);
             s.inFlight && s.dev.respCount == 1 && s.reader.Free?
    ensures var s := Run(wMaxCommand, steps + [Complete(status, []), WorkerGoes(0)]);
            && s.reader.Free?
            && ReadCall(s, call).errors.told == s.errors.told + [status]
            && ReadCall(s, call).dev.rerr == 0
  {
    hide Run, Next, ReadCall, FlowInv, BufferKept, LossKept, ErrorsKept, FetchKept, TouchesErrors, Reports, Forgets;
    var s := Run(wMaxCommand, steps);
    RunFlow(wMaxCommand, steps);
    var later := [Complete(status, []), WorkerGoes(0)];
    RunOn(wMaxCommand, steps, later);
    var s1 := Next(s, later[0]);
    var s2 := Next(s1, later[1]);
    FailureWakes(s, status);
    StepsCons(s, later);
    assert later[1..] == [later[1]];
    StepsCons(s1, later[1..]);
    StepsNone(s2);
    ReadTells(s2, call);
  }

  lemma FailureWakes(s: Sys, status: int)
    requires FlowInv(s) && s.inFlight && s.dev.respCount == 1 && s.reader.Free?
    requires status != 0 && status != EPIPE && !Unlinked(status)
    ensures var r := Next(Next(s, Complete(status, [])), WorkerGoes(0));
            OnlyError(r) && r.dev.rerr == status
  {
    var s1 := Next(s, Complete(status, []));
    CompletionExactly(s, status, []);
    CompleteLeaves(s, status);
    hide FlowInv, BufferKept, LossKept, ErrorsKept, FetchKept, CompleteStep, ReaderStep, RxStep, NotifyStep, Unlinked;
    assert s1.worker.WorkerIdle? && s1.workQueued && s1.dev.respCount == 1;
  }

  lemma CompleteLeaves(s: Sys, status: int)
    requires FlowInv(s) && s.inFlight && s.reader.Free?
    ensures var r := Next(s, Complete(status, []));
            && r.reader.Free? && r.quiesce.Running? && r.worker.WorkerIdle? && r.dev.length == 0
            && !r.dev.overflow && !r.dev.disconnecting && !r.dev.resetting
  {
    hide BufferKept, LossKept, ErrorsKept, FetchKept, Patch, Repeat;
  }
}
