/**
 * Lost responses are reported: no byte that arrived after a loss reaches a reader before some
 * read has returned -ENOBUFS. Exactly one step can break this: a device reset that forgets a
 * loss nobody was told of.
 */
module WdmGap {
  import opened Bytes
  import opened WdmSpec
  import opened WdmResponse
  import opened WdmQueue

  ghost predicate TagsBelow(tags: seq<nat>, n: nat, bound: nat) {
    n <= |tags| && forall i | 0 <= i < n :: tags[i] <= bound
  }

  ghost predicate GapInv(s: Sys) {
    && |s.tags| == |s.accepted|
    && |s.returned| <= |s.accepted|
    && s.reported <= Covered(s)
    && (if s.dev.overflow then Covered(s) < s.discards else Covered(s) == s.discards)
    && TagsBelow(s.tags, |s.tags|, Covered(s))
    && TagsBelow(s.tags, |s.returned|, s.reported)
  }

  /** A loss sets the flag, and only a loss does. */
  lemma CompleteOverflow(d: Dev, status: int, data: seq<Byte>)
    requires d.Valid()
    ensures InCallback(d, status, data).0.overflow == (d.overflow || Discards(d, status, data))
  {
    hide Patch, Unlinked;
  }

  lemma CompleteGap(s: Sys, status: int, data: seq<Byte>)
    requires Sound(s) && GapInv(s)
    ensures GapInv(CompleteStep(s, status, data))
  {
    hide InCallback, Unlinked;
    CompleteOverflow(s.dev, status, data);
  }

  lemma CopyGap(s: Sys, wMaxCommand: nat, fault: bool)
    requires QueueInv(s, wMaxCommand) && GapInv(s) && s.reader.Copying?
    ensures GapInv(CopyStep(s, fault))
  {
    hide CopyStep;
    assert |s.accepted| == |s.returned| + s.dev.length;
  }

  lemma KeptGap(s: Sys, r: Sys)
    requires GapInv(s) && LossKept(s, r) && BufferKept(s, r)
    ensures GapInv(r)
  {
  }

  /** Clearing the flag and returning -ENOBUFS. */
  lemma ReportGap(s: Sys, rv: int, signal: bool, fault: bool)
    requires Sound(s) && GapInv(s) && (s.reader.ClearOverflow? || s.reader.LeaveNoBufs?)
    ensures GapInv(ReaderStep(s, rv, signal, fault))
  {
    hide CheckStep, CopyStep, SubmitStep, WaitStep, BufferKept, LossKept, ErrorsKept, FetchKept, TagsBelow, Sound;
    TagsWeaken(s.tags, |s.returned|, Covered(s), s.discards);
  }

  lemma TagsWeaken(tags: seq<nat>, n: nat, bound: nat, more: nat)
    requires TagsBelow(tags, |tags|, bound) && n <= |tags| && bound <= more
    ensures TagsBelow(tags, |tags|, more) && TagsBelow(tags, n, bound)
  {
  }

  lemma ForgetGap(s: Sys, step: Step)
    requires Sound(s) && GapInv(s) && Forgets(s, step)
    ensures !GapInv(Next(s, step))
  {
    hide TagsBelow, BufferKept, LossKept, ErrorsKept, FetchKept;
  }

  /** A step keeps the invariant if and only if it does not forget a loss. */
  lemma StepGap(s: Sys, wMaxCommand: nat, step: Step)
    requires QueueInv(s, wMaxCommand) && GapInv(s)
    ensures GapInv(Next(s, step)) <==> !Forgets(s, step)
  {
    hide QueueInv, GapInv, ReaderStep, CompleteStep, LossKept, BufferKept;
    assert Sound(s) by { QueueSound(s, wMaxCommand); }
    if Forgets(s, step) {
      ForgetGap(s, step);
    } else if step.Complete? {
      CompleteGap(s, step.status, step.data);
    } else if step.ReaderGoes? && s.reader.Copying? {
      CopyGap(s, wMaxCommand, step.fault);
      assert Next(s, step) == CopyStep(s, step.fault) by { CopiesNext(s, step); }
    } else if Reports(s, step) {
      ReportGap(s, step.rv, step.signal, step.fault);
    } else {
      KeptGap(s, Next(s, step));
    }
  }

  lemma QueueSound(s: Sys, wMaxCommand: nat)
    requires QueueInv(s, wMaxCommand)
    ensures Sound(s)
  {
  }

  lemma CopiesNext(s: Sys, step: Step)
    requires Sound(s) && step.ReaderGoes? && s.reader.Copying?
    ensures Next(s, step) == CopyStep(s, step.fault)
  {
  }

  // ----- runs -----

  /** No reset of the run forgets a loss. */
  ghost predicate NeverForgets(wMaxCommand: nat, steps: seq<Step>) {
    forall k | 0 <= k < |steps| :: !Forgets(Run(wMaxCommand, steps[..k]), steps[k])
  }

  lemma {:induction false} RunGap(wMaxCommand: nat, steps: seq<Step>)
    requires NeverForgets(wMaxCommand, steps)
    ensures GapInv(Run(wMaxCommand, steps))
  {
    hide Next, GapInv, QueueInv, Forgets, BufferKept, LossKept, ErrorsKept, FetchKept;
    if steps == [] {
      InitGap(wMaxCommand);
    } else {
      var k := |steps| - 1;
      var before := steps[..k];
      forall i | 0 <= i < k
        ensures !Forgets(Run(wMaxCommand, before[..i]), before[i])
      {
        assert before[..i] == steps[..i];
      }
      RunGap(wMaxCommand, before);
      ReadsAreAQueue(wMaxCommand, before);
      StepGap(Run(wMaxCommand, before), wMaxCommand, steps[k]);
    }
  }

  lemma InitGap(wMaxCommand: nat)
    ensures GapInv(Init(wMaxCommand))
  {
  }

  lemma PrefixNeverForgets(wMaxCommand: nat, steps: seq<Step>, k: nat)
    requires NeverForgets(wMaxCommand, steps) && k <= |steps|
    ensures NeverForgets(wMaxCommand, steps[..k])
  {
    hide Run, Forgets;
    forall i | 0 <= i < k
      ensures !Forgets(Run(wMaxCommand, steps[..k][..i]), steps[..k][i])
    {
      assert steps[..k][..i] == steps[..i];
    }
  }

  lemma RunOneMore(wMaxCommand: nat, steps: seq<Step>, k: nat)
    requires k < |steps|
    ensures Run(wMaxCommand, steps[..k + 1]) == Next(Run(wMaxCommand, steps[..k]), steps[k])
  {
    hide Next;
    assert steps[..k + 1][..k] == steps[..k];
  }

  /**
   * In every run in which no reset forgets a loss, whatever fails otherwise: a byte that a
   * reader got arrived before every loss that no reader has been told of.
   */
  lemma GapReporting(wMaxCommand: nat, steps: seq<Step>)
    requires NeverForgets(wMaxCommand, steps)
    ensures var s := Run(wMaxCommand, steps);
            && |s.returned| <= |s.tags|
            && forall i | 0 <= i < |s.returned| :: s.tags[i] <= s.reported
  {
    hide Run;
    RunGap(wMaxCommand, steps);
  }

  // ----- no false alarm -----

  /** A reader that is about to report a loss has found one that was not reported. */
  ghost predicate AlarmInv(s: Sys) {
    && Covered(s) <= s.discards
    && (s.dev.overflow ==> Covered(s) < s.discards)
    && (s.reader.ClearOverflow? ==> s.dev.overflow)
    && (s.reader.LeaveNoBufs? ==> s.reported < s.reader.cleared)
  }

  lemma CompleteAlarm(s: Sys, status: int, data: seq<Byte>)
    requires Sound(s) && AlarmInv(s)
    ensures AlarmInv(CompleteStep(s, status, data))
  {
    hide InCallback, Unlinked;
    CompleteOverflow(s.dev, status, data);
  }

  lemma ReaderAlarm(s: Sys, rv: int, signal: bool, fault: bool)
    requires Sound(s) && AlarmInv(s)
    ensures AlarmInv(ReaderStep(s, rv, signal, fault))
  {
    hide CheckStep, CopyStep, SubmitStep, WaitStep, BufferKept, Sound;
  }

  lemma StepAlarm(s: Sys, step: Step)
    requires Sound(s) && AlarmInv(s)
    ensures AlarmInv(Next(s, step))
  {
    hide ReaderStep, CompleteStep, BufferKept;
    if step.Complete? {
      if s.inFlight && |step.data| <= |s.dev.ubuf| {
        CompleteAlarm(s, step.status, step.data);
      }
    } else if step.ReaderGoes? {
      ReaderAlarm(s, step.rv, step.signal, step.fault);
    }
  }

  /** In every run, resets included, a read returns -ENOBUFS only for a loss that no read has reported. */
  lemma {:induction false} NoFalseAlarm(wMaxCommand: nat, steps: seq<Step>)
    ensures var s := Run(wMaxCommand, steps);
            && AlarmInv(s)
            && (s.reader.LeaveNoBufs? ==> s.reported < s.reader.cleared <= s.discards)
  {
    hide Next;
    if steps != [] {
      NoFalseAlarm(wMaxCommand, steps[..|steps| - 1]);
      StepAlarm(Run(wMaxCommand, steps[..|steps| - 1]), steps[|steps| - 1]);
    }
  }

  // ----- a reset that forgets a loss -----

  const PROTOCOL_ERROR := -71

  /** A one-byte buffer is full when a second response arrives. */
  const FILL: seq<Step> := [Notify(0), Notify(0), Complete(PROTOCOL_ERROR, [7])]
  const LOSE: seq<Step> := [WorkerGoes(0), WorkerGoes(0), WorkerGoes(0), Complete(0, [8])]
  const PRE_RESET: seq<Step> := [ResetBegins, QuiesceGoes, QuiesceGoes, QuiesceGoes]
  const POST_RESET: seq<Step> := [QuiesceGoes, QuiesceGoes, QuiesceGoes]
  const COPY: seq<Step> := [ReadBegins(Call(1, true)), ReaderGoes(0, false, false), ReaderGoes(0, false, false)]
  const TAKE: seq<Step> := [ReaderGoes(0, false, false), ReaderGoes(0, false, false)]
  const MORE: seq<Step> := [Notify(0), Complete(0, [9])]

  function Full(read: bool, rerr: int, respCount: nat): Dev {
    NewDev(1).(ubuf := [7], length := 1, reslength := 1, respCount := respCount, read := read, rerr := rerr)
  }

  function Filled(): (s: Sys)
    ensures Sound(s)
  {
    Init(1).(dev := Full(false, PROTOCOL_ERROR, 2), workQueued := true, notes := 2, submits := 1,
             accepted := [7], tags := [0], errors := Errors([PROTOCOL_ERROR], [], []))
  }

  function Lossy(): (s: Sys)
    ensures Sound(s)
  {
    Filled().(dev := Full(false, PROTOCOL_ERROR, 1).(overflow := true), submits := 2, discards := 1)
  }

  function Resetting(): (s: Sys)
    ensures Sound(s)
  {
    Lossy().(dev := PreReset(Lossy().dev), workQueued := false, poisoned := true, reader := HeldByReset,
             quiesce := Quiet(true), errors := Errors([PROTOCOL_ERROR, EINTR], [], [PROTOCOL_ERROR]))
  }

  function AfterReset(): (s: Sys)
    ensures Sound(s)
  {
    Lossy().(dev := Full(true, EINTR, 1), workQueued := false, errors := Resetting().errors)
  }

  function AfterRead(): (s: Sys)
    ensures Sound(s)
  {
    AfterReset().(dev := Full(false, EINTR, 0).(length := 0), returned := [7])
  }

  function AfterMore(): (s: Sys)
    ensures Sound(s)
  {
    AfterRead().(dev := Full(false, EINTR, 1).(ubuf := [9]), workQueued := true, notes := 3, submits := 3,
                 accepted := [7, 9], tags := [0, 1])
  }

  lemma FillHappens()
    ensures Steps(Init(1), FILL) == Filled()
  {
    hide ReaderStep, QuiesceStep, RxStep, WorkerStep, BufferKept, LossKept, ErrorsKept, FetchKept, Sound;
    assert Patch(Zeros(1), 0, [7]) == [7];
    assert Repeat(0, 1) == [0];
    StepsCons(Init(1), FILL);
    StepsCons(Next(Init(1), FILL[0]), FILL[1..]);
  }

  lemma LossHappens()
    ensures Steps(Filled(), LOSE) == Lossy()
  {
    hide ReaderStep, QuiesceStep, RxStep, NotifyStep, BufferKept, LossKept, ErrorsKept, FetchKept;
  }

  lemma PreResetHappens()
    ensures Steps(Lossy(), PRE_RESET) == Resetting()
  {
    hide ReaderStep, RxStep, NotifyStep, WorkerStep, CompleteStep, BufferKept, LossKept, ErrorsKept, FetchKept;
  }

  lemma PostResetHappens()
    ensures Steps(Resetting(), POST_RESET) == AfterReset()
  {
    hide ReaderStep, RxStep, NotifyStep, WorkerStep, CompleteStep, BufferKept, LossKept, ErrorsKept, FetchKept;
  }

  /** A read of the one byte in the buffer, when no further response is owed. */
  lemma Copies(s: Sys)
    requires Sound(s) && s.reader.Free? && s.dev.length == 1
    ensures Steps(s, COPY) == s.(reader := Copying(1, [s.dev.ubuf[0]]))
  {
    hide Steps, QuiesceStep, RxStep, NotifyStep, WorkerStep, CompleteStep, CheckStep, SubmitStep;
    hide BufferKept, LossKept, ErrorsKept, FetchKept;
    StepsCons(s, COPY);
    TwoSteps(Next(s, COPY[0]), COPY[1], COPY[2]);
    assert COPY[1..] == [COPY[1], COPY[2]];
  }

  function Emptied(s: Sys): Sys
    requires Sound(s) && s.dev.length == 1
  {
    s.(dev := s.dev.(length := 0, read := false, respCount := 0), returned := s.returned + [s.dev.ubuf[0]])
  }

  lemma Consumes(s: Sys)
    requires Sound(s) && s.reader.Free? && s.dev.length == 1 && s.dev.respCount == 1
    ensures CopyStep(s.(reader := Copying(1, [s.dev.ubuf[0]])), false) == Emptied(s).(reader := Leave(Got(1)))
  {
    assert ShiftLeft(s.dev.ubuf, 1, 1) == s.dev.ubuf;
    hide ShiftLeft, BufferKept, LossKept, ErrorsKept, FetchKept;
  }

  lemma TwoSteps(s: Sys, a: Step, b: Step)
    requires Sound(s)
    ensures Steps(s, [a, b]) == Next(Next(s, a), b)
  {
    hide Next, Sound, BufferKept, LossKept, ErrorsKept, FetchKept, Reports, Forgets;
    StepsCons(s, [a, b]);
    StepsCons(Next(s, a), [b]);
  }

  lemma LeavesNext(s: Sys)
    requires Sound(s) && s.reader.Leave? && s.reader.outcome.Got?
    ensures Next(s, ReaderGoes(0, false, false)) == s.(reader := Free)
  {
    hide CheckStep, CopyStep, SubmitStep, WaitStep, BufferKept, LossKept, ErrorsKept, FetchKept;
    assert s.errors.told + [] == s.errors.told;
  }

  lemma Takes(s: Sys)
    requires Sound(s) && s.reader.Free? && s.dev.length == 1 && s.dev.respCount == 1
    ensures Steps(s.(reader := Copying(1, [s.dev.ubuf[0]])), TAKE) == Emptied(s)
  {
    hide Next, Steps, CopyStep, BufferKept, LossKept, ErrorsKept, FetchKept;
    var copied := s.(reader := Copying(1, [s.dev.ubuf[0]]));
    Consumes(s);
    CopiesNext(copied, TAKE[0]);
    LeavesNext(CopyStep(copied, false));
    TwoSteps(copied, TAKE[0], TAKE[1]);
  }

  lemma MoreHappens()
    ensures Steps(AfterRead(), MORE) == AfterMore()
  {
    hide ReaderStep, QuiesceStep, RxStep, WorkerStep, BufferKept, LossKept, ErrorsKept, FetchKept;
  }

  /** One more segment of a run that is in state `s`. */
  lemma Segment(before: seq<Step>, s: Sys, segment: seq<Step>, s': Sys)
    requires Run(1, before) == s && Sound(s) && Steps(s, segment) == s'
    ensures Run(1, before + segment) == s'
  {
    hide Run, Steps, Sound;
    RunOn(1, before, segment);
  }

  lemma ReadOne(before: seq<Step>, s: Sys)
    requires Run(1, before) == s && s.reader.Free? && s.dev.length == 1 && s.dev.respCount == 1
    ensures Run(1, before + COPY + TAKE) == Emptied(s)
  {
    hide Steps, BufferKept, LossKept, ErrorsKept, FetchKept;
    Copies(s);
    Takes(s);
    Segment(before, s, COPY, s.(reader := Copying(1, [s.dev.ubuf[0]])));
    Segment(before + COPY, s.(reader := Copying(1, [s.dev.ubuf[0]])), TAKE, Emptied(s));
  }

  const TO_RESET: seq<Step> := FILL + LOSE + PRE_RESET + POST_RESET

  lemma ToReset()
    ensures Run(1, TO_RESET) == AfterReset()
  {
    hide Steps, BufferKept, LossKept, ErrorsKept, FetchKept;
    FillHappens();
    LossHappens();
    PreResetHappens();
    PostResetHappens();
    assert [] + FILL == FILL;
    Segment([], Init(1), FILL, Filled());
    Segment(FILL, Filled(), LOSE, Lossy());
    Segment(FILL + LOSE, Lossy(), PRE_RESET, Resetting());
    Segment(FILL + LOSE + PRE_RESET, Resetting(), POST_RESET, AfterReset());
  }

  /**
   * A response is lost, the device is reset, and then a reader gets a byte that arrived after
   * the loss although no read has returned -ENOBUFS.
   */
  lemma ResetHidesLoss()
    ensures var s := Run(1, TO_RESET + COPY + TAKE + MORE + COPY + TAKE);
            s.returned == [7, 9] && s.tags == [0, 1] && s.reported == 0
  {
    hide Steps, Run, BufferKept, LossKept, ErrorsKept, FetchKept;
    var read := TO_RESET + COPY + TAKE;
    ToReset();
    ReadOne(TO_RESET, AfterReset());
    MoreHappens();
    Segment(read, AfterRead(), MORE, AfterMore());
    ReadOne(read + MORE, AfterMore());
  }
}
