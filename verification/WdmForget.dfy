/**
 * What a reset that forgets a loss does to readers: from then on some reader can get a byte that
 * arrived after the loss although no read has reported it, and only such a reset makes that
 * possible.
 */
module WdmForget {
  import opened Bytes
  import opened WdmSpec
  import opened WdmResponse
  import opened WdmQueue
  import opened WdmGap

  /** A reader got a byte that arrived after a loss that no read has reported. */
  ghost predicate Misleads(s: Sys) {
    exists i | 0 <= i < |s.returned| && i < |s.tags| :: s.tags[i] > s.reported
  }

  /** No reset forgets a loss while the run goes on from `s`. */
  ghost predicate NoForget(s: Sys, later: seq<Step>)
    requires Sound(s)
    decreases |later|
  {
    later == [] || (!Forgets(s, later[0]) && NoForget(Next(s, later[0]), later[1..]))
  }

  /** The run can go on so that a reader is misled, without forgetting another loss. */
  ghost predicate CanMislead(s: Sys)
    requires Sound(s)
  {
    exists later :: NoForget(s, later) && Misleads(Steps(s, later))
  }

  lemma Shows(s: Sys)
    requires Sound(s) && Misleads(s)
    ensures CanMislead(s)
  {
    hide Next, Misleads, Forgets;
    StepsNone(s);
    assert NoForget(s, []);
  }

  lemma Prepend(s: Sys, step: Step)
    requires Sound(s) && !Forgets(s, step) && CanMislead(Next(s, step))
    ensures CanMislead(s)
  {
    hide Next, Misleads, Forgets, Steps, Sound, BufferKept, LossKept, ErrorsKept, FetchKept, Reports;
    var later :| NoForget(Next(s, step), later) && Misleads(Steps(Next(s, step), later));
    var all := [step] + later;
    assert all[0] == step && all[1..] == later;
    StepsCons(s, all);
    assert NoForget(s, all);
  }

  // ----- a read of all that waits -----

  /** A reader may come, and when the buffer is empty no fetch follows. */
  ghost predicate ReadyForReader(s: Sys) {
    Sound(s) && s.quiesce.Running? && s.dev.length > 0 && s.dev.respCount <= 1
  }

  ghost function Drained(s: Sys): (r: Sys)
    requires Sound(s) && s.quiesce.Running?
    ensures Sound(r)
  {
    var ubuf := ShiftLeft(s.dev.ubuf, s.dev.length, s.dev.length);
    var d := s.dev.(ubuf := ubuf, length := 0, read := false, respCount := 0);
    s.(dev := d, returned := s.returned + s.dev.Waiting(), reader := Free)
  }

  lemma CopyGoesOn(s: Sys)
    requires ReadyForReader(s) && s.reader.Copying? && s.reader.cntr == s.dev.length
    requires |s.reader.copied| < s.dev.length && s.reader.copied == s.dev.ubuf[..|s.reader.copied|]
    ensures var n := |s.reader.copied|;
            Next(s, ReaderGoes(0, false, false)) == s.(reader := Copying(s.dev.length, s.dev.ubuf[..n + 1]))
  {
    hide BufferKept, LossKept, ErrorsKept, FetchKept;
    var n := |s.reader.copied|;
    assert s.dev.ubuf[..n + 1] == s.dev.ubuf[..n] + [s.dev.ubuf[n]];
  }

  /** No fetch follows when at most one response is owed. */
  lemma LastService(s: Sys, d: Dev, n: nat)
    requires s.quiesce.Running? && |s.tags| == |s.accepted| && !s.reader.LeaveNoBufs?
    requires d.Valid() && d.respCount <= 1
    ensures ReaderService(s, d, Return(n)) == s.(dev := d.(respCount := 0), reader := Leave(Got(n)))
  {
    hide BufferKept, LossKept, ErrorsKept, FetchKept;
    assert ServiceBegin(d) == (d.(respCount := 0), Done(0));
    hide ServiceBegin;
  }

  lemma CopyEnds(s: Sys)
    requires ReadyForReader(s) && s.reader == Copying(s.dev.length, s.dev.Waiting())
    ensures Next(s, ReaderGoes(0, false, false)) == Drained(s).(reader := Leave(Got(s.dev.length)))
  {
    hide Next, BufferKept, LossKept, ErrorsKept, FetchKept, ShiftLeft, ReaderService;
    CopiesNext(s, ReaderGoes(0, false, false));
    LastService(s.(returned := s.returned + s.dev.Waiting()), Consume(s.dev, s.dev.length).0, s.dev.length);
  }

  lemma {:induction false} DrainsOn(s: Sys)
    requires ReadyForReader(s) && s.reader.Copying? && s.reader.cntr == s.dev.length
    requires s.reader.copied == s.dev.ubuf[..|s.reader.copied|] && CanMislead(Drained(s))
    ensures CanMislead(s)
    decreases s.dev.length - |s.reader.copied|
  {
    hide Next, CanMislead, BufferKept, LossKept, ErrorsKept, FetchKept;
    var step := ReaderGoes(0, false, false);
    if |s.reader.copied| < s.dev.length {
      CopyGoesOn(s);
      DrainsOn(Next(s, step));
    } else {
      CopyEnds(s);
      var left := Drained(s).(reader := Leave(Got(s.dev.length)));
      LeavesNext(left);
      Prepend(left, step);
    }
    Prepend(s, step);
  }

  lemma ReadAll(s: Sys)
    requires ReadyForReader(s) && s.reader.Free? && CanMislead(Drained(s))
    ensures CanMislead(s)
  {
    var begin := ReadBegins(Call(s.dev.length, true));
    var s1 := Next(s, begin);
    var s2 := Next(s1, ReaderGoes(0, false, false));
    assert s1 == s.(reader := Begin(Call(s.dev.length, true)));
    assert s2 == s.(reader := Copying(s.dev.length, []));
    hide Next, CanMislead, BufferKept, LossKept, ErrorsKept, FetchKept;
    DrainsOn(s2);
    Prepend(s1, ReaderGoes(0, false, false));
    Prepend(s, begin);
  }

  // ----- from a loss that nobody is told of to a reader that is misled -----

  /** A loss is neither reported nor about to be, and the device works. */
  ghost predicate Lost(s: Sys, wMaxCommand: nat) {
    && QueueInv(s, wMaxCommand) && 0 < wMaxCommand
    && s.reported < s.discards && !s.dev.overflow && !s.dev.disconnecting && !s.poisoned
  }

  /** No reader, reset or interrupt callback is at work. */
  predicate Still(s: Sys) {
    s.reader.Free? && s.quiesce.Running? && s.intCb.IntIdle? && !s.inFlight
  }

  /** Nothing is owed or failed either. */
  predicate Fresh(s: Sys) {
    Still(s) && s.dev.respCount == 0 && !s.dev.responding && s.dev.rerr == 0
  }

  lemma LateByteShows(s: Sys, wMaxCommand: nat)
    requires QueueInv(s, wMaxCommand) && ReadyForReader(s) && s.reader.Free?
    requires s.tags[|s.tags| - 1] > s.reported
    ensures CanMislead(s)
  {
    var r := Drained(s);
    assert r.returned == s.accepted;
    assert Misleads(r);
    hide CanMislead, Misleads, BufferKept, LossKept, ErrorsKept, FetchKept, Drained;
    Shows(r);
    ReadAll(s);
  }

  /** A notification is answered by one byte. */
  lemma ByteArrives(s: Sys, wMaxCommand: nat)
    requires Lost(s, wMaxCommand) && Fresh(s) && s.dev.length == 0
    ensures CanMislead(s)
  {
    var s1 := Next(s, Notify(0));
    var s2 := Next(s1, Complete(0, [7]));
    assert s1 == s.(dev := s.dev.(responding := true, respCount := 1), notes := s.notes + 1,
                    inFlight := true, submits := s.submits + 1);
    StepKeeps(s, wMaxCommand, Notify(0));
    StepKeeps(s1, wMaxCommand, Complete(0, [7]));
    assert s2 == CompleteStep(s1, 0, [7]);
    assert s2.dev.length == 1 && s2.dev.respCount == 1 && s2.tags == s.tags + Repeat(s.discards, 1) by {
      hide Patch, QueueInv, BufferKept, LossKept, ErrorsKept, FetchKept;
    }
    hide Next, CanMislead, BufferKept, LossKept, ErrorsKept, FetchKept, QueueInv, CompleteStep, Patch;
    LateByteShows(s2, wMaxCommand);
    Prepend(s1, Complete(0, [7]));
    Prepend(s, Notify(0));
  }

  lemma FreshMisleads(s: Sys, wMaxCommand: nat)
    requires Lost(s, wMaxCommand) && Fresh(s)
    ensures CanMislead(s)
  {
    hide CanMislead, BufferKept, LossKept, ErrorsKept, FetchKept, ShiftLeft;
    if s.dev.length == 0 {
      ByteArrives(s, wMaxCommand);
    } else {
      var r := Drained(s);
      assert r.returned + r.dev.Waiting() == s.accepted;
      ByteArrives(r, wMaxCommand);
      ReadAll(s);
    }
  }

  /** The last file is closed, and the device is opened again. */
  lemma StillMisleads(s: Sys, wMaxCommand: nat)
    requires Lost(s, wMaxCommand) && Still(s)
    ensures CanMislead(s)
  {
    var s1 := Next(s, Release);
    var s2 := Next(s1, Open);
    assert s1 == s.(dev := s.dev.(respCount := 0, responding := false));
    assert s2 == OpenStep(s1);
    hide Next, CanMislead, BufferKept, LossKept, ErrorsKept, FetchKept;
    FreshMisleads(s2, wMaxCommand);
    Prepend(s1, Open);
    Prepend(s, Release);
  }

  /** A response in flight ends without a byte. */
  lemma FlightEnds(s: Sys, wMaxCommand: nat)
    requires Lost(s, wMaxCommand) && s.reader.Free? && s.quiesce.Running? && s.intCb.IntIdle?
    ensures CanMislead(s)
  {
    if !s.inFlight {
      StillMisleads(s, wMaxCommand);
      return;
    }
    var step := Complete(0, []);
    var s1 := Next(s, step);
    assert s1 == CompleteStep(s, 0, []);
    StepKeeps(s, wMaxCommand, step);
    assert s1.tags == s.tags + Repeat(s.discards, 0);
    hide Next, CanMislead, BufferKept, LossKept, ErrorsKept, FetchKept, QueueInv, Patch;
    StillMisleads(s1, wMaxCommand);
    Prepend(s, step);
  }

  /** wdm_int_callback ends. */
  lemma CallbackEnds(s: Sys, wMaxCommand: nat)
    requires Lost(s, wMaxCommand) && s.reader.Free? && s.quiesce.Running?
    ensures CanMislead(s)
  {
    hide CanMislead, BufferKept, LossKept, ErrorsKept, FetchKept;
    if s.intCb.IntIdle? {
      FlightEnds(s, wMaxCommand);
    } else {
      FlightEnds(Next(s, IntFails), wMaxCommand);
      Prepend(s, IntFails);
    }
  }

  /** wdm_post_reset ends. */
  lemma ResetEnds(s: Sys, wMaxCommand: nat)
    requires Lost(s, wMaxCommand) && s.quiesce.OverflowCleared?
    ensures CanMislead(s)
  {
    hide CanMislead, BufferKept, LossKept, ErrorsKept, FetchKept;
    CallbackEnds(Next(s, QuiesceGoes), wMaxCommand);
    Prepend(s, QuiesceGoes);
  }

  // ----- runs -----

  /** After a reset forgets a loss, a reader can be misled. */
  lemma ForgettingMisleads(s: Sys, wMaxCommand: nat, step: Step)
    requires QueueInv(s, wMaxCommand) && AlarmInv(s) && 0 < wMaxCommand && !s.dev.disconnecting && Forgets(s, step)
    ensures CanMislead(Next(s, step))
  {
    var r := Next(s, step);
    StepKeeps(s, wMaxCommand, step);
    assert r == s.(dev := s.dev.(overflow := false), quiesce := OverflowCleared);
    hide CanMislead, Next, BufferKept, LossKept, ErrorsKept, FetchKept;
    ResetEnds(r, wMaxCommand);
  }

  // ----- runs -----

  lemma Longer(wMaxCommand: nat, before: seq<Step>, step: Step)
    requires NeverForgets(wMaxCommand, before) && !Forgets(Run(wMaxCommand, before), step)
    ensures NeverForgets(wMaxCommand, before + [step])
    ensures Run(wMaxCommand, before + [step]) == Next(Run(wMaxCommand, before), step)
  {
    hide Next, Forgets, Sound, BufferKept, LossKept, ErrorsKept, FetchKept, Reports;
    var longer := before + [step];
    assert longer[..|before|] == before;
    hide Run;
    forall k | 0 <= k < |longer|
      ensures !Forgets(Run(wMaxCommand, longer[..k]), longer[k])
    {
      assert k < |before| ==> longer[..k] == before[..k];
    }
  }

  lemma {:induction false} NoForgetRun(wMaxCommand: nat, before: seq<Step>, later: seq<Step>)
    requires NeverForgets(wMaxCommand, before) && NoForget(Run(wMaxCommand, before), later)
    ensures NeverForgets(wMaxCommand, before + later)
    decreases |later|
  {
    hide Next, Forgets, Sound, BufferKept, LossKept, ErrorsKept, FetchKept, Reports, TouchesErrors, Run, NeverForgets;
    if later == [] {
      assert before + later == before;
    } else {
      Longer(wMaxCommand, before, later[0]);
      NoForgetRun(wMaxCommand, before + [later[0]], later[1..]);
      assert before + [later[0]] + later[1..] == before + later;
    }
  }

  /** As long as no reset forgets a loss, nothing that follows can mislead a reader. */
  lemma Honest(wMaxCommand: nat, steps: seq<Step>)
    requires NeverForgets(wMaxCommand, steps)
    ensures !CanMislead(Run(wMaxCommand, steps))
  {
    hide Run, Forgets, NeverForgets, BufferKept, LossKept, ErrorsKept, FetchKept;
    var s := Run(wMaxCommand, steps);
    if CanMislead(s) {
      var later :| NoForget(s, later) && Misleads(Steps(s, later));
      NoForgetRun(wMaxCommand, steps, later);
      RunOn(wMaxCommand, steps, later);
      hide NoForget, Steps;
      GapReporting(wMaxCommand, steps + later);
      assert false;
    }
  }

  /** The device is not unplugged during the run. */
  ghost predicate Connected(wMaxCommand: nat, steps: seq<Step>) {
    forall k | 0 <= k <= |steps| :: !Run(wMaxCommand, steps[..k]).dev.disconnecting
  }

  /** Into a buffer of no bytes nothing is lost, because nothing can arrive. */
  lemma NothingLost(s: Sys, step: Step)
    requires QueueInv(s, 0) && AlarmInv(s) && s.discards == 0
    ensures Next(s, step).discards == 0
  {
    hide CheckStep, CopyStep, SubmitStep, WaitStep, BufferKept, InCallback, QuiesceStep;
    hide NotifyStep, IntFailsStep, WorkerStep, RxStep;
  }

  lemma {:induction false} RunNothingLost(steps: seq<Step>)
    ensures Run(0, steps).discards == 0
  {
    hide Next, QueueInv, AlarmInv, BufferKept, LossKept, ErrorsKept, FetchKept;
    if steps != [] {
      var before := steps[..|steps| - 1];
      RunNothingLost(before);
      ReadsAreAQueue(0, before);
      NoFalseAlarm(0, before);
      NothingLost(Run(0, before), steps[|steps| - 1]);
    }
  }

  /** A loss that is forgotten needs a buffer. */
  lemma HasBuffer(wMaxCommand: nat, steps: seq<Step>, step: Step)
    requires Forgets(Run(wMaxCommand, steps), step)
    ensures 0 < wMaxCommand
  {
    hide Run;
    NoFalseAlarm(wMaxCommand, steps);
    if wMaxCommand == 0 {
      RunNothingLost(steps);
    }
  }

  lemma ForgetShows(wMaxCommand: nat, steps: seq<Step>, k: nat)
    requires Connected(wMaxCommand, steps) && k < |steps|
    ensures Forgets(Run(wMaxCommand, steps[..k]), steps[k]) ==> CanMislead(Run(wMaxCommand, steps[..k + 1]))
  {
    hide Run, Forgets, CanMislead, QueueInv, AlarmInv, BufferKept, LossKept, ErrorsKept, FetchKept;
    if Forgets(Run(wMaxCommand, steps[..k]), steps[k]) {
      ReadsAreAQueue(wMaxCommand, steps[..k]);
      NoFalseAlarm(wMaxCommand, steps[..k]);
      HasBuffer(wMaxCommand, steps[..k], steps[k]);
      ForgettingMisleads(Run(wMaxCommand, steps[..k]), wMaxCommand, steps[k]);
      RunOneMore(wMaxCommand, steps, k);
    }
  }

  /**
   * Readers are told of losses exactly: at no moment of a run can it go on, without forgetting
   * another loss, to a reader that gets a byte from behind a loss not reported, if and only if
   * no reset of the run forgets a loss.
   */
  lemma MisledExactly(wMaxCommand: nat, steps: seq<Step>)
    requires Connected(wMaxCommand, steps)
    ensures (forall k | 0 <= k <= |steps| :: !CanMislead(Run(wMaxCommand, steps[..k])))
        <==> NeverForgets(wMaxCommand, steps)
  {
    hide Run, Forgets, CanMislead, QueueInv, AlarmInv, BufferKept, LossKept, ErrorsKept, FetchKept;
    if NeverForgets(wMaxCommand, steps) {
      forall k | 0 <= k <= |steps|
        ensures !CanMislead(Run(wMaxCommand, steps[..k]))
      {
        PrefixNeverForgets(wMaxCommand, steps, k);
        Honest(wMaxCommand, steps[..k]);
      }
    }
    if forall k | 0 <= k <= |steps| :: !CanMislead(Run(wMaxCommand, steps[..k])) {
      forall k | 0 <= k < |steps|
        ensures !Forgets(Run(wMaxCommand, steps[..k]), steps[k])
      {
        assert !CanMislead(Run(wMaxCommand, steps[..k + 1]));
        ForgetShows(wMaxCommand, steps, k);
      }
    }
  }
}
