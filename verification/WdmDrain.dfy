/**
 * Every notification is answered in the end: from every state of a run without failures, once
 * the device replies to what is fetched and somebody reads, a bounded number of steps brings the
 * driver to rest, with as many fetches as notifications and every byte returned.
 */
module WdmDrain {
  import opened Bytes
  import opened WdmSpec
  import opened WdmResponse
  import opened WdmQueue
  import opened WdmFlow

  // ----- who moves next -----

  /** The device replies to a fetch; otherwise the reader goes on, or one comes for all that waits. */
  function Turn(s: Sys, reply: nat -> seq<Byte>): Step {
    if s.inFlight then Complete(0, reply(s.submits))
    else if s.reader.Free? then ReadBegins(Call(s.dev.length, true))
    else ReaderGoes(0, false, false)
  }

  /** At most `k` such steps, until the driver is at rest. */
  function Schedule(s: Sys, reply: nat -> seq<Byte>, k: nat): (later: seq<Step>)
    requires Sound(s)
    ensures |later| <= k
    decreases k
  {
    if k == 0 || Idle(s) then []
    else [Turn(s, reply)] + Schedule(Next(s, Turn(s, reply)), reply, k - 1)
  }

  // ----- how far it is -----

  /** The reader will take all that waits, or find the response empty. */
  predicate Finishes(reader: Reader, length: nat) {
    match reader
    case Begin(call) => call.count >= length
    case TestGone(call) => call.count >= length
    case TestOverflow(call) => call.count >= length
    case AwaitRead(call) => call.count >= length
    case TestGoneAgain(call, interrupted) => call.count >= length && !interrupted
    case TestReset(call, interrupted) => call.count >= length && !interrupted
    case LockedCheck(call) => call.count >= length
    case Copying(cntr, _) => cntr == length
    case _ => false
  }

  /** A bound on the steps of a reader until it has copied; `size` is that of the buffer. */
  function ToCopied(reader: Reader, size: nat): nat {
    match reader
    case Begin(_) => size + 8
    case TestGone(_) => size + 7
    case TestOverflow(_) => size + 6
    case AwaitRead(_) => size + 5
    case TestGoneAgain(_, _) => size + 4
    case TestReset(_, _) => size + 3
    case LockedCheck(_) => size + 2
    case Copying(cntr, copied) => if |copied| <= cntr then cntr - |copied| + 1 else 0
    case _ => 0
  }

  /** A bound on the steps until a response that is ready has been read. */
  function ToRead(reader: Reader, length: nat, size: nat): nat {
    if reader.Free? then size + 9
    else if reader.Leave? then size + 10
    else if reader.Submitted? then 2 * size + 30
    else ToCopied(reader, size) + (if Finishes(reader, length) then 0 else size + 12)
  }

  /** A bound on the steps until the response in hand is fetched and read. */
  function InHand(s: Sys): nat {
    var size := |s.dev.ubuf|;
    if s.reader.Submitting? then 2 * size + 32
    else if s.inFlight then 2 * size + 31
    else ToRead(s.reader, s.dev.length, size)
  }

  /** A bound on the steps until nothing is owed any more. */
  function ToRest(s: Sys): nat {
    s.dev.respCount * (2 * |s.dev.ubuf| + 33) + InHand(s)
  }

  /** It grows with what is owed and with the size of the buffer only. */
  function RestBound(respCount: nat, size: nat): nat {
    (respCount + 1) * (2 * size + 33)
  }

  // ----- every step gets nearer -----

  /** The step makes the driver rest, or brings it nearer to that. */
  ghost predicate Nearer(s: Sys, r: Sys) {
    && |r.dev.ubuf| == |s.dev.ubuf| && r.notes == s.notes
    && (Idle(r) || ToRest(r) < ToRest(s))
  }

  /** The response in hand gets nearer. */
  lemma InHandNearer(s: Sys, r: Sys)
    requires |r.dev.ubuf| == |s.dev.ubuf| && r.notes == s.notes
    requires r.dev.respCount == s.dev.respCount && InHand(r) < InHand(s)
    ensures Nearer(s, r)
  {
    hide InHand;
  }

  /** A response that was read is owed no longer. */
  lemma ServedNearer(s: Sys, d: Dev, after: After)
    requires Sound(s) && !s.inFlight && !s.reader.Submitting? && !s.reader.LeaveNoBufs? && s.quiesce.Running?
    requires d.Valid() && |d.ubuf| == |s.dev.ubuf| && !d.read && d.respCount == s.dev.respCount >= 1
    requires !d.disconnecting && !d.resetting
    ensures Nearer(s, ReaderService(s, d, after))
  {
    hide BufferKept, LossKept, ErrorsKept, FetchKept, Sound;
    var k := 2 * |s.dev.ubuf| + 33;
    var n := s.dev.respCount;
    assert n * k == (n - 1) * k + k;
  }

  lemma CompleteNearer(s: Sys, data: seq<Byte>)
    requires FlowInv(s) && s.inFlight && |data| <= |s.dev.ubuf|
    ensures Nearer(s, CompleteStep(s, 0, data))
  {
    hide Patch, BufferKept, LossKept, ErrorsKept, FetchKept;
    InHandNearer(s, CompleteStep(s, 0, data));
  }

  lemma CheckNearer(s: Sys)
    requires FlowInv(s) && !s.inFlight && s.reader.LockedCheck?
    ensures Nearer(s, CheckStep(s, s.reader.call))
  {
    hide ReaderService, BufferKept, LossKept, ErrorsKept, FetchKept;
    if CheckOf(s.dev).ZeroLength? {
      ServedNearer(s, AfterCheck(s.dev), Retry(s.reader.call));
    } else {
      InHandNearer(s, CheckStep(s, s.reader.call));
    }
  }

  lemma CopyNearer(s: Sys)
    requires FlowInv(s) && !s.inFlight && s.reader.Copying?
    ensures Nearer(s, CopyStep(s, false))
  {
    hide ReaderService, ShiftLeft, BufferKept, LossKept, ErrorsKept, FetchKept;
    if |s.reader.copied| == s.reader.cntr == s.dev.length {
      var d := Consume(s.dev, s.reader.cntr).0;
      ServedNearer(s.(returned := s.returned + s.reader.copied), d, Return(s.reader.cntr));
    } else {
      InHandNearer(s, CopyStep(s, false));
    }
  }

  lemma SubmitNearer(s: Sys)
    requires FlowInv(s) && !s.inFlight && (s.reader.Submitting? || s.reader.Submitted?)
    ensures Nearer(s, SubmitStep(s, 0))
  {
    hide BufferKept, LossKept, ErrorsKept, FetchKept;
    InHandNearer(s, SubmitStep(s, 0));
  }

  lemma WaitNearer(s: Sys)
    requires FlowInv(s) && !Idle(s) && !s.inFlight
    requires !s.reader.Free? && !s.reader.LockedCheck? && !s.reader.Copying? && !s.reader.Submitting?
    requires !s.reader.Submitted? && !s.reader.Leave?
    ensures Nearer(s, WaitStep(s, false))
  {
    hide BufferKept, LossKept, ErrorsKept, FetchKept;
    InHandNearer(s, WaitStep(s, false));
  }

  lemma ReaderNearer(s: Sys)
    requires FlowInv(s) && !Idle(s) && !s.inFlight && !s.reader.Free?
    ensures Nearer(s, ReaderStep(s, 0, false, false))
  {
    hide CheckStep, CopyStep, SubmitStep, WaitStep, BufferKept, LossKept, ErrorsKept, FetchKept;
    if s.reader.LockedCheck? {
      CheckNearer(s);
    } else if s.reader.Copying? {
      CopyNearer(s);
    } else if s.reader.Submitting? || s.reader.Submitted? {
      SubmitNearer(s);
    } else if s.reader.Leave? {
      InHandNearer(s, ReaderStep(s, 0, false, false));
    } else {
      WaitNearer(s);
    }
  }

  lemma TurnNearer(s: Sys, reply: nat -> seq<Byte>)
    requires FlowInv(s) && !Idle(s) && |reply(s.submits)| <= |s.dev.ubuf|
    ensures var step := Turn(s, reply);
            Smooth(step) && !step.Notify? && FlowInv(Next(s, step)) && Nearer(s, Next(s, step))
  {
    hide ReaderStep, CompleteStep, BufferKept, LossKept, ErrorsKept, FetchKept;
    StepFlow(s, Turn(s, reply));
    if s.inFlight {
      CompleteNearer(s, reply(s.submits));
    } else if s.reader.Free? {
      InHandNearer(s, Next(s, Turn(s, reply)));
    } else {
      ReaderNearer(s);
    }
  }

  // ----- to rest -----

  ghost predicate NoNotify(steps: seq<Step>) {
    forall i | 0 <= i < |steps| :: !steps[i].Notify?
  }

  /** The steps of a run without failures and notifications that lead to rest. */
  ghost predicate Rests(s: Sys, later: seq<Step>)
    requires Sound(s)
  {
    var r := Steps(s, later);
    AllSmooth(later) && NoNotify(later) && Idle(r) && r.notes == s.notes
  }

  lemma StepFirst(s: Sys, step: Step, later: seq<Step>)
    requires Sound(s) && Smooth(step) && !step.Notify?
    requires Rests(Next(s, step), later) && Next(s, step).notes == s.notes
    ensures Rests(s, [step] + later)
  {
    hide Next, Steps, Smooth, Idle, Sound, BufferKept, LossKept, ErrorsKept, FetchKept, Reports, Forgets;
    var all := [step] + later;
    assert all[1..] == later && all[0] == step && forall i | 0 <= i < |later| :: all[i + 1] == later[i];
    StepsCons(s, all);
  }

  lemma NotAtRest(s: Sys)
    requires FlowInv(s) && !Idle(s)
    ensures ToRest(s) > 0
  {
    hide BufferKept, LossKept, ErrorsKept, FetchKept, Sound;
    assert s.dev.respCount >= 1;
    assert s.dev.respCount * (2 * |s.dev.ubuf| + 33) >= 2 * |s.dev.ubuf| + 33;
  }

  lemma ScheduleGoesOn(s: Sys, reply: nat -> seq<Byte>, k: nat)
    requires Sound(s) && !Idle(s) && k > 0
    ensures Schedule(s, reply, k) == [Turn(s, reply)] + Schedule(Next(s, Turn(s, reply)), reply, k - 1)
  {
    hide Next, Turn, Idle, Sound, BufferKept, LossKept, ErrorsKept, FetchKept, Reports, Forgets;
  }

  lemma ScheduleEnds(s: Sys, reply: nat -> seq<Byte>, k: nat)
    requires Sound(s) && Idle(s)
    ensures Rests(s, Schedule(s, reply, k))
  {
    hide Next, Turn, Idle, Sound, BufferKept, LossKept, ErrorsKept, FetchKept, Reports, Forgets;
  }

  lemma {:induction false} ScheduleRests(s: Sys, reply: nat -> seq<Byte>, k: nat)
    requires Sound(s) && FlowInv(s) && (Idle(s) || ToRest(s) <= k)
    requires forall n :: |reply(n)| <= |s.dev.ubuf|
    ensures Rests(s, Schedule(s, reply, k))
    decreases k
  {
    hide *;
    if Idle(s) {
      ScheduleEnds(s, reply, k);
    } else {
      var step := Turn(s, reply);
      var r := Next(s, step);
      TurnNearer(s, reply);
      NotAtRest(s);
      NearerMeans(s, r);
      ScheduleRests(r, reply, k - 1);
      ScheduleGoesOn(s, reply, k);
      StepFirst(s, step, Schedule(r, reply, k - 1));
    }
  }

  lemma NearerMeans(s: Sys, r: Sys)
    requires Nearer(s, r)
    ensures |r.dev.ubuf| == |s.dev.ubuf| && r.notes == s.notes && (Idle(r) || ToRest(r) < ToRest(s))
  {
  }

  lemma RunReady(wMaxCommand: nat, steps: seq<Step>)
    requires AllSmooth(steps)
    ensures var s := Run(wMaxCommand, steps);
            FlowInv(s) && |s.dev.ubuf| == wMaxCommand
  {
    hide Run, Smooth;
    RunFlow(wMaxCommand, steps);
    ReadsAreAQueue(wMaxCommand, steps);
  }

  lemma AtRest(wMaxCommand: nat, steps: seq<Step>)
    requires AllSmooth(steps)
    ensures var r := Run(wMaxCommand, steps);
            Idle(r) ==> r.submits == r.notes && r.returned == r.accepted
  {
    hide Run, Smooth;
    FlowControl(wMaxCommand, steps);
  }

  lemma SmoothAppend(before: seq<Step>, later: seq<Step>)
    requires AllSmooth(before) && AllSmooth(later)
    ensures AllSmooth(before + later)
  {
    hide Smooth;
  }

  lemma RestIsNear(s: Sys, wMaxCommand: nat)
    requires Sound(s) && |s.dev.ubuf| == wMaxCommand
    ensures ToRest(s) <= RestBound(s.dev.respCount, wMaxCommand)
  {
    var k := 2 * wMaxCommand + 33;
    assert (s.dev.respCount + 1) * k == s.dev.respCount * k + k;
  }

  /**
   * From every state of a run without failures, whatever the device replies: with no further
   * notifications a bounded number of replies and steps of readers leads to rest, where there
   * were as many fetches as notifications and readers got every byte.
   */
  lemma AlwaysDrains(wMaxCommand: nat, steps: seq<Step>, reply: nat -> seq<Byte>)
    requires AllSmooth(steps) && forall n :: |reply(n)| <= wMaxCommand
    ensures var s := Run(wMaxCommand, steps);
            var later := Schedule(s, reply, ToRest(s));
            var r := Run(wMaxCommand, steps + later);
            && |later| <= ToRest(s) <= RestBound(s.dev.respCount, wMaxCommand)
            && AllSmooth(later) && NoNotify(later)
            && Idle(r) && r.submits == r.notes == s.notes && r.returned == r.accepted
  {
    hide Run, Steps, Schedule, QueueInv, FlowInv, Idle, ToRest, Smooth, Sound, RestBound;
    hide BufferKept, LossKept, ErrorsKept, FetchKept;
    var s := Run(wMaxCommand, steps);
    RunReady(wMaxCommand, steps);
    ScheduleRests(s, reply, ToRest(s));
    var later := Schedule(s, reply, ToRest(s));
    RunOn(wMaxCommand, steps, later);
    SmoothAppend(steps, later);
    AtRest(wMaxCommand, steps + later);
    RestIsNear(s, wMaxCommand);
  }
}
