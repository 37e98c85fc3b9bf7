/**
 * The response path as the driver runs it: a device with flags, counters and a byte buffer that
 * completions fill and readers shift in place, the state of the response URB, and the places
 * where readers, callbacks and work items are. Every step method is a step of WdmResponse, and
 * the object keeps what is proved about runs.
 */
module WdmDevice {
  import opened Bytes
  import opened WdmSpec
  import opened WdmResponse
  import WdmQueue
  import WdmGap
  import WdmFlow

  /**
   * What every step keeps: the queue of bytes, no false alarm, the report of losses unless a
   * reset has forgotten one, and flow control unless something has failed.
   */
  ghost predicate Inv(s: Sys, wMaxCommand: nat, rough: bool, forgot: bool) {
    && WdmQueue.QueueInv(s, wMaxCommand)
    && WdmGap.AlarmInv(s)
    && (!forgot ==> WdmGap.GapInv(s))
    && (!rough ==> WdmFlow.FlowInv(s))
  }

  lemma InvStep(s: Sys, wMaxCommand: nat, rough: bool, forgot: bool, step: Step)
    requires Sound(s) && Inv(s, wMaxCommand, rough, forgot)
    ensures Inv(Next(s, step), wMaxCommand, rough || !WdmFlow.Smooth(step), forgot || Forgets(s, step))
  {
    hide Next, Forgets, WdmQueue.QueueInv, WdmGap.AlarmInv, WdmGap.GapInv, WdmFlow.FlowInv;
    WdmQueue.StepKeeps(s, wMaxCommand, step);
    WdmGap.StepAlarm(s, step);
    if !forgot {
      WdmGap.StepGap(s, wMaxCommand, step);
    }
    if !rough && WdmFlow.Smooth(step) {
      WdmFlow.StepFlow(s, step);
    }
  }

  lemma InvInit(wMaxCommand: nat)
    ensures Inv(Init(wMaxCommand), wMaxCommand, false, false)
  {
  }

  /** In front of the locked check of wdm_read. */
  predicate Waits(reader: Reader) {
    || reader.Begin? || reader.TestGone? || reader.TestOverflow? || reader.AwaitRead? || reader.TestGoneAgain?
    || reader.TestReset?
  }

  /** The same place; how many losses a reader reports is history that the driver does not keep. */
  predicate SamePlace(reader: Reader, r: Reader) {
    reader == r || (reader.LeaveNoBufs? && r.LeaveNoBufs?)
  }

  class Device {
    // struct wdm_device
    const ubuf: array<Byte>
    var disconnecting: bool
    var read: bool
    var intStall: bool
    var responding: bool
    var resetting: bool
    var overflow: bool
    var length: nat
    var reslength: nat
    var respCount: nat
    var rerr: int

    // the response URB
    var inFlight: bool
    var poisoned: bool

    // who is where
    var reader: Reader
    var worker: Worker
    var workQueued: bool
    var rx: RxWork
    var rxQueued: bool
    var intCb: IntCb
    var quiesce: Quiesce

    // the run so far, whether something failed in it, and whether a reset has forgotten a loss
    ghost var sys: Sys
    ghost var rough: bool
    ghost var forgot: bool

    ghost function State(): (d: Dev)
      reads `disconnecting, `read, `intStall, `responding, `resetting, `overflow
      reads `length, `reslength, `respCount, `rerr, ubuf
      ensures d.length == length && |d.ubuf| == ubuf.Length
    {
      Dev(disconnecting, read, intStall, responding, resetting, overflow,
          ubuf[..], length, reslength, respCount, rerr)
    }

    /** The fields besides those of struct wdm_device. */
    ghost predicate Places(s: Sys)
      reads `inFlight, `poisoned, `reader, `worker, `workQueued, `rx, `rxQueued, `intCb, `quiesce
    {
      && inFlight == s.inFlight && poisoned == s.poisoned && SamePlace(reader, s.reader)
      && worker == s.worker && workQueued == s.workQueued && rx == s.rx && rxQueued == s.rxQueued
      && intCb == s.intCb && quiesce == s.quiesce
    }

    ghost predicate Rep(s: Sys)
      reads `disconnecting, `read, `intStall, `responding, `resetting, `overflow
      reads `length, `reslength, `respCount, `rerr, ubuf
      reads `inFlight, `poisoned, `reader, `worker, `workQueued, `rx, `rxQueued, `intCb, `quiesce
    {
      State() == s.dev && Places(s)
    }

    ghost predicate Valid()
      reads this, ubuf
    {
      Rep(sys) && Sound(sys) && Inv(sys, ubuf.Length, rough, forgot)
    }

    /**
     * What the fields of a valid device say about the whole run: the buffer holds the accepted
     * bytes that no reader got, -ENOBUFS is on its way only for a loss not yet reported, readers
     * were told of every loss before what followed it, and a quiet device owes nobody anything.
     */
    lemma Guarantees()
      requires Valid()
      ensures length <= ubuf.Length && sys.returned + ubuf[..length] == sys.accepted
      ensures reader.LeaveNoBufs? ==> sys.reported < sys.discards
      ensures !forgot ==> forall i | 0 <= i < |sys.returned| :: i < |sys.tags| && sys.tags[i] <= sys.reported
      ensures !rough && !inFlight && !reader.Submitting? && !read ==> sys.submits == sys.notes && length == 0
    {
      hide BufferKept, LossKept, ErrorsKept, FetchKept;
    }

    /** The object is valid, and the run has gone on from `s` by one step. */
    ghost predicate Stepped(s: Sys, step: Step)
      requires Sound(s)
      reads this, ubuf
    {
      Valid() && sys == Next(s, step)
    }

    constructor (wMaxCommand: nat)
      ensures Valid() && fresh(ubuf) && ubuf.Length == wMaxCommand
      ensures sys == Init(wMaxCommand) && !rough && !forgot
    {
      ubuf := new Byte[wMaxCommand](_ => 0);
      disconnecting, read, intStall := false, false, false;
      responding, resetting, overflow := false, false, false;
      length, reslength, respCount, rerr := 0, 0, 0, 0;
      inFlight, poisoned, reader, worker, workQueued := false, false, Free, WorkerIdle, false;
      rx, rxQueued, intCb, quiesce := RxIdle, false, IntIdle, Running;
      sys, rough, forgot := Init(wMaxCommand), false, false;
      new;
      assert ubuf[..] == Zeros(wMaxCommand);
      InvInit(wMaxCommand);
    }

    /** The run has taken a step. */
    ghost method Took(step: Step, next: Sys)
      requires Sound(sys) && Inv(sys, ubuf.Length, rough, forgot) && next == Next(sys, step) && Rep(next)
      modifies `sys, `rough, `forgot
      ensures Stepped(old(sys), step)
      ensures rough == (old(rough) || !WdmFlow.Smooth(step)) && forgot == (old(forgot) || Forgets(old(sys), step))
    {
      hide Next, Forgets, WdmFlow.Smooth, Inv, Rep, BufferKept, LossKept, ErrorsKept, FetchKept;
      InvStep(sys, ubuf.Length, rough, forgot, step);
      rough, forgot, sys := rough || !WdmFlow.Smooth(step), forgot || Forgets(sys, step), next;
    }

    // ----- the response URB -----

    /** usb_submit_urb; `rv` is what it would return for a URB that is neither active nor poisoned. */
    method SubmitUrb(rv: int, ghost s: Sys) returns (result: int)
      requires Rep(s)
      modifies `inFlight
      ensures Rep(WdmResponse.SubmitUrb(s, rv).0) && result == WdmResponse.SubmitUrb(s, rv).1
    {
      hide State;
      if inFlight {
        result := EBUSY;
      } else if poisoned {
        result := EPERM;
      } else if rv < 0 {
        result := rv;
      } else {
        inFlight := true;
        result := 0;
      }
    }

    /** The bytes of a response are stored behind those that wait. */
    method Append(inbuf: seq<Byte>)
      requires |inbuf| + length <= ubuf.Length
      modifies ubuf
      ensures ubuf[..] == Patch(old(ubuf[..]), length, inbuf)
    {
      forall i | length <= i < length + |inbuf| {
        ubuf[i] := inbuf[i - length];
      }
    }

    /** What wdm_in_callback does with the bytes of a response. */
    method Receive(inbuf: seq<Byte>)
      requires State().Valid()
      modifies `overflow, `length, `reslength, ubuf
      ensures State() == WdmSpec.Receive(old(State()), inbuf)
    {
      hide Patch;
      if |inbuf| + length > ubuf.Length {
        overflow := true;
      } else if !overflow {
        Append(inbuf);
        length := length + |inbuf|;
        reslength := |inbuf|;
      }
    }

    /** What wdm_in_callback does before it decides whom to wake up. */
    method Completed(status: int, inbuf: seq<Byte>)
      requires State().Valid()
      modifies `responding, `rerr, `overflow, `length, `reslength, ubuf
      ensures State() == WdmSpec.Completed(old(State()), status, inbuf)
    {
      hide WdmSpec.Receive, Unlinked;
      responding := false;
      if Unlinked(status) {
        return;
      }
      if rerr == 0 && status != EPIPE {
        rerr := status;
      }
      assert State() == NoteError(old(State()).(responding := false), status);
      Receive(inbuf);
    }

    /** wdm_in_callback on the device; says whether service_interrupt_work is scheduled. */
    method InCallback(status: int, inbuf: seq<Byte>) returns (schedule: bool)
      requires State().Valid()
      modifies `responding, `rerr, `overflow, `length, `reslength, `read, ubuf
      ensures State() == WdmSpec.InCallback(old(State()), status, inbuf).0
      ensures schedule == WdmSpec.InCallback(old(State()), status, inbuf).1
    {
      hide WdmSpec.Completed;
      Completed(status, inbuf);
      schedule := rerr != 0;
      if !schedule {
        read := true;
      }
    }

    /** The locked section of wdm_int_callback; says whether the response URB is submitted. */
    method Notified() returns (submit: bool)
      modifies `responding, `respCount
      ensures State() == WdmSpec.Notified(old(State())).0
      ensures submit == WdmSpec.Notified(old(State())).1
    {
      var wasResponding := responding;
      responding := true;
      submit := respCount == 0 && !wasResponding && !disconnecting;
      respCount := respCount + 1;
    }

    /** service_outstanding_interrupt up to the submit. */
    method ServiceBegin() returns (service: Service)
      modifies `responding, `respCount
      ensures State() == WdmSpec.ServiceBegin(old(State())).0
      ensures service == WdmSpec.ServiceBegin(old(State())).1
    {
      service := Done(0);
      if respCount == 0 {
        return;
      }
      respCount := respCount - 1;
      if respCount == 0 {
        return;
      }
      if disconnecting {
        return Done(ENODEV);
      }
      if resetting {
        return Done(EIO);
      }
      responding := true;
      service := Submit;
    }

    /** service_outstanding_interrupt after the submit returned `rv`. */
    method ServiceEnd(rv: int)
      modifies `responding, `respCount
      ensures State() == WdmSpec.ServiceEnd(old(State()), rv)
    {
      if rv != 0 {
        responding := false;
        respCount := 0;
      }
    }

    /** The locked check of wdm_read; for a response that is ready, also the number of bytes. */
    method ReadCheck() returns (check: Check, cntr: nat)
      modifies `rerr, `read
      ensures check == CheckOf(old(State())) && State() == AfterCheck(old(State()))
      ensures cntr == old(State()).length
    {
      cntr := length;
      if rerr != 0 {
        check := Failed(rerr);
        rerr := 0;
      } else if !read {
        check := LostRace;
      } else if reslength == 0 {
        check := ZeroLength;
        read := false;
      } else {
        check := Ready;
      }
    }

    /** The bytes behind the first `cntr` move to the front. */
    method Shift(cntr: nat)
      requires cntr <= length <= ubuf.Length
      modifies ubuf
      ensures ubuf[..] == ShiftLeft(old(ubuf[..]), length, cntr)
    {
      ghost var u := ubuf[..];
      var i := 0;
      while i < length - cntr
        modifies ubuf
        invariant i <= length - cntr
        invariant forall k | 0 <= k < i :: ubuf[k] == u[k + cntr]
        invariant forall k | i <= k < ubuf.Length :: ubuf[k] == u[k]
      {
        ubuf[i] := ubuf[i + cntr];
        i := i + 1;
      }
    }

    /** The bytes that were copied are removed; says whether the buffer is empty then. */
    method Consume(cntr: nat) returns (empty: bool)
      requires cntr <= length <= ubuf.Length
      modifies `length, `read, ubuf
      ensures State() == WdmSpec.Consume(old(State()), cntr).0
      ensures empty == WdmSpec.Consume(old(State()), cntr).1
    {
      hide ShiftLeft;
      Shift(cntr);
      length := length - cntr;
      empty := length == 0;
      if empty {
        read := false;
      }
    }

    /** The locked section of wdm_pre_reset. */
    method PreReset()
      modifies `resetting, `read, `rerr
      ensures State() == WdmSpec.PreReset(old(State()))
    {
      resetting := true;
      read := true;
      rerr := EINTR;
    }

    /** WDM_RESPONDING is set or cleared. */
    method SetResponding(value: bool)
      modifies `responding
      ensures State() == old(State()).(responding := value)
    {
      responding := value;
    }

    /** WDM_INT_STALL is set. */
    method Stall()
      modifies `intStall
      ensures State() == old(State()).(intStall := true)
    {
      intStall := true;
    }

    /** WDM_OVERFLOW is cleared. */
    method ForgetOverflow()
      modifies `overflow
      ensures State() == old(State()).(overflow := false)
    {
      overflow := false;
    }

    /** WDM_RESETTING is cleared. */
    method ClearResetting()
      modifies `resetting
      ensures State() == old(State()).(resetting := false)
    {
      resetting := false;
    }

    /** The locked section of wdm_disconnect. */
    method PreDisconnect()
      modifies `disconnecting, `read
      ensures State() == old(State()).(disconnecting := true, read := true)
    {
      disconnecting, read := true, true;
    }

    /** No response is owed any more. */
    method ForgetResponses()
      modifies `responding, `respCount
      ensures State() == old(State()).(respCount := 0, responding := false)
    {
      respCount, responding := 0, false;
    }

    /** wdm_open of the first file forgets the pending error. */
    method ClearErrors()
      modifies `rerr
      ensures State() == old(State()).(rerr := 0)
    {
      rerr := 0;
    }

    // ----- the steps: completions and notifications -----

    /** What a completion does besides the bookkeeping of the run. */
    method CompleteWork(status: int, inbuf: seq<Byte>, ghost s: Sys)
      requires Rep(s) && Sound(s)
      modifies `responding, `rerr, `overflow, `length, `reslength, `read, ubuf, `inFlight, `workQueued
      ensures Rep(CompleteStep(s, status, inbuf))
    {
      hide State, WdmSpec.InCallback, Accepts, WdmSpec.Discards, BufferKept, LossKept, ErrorsKept, FetchKept;
      var schedule := InCallback(status, inbuf);
      inFlight := false;
      workQueued := workQueued || schedule;
    }

    /** wdm_in_callback */
    method Complete(status: int, inbuf: seq<Byte>)
      requires Valid() && inFlight && |inbuf| <= ubuf.Length
      modifies this, ubuf
      ensures Stepped(old(sys), Step.Complete(status, inbuf))
    {
      hide Stepped, Inv, CompleteStep, BufferKept, LossKept, ErrorsKept, FetchKept;
      CompleteWork(status, inbuf, sys);
      Took(Step.Complete(status, inbuf), CompleteStep(sys, status, inbuf));
    }

    method NotifyWork(rv: int, ghost s: Sys)
      requires Rep(s) && Sound(s)
      modifies `responding, `respCount, `inFlight, `intCb
      ensures Rep(NotifyStep(s, rv))
    {
      hide State, WdmSpec.Notified, WdmResponse.SubmitUrb, BufferKept, LossKept, ErrorsKept, FetchKept;
      var submit := Notified();
      if submit {
        var result := SubmitUrb(rv, s.(dev := State(), notes := s.notes + 1));
        if result < 0 {
          intCb := IntFailed(result);
        }
      }
    }

    /** The locked section of wdm_int_callback for ResponseAvailable; `rv` is what a submit returns. */
    method Notify(rv: int)
      requires Valid() && intCb.IntIdle?
      modifies this, ubuf
      ensures Stepped(old(sys), Step.Notify(rv))
    {
      hide Stepped, Inv, NotifyStep, BufferKept, LossKept, ErrorsKept, FetchKept;
      NotifyWork(rv, sys);
      Took(Step.Notify(rv), NotifyStep(sys, rv));
    }

    method IntFailsWork(ghost s: Sys)
      requires Rep(s) && Sound(s) && s.intCb.IntFailed?
      modifies `responding, `rxQueued, `intCb
      ensures Rep(IntFailsStep(s))
    {
      hide State, Sound, BufferKept, LossKept, ErrorsKept, FetchKept;
      SetResponding(false);
      if intCb.rv == ENOMEM {
        rxQueued := true;
      }
      intCb := IntIdle;
    }

    /** What follows in wdm_int_callback when the submit failed. */
    method IntFails()
      requires Valid() && intCb.IntFailed?
      modifies this, ubuf
      ensures Stepped(old(sys), Step.IntFails)
    {
      hide Stepped, Inv, IntFailsStep, BufferKept, LossKept, ErrorsKept, FetchKept;
      IntFailsWork(sys);
      Took(Step.IntFails, IntFailsStep(sys));
    }

    /** The interrupt endpoint stalls. */
    method IntStall()
      requires Valid() && intCb.IntIdle?
      modifies this, ubuf
      ensures Stepped(old(sys), Step.IntStall)
    {
      hide Stepped, Inv, State, BufferKept, LossKept, ErrorsKept, FetchKept;
      Stall();
      rxQueued := true;
      Took(Step.IntStall, StallStep(sys));
    }

    // ----- the steps: readers -----

    /** wdm_read takes rlock. */
    method ReadBegins(call: Call)
      requires Valid() && reader.Free?
      modifies this, ubuf
      ensures Stepped(old(sys), Step.ReadBegins(call))
    {
      hide Stepped, Inv, State, BufferKept, LossKept, ErrorsKept, FetchKept;
      reader := Begin(call);
      Took(Step.ReadBegins(call), sys.(reader := Begin(call)));
    }

    /** Where the tests and the wait in front of the locked check lead. */
    method Wait(signal: bool) returns (place: Reader)
      requires Waits(reader)
      ensures place == Waited(State(), reader, signal)
    {
      place := reader;
      if reader.Begin? {
        place := if length == 0 then TestGone(reader.call) else Copying(Least(length, reader.call.count), []);
      } else if reader.TestGone? {
        place := if disconnecting then Leave(Errno(ENODEV)) else TestOverflow(reader.call);
      } else if reader.TestOverflow? {
        place := if overflow then ClearOverflow(reader.call) else AwaitRead(reader.call);
      } else if reader.AwaitRead? {
        if read {
          place := TestGoneAgain(reader.call, false);
        } else if reader.call.nonblock {
          place := Leave(Errno(EAGAIN));
        } else if signal {
          place := TestGoneAgain(reader.call, true);
        }
      } else if reader.TestGoneAgain? {
        place := if disconnecting then Leave(Errno(ENODEV)) else TestReset(reader.call, reader.interrupted);
      } else {
        place := if resetting then Leave(Errno(EIO)) else if reader.interrupted then Leave(Errno(ERESTARTSYS))
                 else LockedCheck(reader.call);
      }
    }

    method ReaderWaitsWork(signal: bool, ghost s: Sys)
      requires Rep(s) && Sound(s) && Waits(reader)
      modifies `reader
      ensures Rep(WaitStep(s, signal))
    {
      hide State, Waited, Sound, BufferKept, LossKept, ErrorsKept, FetchKept;
      reader := Wait(signal);
    }

    /** The bit tests of wdm_read and its wait; `signal` says that a signal arrives. */
    method ReaderWaits(signal: bool)
      requires Valid() && Waits(reader)
      modifies this, ubuf
      ensures Stepped(old(sys), Step.ReaderGoes(0, signal, false))
    {
      hide Stepped, Inv, WaitStep, BufferKept, LossKept, ErrorsKept, FetchKept;
      ReaderWaitsWork(signal, sys);
      Took(Step.ReaderGoes(0, signal, false), WaitStep(sys, signal));
    }

    /** service_outstanding_interrupt for a reader, up to the submit. */
    method ReaderServes(after: After, ghost s: Sys)
      requires Places(s) && State().Valid()
      requires (s.quiesce.Running? || s.quiesce.Locking?) && !s.reader.LeaveNoBufs? && |s.tags| == |s.accepted|
      modifies `responding, `respCount, `reader
      ensures Rep(ReaderService(s, old(State()), after))
    {
      hide State, AfterService, Sound, WdmSpec.ServiceBegin, BufferKept, LossKept, ErrorsKept, FetchKept;
      var service := ServiceBegin();
      reader := if service.Submit? then Submitting(after) else AfterService(after, service.rv);
    }

    /** What the locked check decides, unless a response without bytes has to be followed by the next. */
    method ReaderDecides(check: Check, cntr: nat, call: Call, ghost d: Dev) returns (place: Reader)
      requires check == CheckOf(d) && !check.ZeroLength? && cntr == d.length
      ensures place == Checked(d, call)
    {
      if check.Failed? {
        place := Leave(Translated(check.rerr));
      } else if check.LostRace? {
        place := TestGone(call);
      } else {
        place := Copying(Least(cntr, call.count), []);
      }
    }

    method ReaderChecksWork(ghost s: Sys)
      requires Rep(s) && Sound(s) && s.reader.LockedCheck?
      modifies `rerr, `read, `responding, `respCount, `reader
      ensures Rep(CheckStep(s, s.reader.call))
    {
      hide State, CheckOf, AfterCheck, Checked, ReaderService, BufferKept, LossKept, ErrorsKept, FetchKept;
      var call := reader.call;
      var check, cntr := ReadCheck();
      if check.ZeroLength? {
        ReaderServes(Retry(call), s);
      } else {
        reader := ReaderDecides(check, cntr, call, s.dev);
      }
    }

    /** The locked check of wdm_read. */
    method ReaderChecks()
      requires Valid() && reader.LockedCheck?
      modifies this, ubuf
      ensures Stepped(old(sys), Step.ReaderGoes(0, false, false))
    {
      hide Stepped, Inv, CheckStep, BufferKept, LossKept, ErrorsKept, FetchKept;
      ReaderChecksWork(sys);
      Took(Step.ReaderGoes(0, false, false), CheckStep(sys, sys.reader.call));
    }

    /** A byte is copied to user space, or that faults. */
    method CopiesByte(fault: bool, ghost s: Sys)
      requires Rep(s) && Sound(s) && s.reader.Copying? && |s.reader.copied| < s.reader.cntr
      modifies `reader
      ensures Rep(CopyStep(s, fault))
    {
      hide ReaderService, BufferKept, LossKept, ErrorsKept, FetchKept;
      reader := if fault then Leave(Errno(EFAULT)) else Copying(reader.cntr, reader.copied + [ubuf[|reader.copied|]]);
    }

    /** All bytes are copied and leave the buffer. */
    method ShiftsBuffer(fault: bool, ghost s: Sys)
      requires Rep(s) && Sound(s) && s.reader.Copying? && |s.reader.copied| == s.reader.cntr
      modifies `length, `read, `responding, `respCount, `reader, ubuf
      ensures Rep(CopyStep(s, fault))
    {
      hide State, WdmSpec.Consume, ReaderService, BufferKept, LossKept, ErrorsKept, FetchKept;
      var empty := Consume(reader.cntr);
      if empty {
        ReaderServes(Return(reader.cntr), s.(returned := s.returned + s.reader.copied));
      } else {
        reader := Leave(Got(reader.cntr));
      }
    }

    method ReaderCopiesWork(fault: bool, ghost s: Sys)
      requires Rep(s) && Sound(s) && s.reader.Copying?
      modifies `length, `read, `responding, `respCount, `reader, ubuf
      ensures Rep(CopyStep(s, fault))
    {
      hide State, CopyStep, BufferKept, LossKept, ErrorsKept, FetchKept;
      if |reader.copied| < reader.cntr {
        CopiesByte(fault, s);
      } else {
        ShiftsBuffer(fault, s);
      }
    }

    /** One byte is copied to user space or, after the last one, the buffer is shifted. */
    method ReaderCopies(fault: bool)
      requires Valid() && reader.Copying?
      modifies this, ubuf
      ensures Stepped(old(sys), Step.ReaderGoes(0, false, fault))
    {
      hide Stepped, Inv, CopyStep, BufferKept, LossKept, ErrorsKept, FetchKept;
      ReaderCopiesWork(fault, sys);
      Took(Step.ReaderGoes(0, false, fault), CopyStep(sys, fault));
    }

    method ReaderSubmitsWork(rv: int, ghost s: Sys)
      requires Rep(s) && Sound(s) && (s.reader.Submitting? || s.reader.Submitted?)
      modifies `responding, `respCount, `inFlight, `reader
      ensures Rep(SubmitStep(s, rv))
    {
      hide State, WdmSpec.ServiceEnd, WdmResponse.SubmitUrb, Sound, BufferKept, LossKept, ErrorsKept, FetchKept;
      if reader.Submitting? {
        var result := SubmitUrb(rv, s);
        reader := Submitted(reader.after, result);
      } else {
        ServiceEnd(reader.rv);
        reader := AfterService(reader.after, reader.rv);
      }
    }

    /** The submit of service_outstanding_interrupt, and what follows under the lock. */
    method ReaderSubmits(rv: int)
      requires Valid() && (reader.Submitting? || reader.Submitted?)
      modifies this, ubuf
      ensures Stepped(old(sys), Step.ReaderGoes(rv, false, false))
    {
      hide Stepped, Inv, SubmitStep, BufferKept, LossKept, ErrorsKept, FetchKept;
      ReaderSubmitsWork(rv, sys);
      Took(Step.ReaderGoes(rv, false, false), SubmitStep(sys, rv));
    }

    method ReaderReturnsWork(ghost s: Sys)
      requires Rep(s) && Sound(s) && (s.reader.ClearOverflow? || s.reader.Leave? || s.reader.LeaveNoBufs?)
      modifies `overflow, `reader
      ensures Rep(ReturnStep(s))
    {
      hide State, Sound, BufferKept, LossKept, ErrorsKept, FetchKept;
      if reader.ClearOverflow? {
        ForgetOverflow();
        reader := LeaveNoBufs(0);
      } else {
        reader := Free;
      }
    }

    /** WDM_OVERFLOW is cleared to return -ENOBUFS, or rlock is released. */
    method ReaderReturns()
      requires Valid() && (reader.ClearOverflow? || reader.Leave? || reader.LeaveNoBufs?)
      modifies this, ubuf
      ensures Stepped(old(sys), Step.ReaderGoes(0, false, false))
    {
      hide Stepped, Inv, ReturnStep, BufferKept, LossKept, ErrorsKept, FetchKept;
      ReaderReturnsWork(sys);
      Took(Step.ReaderGoes(0, false, false), ReturnStep(sys));
    }

    // ----- the steps: work items -----

    /** The end of service_interrupt_work. */
    method WorkerEnds(ghost s: Sys)
      requires Places(s) && Sound(s)
      requires SameBuffer(s.dev, State()) && State().overflow == s.dev.overflow
      modifies `read, `worker
      ensures Rep(WorkerDone(s, old(State())))
    {
      hide BufferKept, LossKept, ErrorsKept, FetchKept, Sound;
      if respCount == 0 {
        read := true;
      }
      worker := WorkerIdle;
    }

    method WorkerGoesWork(rv: int, ghost s: Sys)
      requires Rep(s) && Sound(s) && (worker.WorkerIdle? ==> workQueued)
      modifies `responding, `respCount, `inFlight, `read, `worker, `workQueued
      ensures Rep(WorkerStep(s, rv))
    {
      hide State, WdmSpec.ServiceBegin, WdmSpec.ServiceEnd, WorkerDone, WdmResponse.SubmitUrb;
      hide BufferKept, LossKept, ErrorsKept, FetchKept;
      if worker.WorkerIdle? {
        workQueued := false;
        var service := ServiceBegin();
        if service.Submit? {
          worker := WorkerSubmitting;
        } else {
          WorkerEnds(s.(workQueued := false));
        }
      } else if worker.WorkerSubmitting? {
        var result := SubmitUrb(rv, s);
        worker := WorkerSubmitted(result);
      } else {
        ServiceEnd(worker.rv);
        WorkerEnds(s);
      }
    }

    /** service_interrupt_work, with the submit outside the lock. */
    method WorkerGoes(rv: int)
      requires Valid() && (worker.WorkerIdle? ==> workQueued)
      modifies this, ubuf
      ensures Stepped(old(sys), Step.WorkerGoes(rv))
    {
      hide Stepped, Inv, WorkerStep, BufferKept, LossKept, ErrorsKept, FetchKept;
      WorkerGoesWork(rv, sys);
      Took(Step.WorkerGoes(rv), WorkerStep(sys, rv));
    }

    /** wdm_rxwork up to the submit. */
    method RxStarts(ghost s: Sys)
      requires Rep(s) && Sound(s)
      modifies `responding, `rx, `rxQueued
      ensures Rep(RxBegins(s))
    {
      hide Sound, BufferKept, LossKept, ErrorsKept, FetchKept;
      rxQueued := false;
      if !disconnecting {
        rx := if responding then RxIdle else RxSubmitting;
        responding := true;
      }
    }

    /** wdm_rxwork after a submit that failed. */
    method RxEnds(ghost s: Sys)
      requires Rep(s) && Sound(s)
      modifies `responding, `rx, `rxQueued
      ensures Rep(RxFails(s))
    {
      hide Sound, BufferKept, LossKept, ErrorsKept, FetchKept;
      rxQueued := rxQueued || !disconnecting;
      rx := RxIdle;
      SetResponding(false);
    }

    method RxGoesWork(rv: int, ghost s: Sys)
      requires Rep(s) && Sound(s) && (rx.RxIdle? ==> rxQueued)
      modifies `responding, `inFlight, `rx, `rxQueued
      ensures Rep(RxStep(s, rv))
    {
      hide State, RxBegins, RxFails, WdmResponse.SubmitUrb, Sound, BufferKept, LossKept, ErrorsKept, FetchKept;
      if rx.RxIdle? {
        RxStarts(s);
      } else if rx.RxSubmitting? {
        var result := SubmitUrb(rv, s);
        rx := if result < 0 && result != EPERM then RxFailed else RxIdle;
      } else {
        RxEnds(s);
      }
    }

    /** wdm_rxwork, with the submit outside the lock. */
    method RxGoes(rv: int)
      requires Valid() && (rx.RxIdle? ==> rxQueued)
      modifies this, ubuf
      ensures Stepped(old(sys), Step.RxGoes(rv))
    {
      hide Stepped, Inv, RxStep, BufferKept, LossKept, ErrorsKept, FetchKept;
      RxGoesWork(rv, sys);
      Took(Step.RxGoes(rv), RxStep(sys, rv));
    }

    // ----- the steps: reset, disconnect, release and open -----

    /** The locked section of wdm_pre_reset. */
    method ResetBegins()
      requires Valid() && quiesce.Running?
      modifies this, ubuf
      ensures Stepped(old(sys), Step.ResetBegins)
    {
      hide Stepped, Inv, State, WdmSpec.PreReset, BufferKept, LossKept, ErrorsKept, FetchKept;
      PreReset();
      quiesce := Locking(true);
      Took(Step.ResetBegins, ResetStep(sys));
    }

    /** The locked section of wdm_disconnect. */
    method DisconnectBegins()
      requires Valid() && quiesce.Running?
      modifies this, ubuf
      ensures Stepped(old(sys), Step.DisconnectBegins)
    {
      hide Stepped, Inv, State, BufferKept, LossKept, ErrorsKept, FetchKept;
      PreDisconnect();
      quiesce := Locking(false);
      Took(Step.DisconnectBegins, DisconnectStep(sys));
    }

    /** wdm_pre_reset and wdm_disconnect take rlock and poison the URBs. */
    method QuietensDown(ghost s: Sys)
      requires Rep(s) && Sound(s) && (s.quiesce.Locking? || s.quiesce.Poisoning?)
      modifies `poisoned, `reader, `quiesce
      ensures Rep(QuiesceStep(s))
    {
      hide State, Sound, BufferKept, LossKept, ErrorsKept, FetchKept;
      if quiesce.Locking? {
        if reader.Free? {
          reader := HeldByReset;
          quiesce := Poisoning(quiesce.reset);
        }
      } else {
        poisoned := true;
        quiesce := Cancelling(quiesce.reset);
      }
    }

    /** They go on when the URB and the work items are idle. */
    method CancelsWork(ghost s: Sys)
      requires Rep(s) && Sound(s) && s.quiesce.Cancelling?
      modifies `workQueued, `rxQueued, `quiesce
      ensures Rep(QuiesceStep(s))
    {
      hide State, Sound, BufferKept, LossKept, ErrorsKept, FetchKept;
      if !inFlight && worker.WorkerIdle? && rx.RxIdle? {
        workQueued, rxQueued := false, false;
        quiesce := Quiet(quiesce.reset);
      }
    }

    /** usb_unpoison_urb in wdm_post_reset, or the end of wdm_disconnect. */
    method Unpoisons(ghost s: Sys)
      requires Rep(s) && Sound(s) && s.quiesce.Quiet?
      modifies `poisoned, `reader, `quiesce
      ensures Rep(QuiesceStep(s))
    {
      hide State, Sound, BufferKept, LossKept, ErrorsKept, FetchKept;
      if quiesce.reset {
        poisoned := false;
        quiesce := Unpoisoned;
      } else {
        reader := Free;
        quiesce := Running;
      }
    }

    /** wdm_post_reset from there on. */
    method StartsUp(ghost s: Sys)
      requires Rep(s) && Sound(s) && (s.quiesce.Unpoisoned? || s.quiesce.OverflowCleared?)
      modifies `overflow, `resetting, `reader, `quiesce
      ensures Rep(QuiesceStep(s))
    {
      hide State, Sound, BufferKept, LossKept, ErrorsKept, FetchKept;
      if quiesce.Unpoisoned? {
        ForgetOverflow();
        quiesce := OverflowCleared;
      } else {
        ClearResetting();
        reader := Free;
        quiesce := Running;
      }
    }

    method QuiesceGoesWork(ghost s: Sys)
      requires Rep(s) && Sound(s) && !quiesce.Running?
      modifies `overflow, `resetting, `poisoned, `workQueued, `rxQueued, `reader, `quiesce
      ensures Rep(QuiesceStep(s))
    {
      hide State, QuiesceStep, Sound, BufferKept, LossKept, ErrorsKept, FetchKept;
      if quiesce.Locking? || quiesce.Poisoning? {
        QuietensDown(s);
      } else if quiesce.Cancelling? {
        CancelsWork(s);
      } else if quiesce.Quiet? {
        Unpoisons(s);
      } else {
        StartsUp(s);
      }
    }

    /** wdm_pre_reset and wdm_post_reset, or wdm_disconnect, from the moment they wait for rlock. */
    method QuiesceGoes()
      requires Valid() && !quiesce.Running?
      modifies this, ubuf
      ensures Stepped(old(sys), Step.QuiesceGoes)
    {
      hide Stepped, Inv, QuiesceStep, BufferKept, LossKept, ErrorsKept, FetchKept;
      QuiesceGoesWork(sys);
      Took(Step.QuiesceGoes, QuiesceStep(sys));
    }

    /** wdm_release of the last file, once the response URB is idle. */
    method Release()
      requires Valid() && reader.Free? && quiesce.Running? && !inFlight
      modifies this, ubuf
      ensures Stepped(old(sys), Step.Release)
    {
      hide Stepped, Inv, State, BufferKept, LossKept, ErrorsKept, FetchKept;
      ForgetResponses();
      Took(Step.Release, ReleaseStep(sys));
    }

    /** wdm_open of the first file. */
    method Open()
      requires Valid()
      modifies this, ubuf
      ensures Stepped(old(sys), Step.Open)
    {
      hide Stepped, Inv, State, BufferKept, LossKept, ErrorsKept, FetchKept;
      ClearErrors();
      Took(Step.Open, OpenStep(sys));
    }
  }
}
