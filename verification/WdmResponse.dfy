/**
 * The response path of the WDM driver as a protocol: readers, interrupt and completion
 * callbacks, work items, reset and disconnect take steps in any order. One step is one section
 * under the spinlock, one atomic bit operation, one copied byte or one submit.
 */
module WdmResponse {
  import opened Bytes
  import opened WdmSpec

  /** The arguments of a read. */
  datatype Call = Call(count: nat, nonblock: bool)

  /** What wdm_read returns; an error of a response goes through usb_translate_errors. */
  datatype Outcome = Got(n: nat) | Errno(code: int) | Translated(rerr: int)

  /** What a reader does after service_outstanding_interrupt: start over, or return the bytes it copied. */
  datatype After = Retry(call: Call) | Return(n: nat)

  /** Who holds rlock, and where in wdm_read a reader is. */
  datatype Reader =
    | Free
    | Begin(call: Call)
    | TestGone(call: Call)                           // the label retry
    | TestOverflow(call: Call)
    | ClearOverflow(call: Call)
    | AwaitRead(call: Call)
    | TestGoneAgain(call: Call, interrupted: bool)
    | TestReset(call: Call, interrupted: bool)
    | LockedCheck(call: Call)
    | Copying(cntr: nat, copied: seq<Byte>)          // copy_to_user, then the locked shift
    | Submitting(after: After)                       // service_outstanding_interrupt without the lock
    | Submitted(after: After, rv: int)
    | Leave(outcome: Outcome)                        // about to unlock and return something else than -ENOBUFS
    | LeaveNoBufs(cleared: nat)                      // about to unlock and return -ENOBUFS
    | HeldByReset

  /** service_interrupt_work */
  datatype Worker = WorkerIdle | WorkerSubmitting | WorkerSubmitted(rv: int)

  /** wdm_rxwork */
  datatype RxWork = RxIdle | RxSubmitting | RxFailed

  /** wdm_int_callback after a submit that failed. */
  datatype IntCb = IntIdle | IntFailed(rv: int)

  /** wdm_pre_reset with wdm_post_reset, or wdm_disconnect. */
  datatype Quiesce =
    | Running
    | Locking(reset: bool)
    | Poisoning(reset: bool)
    | Cancelling(reset: bool)
    | Quiet(reset: bool)
    | Unpoisoned
    | OverflowCleared

  /** The errors of responses, in order: those that became pending, that reads returned, that were replaced. */
  datatype Errors = Errors(noted: seq<int>, told: seq<int>, replaced: seq<int>)

  datatype Sys = Sys(
    dev: Dev,
    inFlight: bool,          // the response URB
    poisoned: bool,
    reader: Reader,
    worker: Worker,
    workQueued: bool,
    rx: RxWork,
    rxQueued: bool,
    intCb: IntCb,
    quiesce: Quiesce,
    notes: nat,              // ResponseAvailable notifications
    submits: nat,            // successful submits of the response URB
    collisions: nat,         // submits of the response URB while it was in flight
    accepted: seq<Byte>,     // every byte stored in ubuf, in order
    tags: seq<nat>,          // for each of them, how many responses had been lost before
    discards: nat,           // responses lost for want of room
    returned: seq<Byte>,     // every byte that readers got, in order
    reported: nat,           // how many lost responses readers have been told of
    errors: Errors
  )

  datatype Step =
    | Notify(rv: int)
    | IntFails
    | IntStall
    | Complete(status: int, data: seq<Byte>)
    | ReadBegins(call: Call)
    | ReaderGoes(rv: int, signal: bool, fault: bool)
    | WorkerGoes(rv: int)
    | RxGoes(rv: int)
    | ResetBegins
    | DisconnectBegins
    | QuiesceGoes
    | Release
    | Open

  ghost predicate Sound(s: Sys) {
    && s.dev.Valid()
    && (s.reader.Copying? ==> |s.reader.copied| <= s.reader.cntr <= s.dev.length)
    && (s.reader.HeldByReset? <==> !s.quiesce.Running? && !s.quiesce.Locking?)
    && (s.quiesce.Unpoisoned? || s.quiesce.OverflowCleared? ==> !s.poisoned)
    && |s.tags| == |s.accepted|
  }

  /** The losses that are reported, or will be as soon as the reader that found them returns. */
  function Covered(s: Sys): nat {
    if s.reader.LeaveNoBufs? then s.reader.cleared else s.reported
  }

  /** The step loses no response and tells nobody of a loss. */
  ghost predicate LossKept(s: Sys, r: Sys) {
    && r.tags == s.tags && r.discards == s.discards && r.reported == s.reported
    && r.dev.overflow == s.dev.overflow && Covered(r) == Covered(s)
  }

  /** The step has nothing to do with fetching responses. */
  ghost predicate FetchKept(s: Sys, r: Sys) {
    && r.submits == s.submits && r.inFlight == s.inFlight
    && r.worker == s.worker && r.rx == s.rx && r.intCb == s.intCb
    && r.dev.respCount == s.dev.respCount && r.dev.responding == s.dev.responding
    && r.dev.disconnecting == s.dev.disconnecting
  }

  /** An error that a reader has taken and is about to return. */
  function Taken(reader: Reader): seq<int> {
    if reader.Leave? && reader.outcome.Translated? then [reader.outcome.rerr] else []
  }

  /** The step neither notes, nor takes, nor returns an error. */
  ghost predicate ErrorsKept(s: Sys, r: Sys) {
    r.errors == s.errors && r.dev.rerr == s.dev.rerr && Taken(r.reader) == Taken(s.reader)
  }

  /** The error that waits for a reader. */
  function PendingError(d: Dev): seq<int> {
    if d.rerr != 0 then [d.rerr] else []
  }

  /** A failed response leaves an error, unless one waits already; the URB was not just killed, and did not stall. */
  predicate NotesError(d: Dev, status: int) {
    d.rerr == 0 && status != 0 && status != EPIPE && !Unlinked(status)
  }

  /** wdm_post_reset clears the flag of a loss. */
  predicate Forgets(s: Sys, step: Step) {
    step.QuiesceGoes? && s.quiesce.Unpoisoned? && s.dev.overflow
  }

  /** The step neither stores, nor removes, nor copies a byte. */
  ghost predicate BufferKept(s: Sys, r: Sys) {
    && SameBuffer(s.dev, r.dev)
    && r.returned == s.returned && r.accepted == s.accepted
    && (r.reader.Copying? ==> r.reader == s.reader || r.reader.copied == [])
  }

  /** A reader finds a loss, or tells its caller. */
  predicate Reports(s: Sys, step: Step) {
    step.ReaderGoes? && (s.reader.ClearOverflow? || s.reader.LeaveNoBufs?)
  }

  function Init(wMaxCommand: nat): (s: Sys)
    ensures Sound(s)
  {
    Sys(NewDev(wMaxCommand), false, false, Free, WorkerIdle, false, RxIdle, false, IntIdle, Running,
        0, 0, 0, [], [], 0, [], 0, Errors([], [], []))
  }

  // ----- the response URB -----

  /** usb_submit_urb; `rv` is what it would return for a URB that is neither active nor poisoned. */
  function SubmitUrb(s: Sys, rv: int): (r: (Sys, int))
    ensures r.0.dev == s.dev && r.0.reader == s.reader && BufferKept(s, r.0) && LossKept(s, r.0) && ErrorsKept(s, r.0)
    ensures r.0.quiesce == s.quiesce
  {
    if s.inFlight then (s.(collisions := s.collisions + 1), EBUSY)
    else if s.poisoned then (s, EPERM)
    else if rv < 0 then (s, rv)
    else (s.(inFlight := true, submits := s.submits + 1), 0)
  }

  function NotifyStep(s: Sys, rv: int): (r: Sys)
    requires Sound(s)
    ensures Sound(r) && BufferKept(s, r) && LossKept(s, r) && ErrorsKept(s, r)
    ensures r.reader == s.reader
  {
    var (d, submit) := Notified(s.dev);
    var s1 := s.(dev := d, notes := s.notes + 1);
    if !submit then s1
    else
      var (s2, result) := SubmitUrb(s1, rv);
      if result < 0 then s2.(intCb := IntFailed(result)) else s2
  }

  /** The interrupt endpoint stalls. */
  function StallStep(s: Sys): (r: Sys)
    requires Sound(s)
    ensures Sound(r) && BufferKept(s, r) && LossKept(s, r) && ErrorsKept(s, r) && r.reader == s.reader
  {
    s.(dev := s.dev.(intStall := true), rxQueued := true)
  }

  function IntFailsStep(s: Sys): (r: Sys)
    requires Sound(s) && s.intCb.IntFailed?
    ensures Sound(r) && BufferKept(s, r) && LossKept(s, r) && ErrorsKept(s, r)
    ensures r.reader == s.reader
  {
    s.(dev := s.dev.(responding := false), intCb := IntIdle, rxQueued := s.rxQueued || s.intCb.rv == ENOMEM)
  }

  function Repeat(v: nat, n: nat): (r: seq<nat>)
    ensures |r| == n && forall i | 0 <= i < n :: r[i] == v
  {
    seq(n, i => v)
  }

  function CompleteStep(s: Sys, status: int, data: seq<Byte>): (r: Sys)
    requires Sound(s)
    ensures Sound(r)
    ensures r.reader == s.reader
  {
    var (d, schedule) := InCallback(s.dev, status, data);
    var accepts := Accepts(s.dev, status, data);
    s.(dev := d, inFlight := false, workQueued := s.workQueued || schedule,
       accepted := if accepts then s.accepted + data else s.accepted,
       tags := if accepts then s.tags + Repeat(s.discards, |data|) else s.tags,
       discards := if Discards(s.dev, status, data) then s.discards + 1 else s.discards,
       errors := if NotesError(s.dev, status) then s.errors.(noted := s.errors.noted + [status]) else s.errors)
  }

  // ----- readers -----

  function Least(a: nat, b: nat): nat { if a < b then a else b }

  /** What a reader does once service_outstanding_interrupt is over. */
  function AfterService(after: After, rv: int): (r: Reader)
    ensures Taken(r) == []
  {
    match after
    case Retry(call) => if rv >= 0 then TestGone(call) else Leave(Errno(rv))
    case Return(n) => Leave(Got(n))
  }

  /** service_outstanding_interrupt for a reader, from device state `d`. */
  function ReaderService(s: Sys, d: Dev, after: After): (r: Sys)
    requires d.Valid() && (s.quiesce.Running? || s.quiesce.Locking?) && !s.reader.LeaveNoBufs?
    requires |s.tags| == |s.accepted|
    ensures Sound(r) && !r.reader.Copying? && !r.reader.LeaveNoBufs?
    ensures d.overflow == s.dev.overflow ==> LossKept(s, r)
    ensures d.rerr == s.dev.rerr && Taken(s.reader) == [] ==> ErrorsKept(s, r)
    ensures SameBuffer(s.dev, d) ==> BufferKept(s, r)
    ensures r.dev.ubuf == d.ubuf && r.dev.length == d.length && r.returned == s.returned && r.accepted == s.accepted
    ensures !r.reader.ClearOverflow?
  {
    var (d', service) := ServiceBegin(d);
    match service
    case Submit => s.(dev := d', reader := Submitting(after))
    case Done(rv) => s.(dev := d', reader := AfterService(after, rv))
  }

  /** Where the locked check leads, if there is nothing to serve. */
  function Checked(d: Dev, call: Call): (r: Reader)
    requires !CheckOf(d).ZeroLength?
    ensures Taken(r) == PendingError(d)
    ensures r.Leave? || r.TestGone? || (r.Copying? && r.copied == [] && r.cntr <= d.length)
  {
    match CheckOf(d)
    case Failed(e) => Leave(Translated(e))
    case LostRace => TestGone(call)
    case Ready => Copying(Least(d.length, call.count), [])
  }

  function CheckStep(s: Sys, call: Call): (r: Sys)
    requires Sound(s) && s.reader.LockedCheck?
    ensures Sound(r) && BufferKept(s, r) && LossKept(s, r)
    ensures !r.reader.ClearOverflow? && !r.reader.LeaveNoBufs?
    ensures s.dev.rerr == 0 ==> ErrorsKept(s, r)
  {
    if CheckOf(s.dev).ZeroLength? then ReaderService(s, AfterCheck(s.dev), Retry(call))
    else s.(dev := AfterCheck(s.dev), reader := Checked(s.dev, call))
  }

  /** A byte is copied or, after the last one, all are removed from the buffer. */
  function CopyStep(s: Sys, fault: bool): (r: Sys)
    requires Sound(s) && s.reader.Copying?
    ensures Sound(r) && LossKept(s, r) && ErrorsKept(s, r) && r.accepted == s.accepted
    ensures r.returned == s.returned || r.returned == s.returned + s.reader.copied
    ensures !r.reader.ClearOverflow? && !r.reader.LeaveNoBufs?
  {
    var copied := s.reader.copied;
    if |copied| < s.reader.cntr then
      if fault then s.(reader := Leave(Errno(EFAULT)))
      else s.(reader := Copying(s.reader.cntr, copied + [s.dev.ubuf[|copied|]]))
    else
      var (d, empty) := Consume(s.dev, s.reader.cntr);
      var s1 := s.(returned := s.returned + copied);
      if empty then ReaderService(s1, d, Return(s.reader.cntr)) else s1.(dev := d, reader := Leave(Got(s.reader.cntr)))
  }

  /** The tests and the wait in front of the locked check. */
  function Waited(d: Dev, reader: Reader, signal: bool): (r: Reader)
    ensures r == reader || (!r.HeldByReset? && !r.LeaveNoBufs?)
    ensures r.Copying? && r != reader ==> r.copied == [] && r.cntr <= d.length
    ensures reader.HeldByReset? || reader.LeaveNoBufs? ==> r == reader
    ensures r.ClearOverflow? && r != reader ==> reader.TestOverflow? && d.overflow
    ensures Taken(r) == Taken(reader)
  {
    match reader
    case Begin(call) => if d.length == 0 then TestGone(call) else Copying(Least(d.length, call.count), [])
    case TestGone(call) => if d.disconnecting then Leave(Errno(ENODEV)) else TestOverflow(call)
    case TestOverflow(call) => if d.overflow then ClearOverflow(call) else AwaitRead(call)
    case AwaitRead(call) =>
      if d.read then TestGoneAgain(call, false)
      else if call.nonblock then Leave(Errno(EAGAIN))
      else if signal then TestGoneAgain(call, true)
      else reader
    case TestGoneAgain(call, interrupted) =>
      if d.disconnecting then Leave(Errno(ENODEV)) else TestReset(call, interrupted)
    case TestReset(call, interrupted) =>
      if d.resetting then Leave(Errno(EIO)) else if interrupted then Leave(Errno(ERESTARTSYS)) else LockedCheck(call)
    case _ => reader
  }

  function WaitStep(s: Sys, signal: bool): (r: Sys)
    requires Sound(s)
    ensures Sound(r) && BufferKept(s, r) && LossKept(s, r) && ErrorsKept(s, r) && FetchKept(s, r)
  {
    s.(reader := Waited(s.dev, s.reader, signal))
  }

  /** The submit outside the lock and what follows. */
  function SubmitStep(s: Sys, rv: int): (r: Sys)
    requires Sound(s)
    ensures Sound(r) && BufferKept(s, r) && LossKept(s, r) && ErrorsKept(s, r)
    ensures s.reader.Submitting? || s.reader.Submitted? ==> !r.reader.ClearOverflow? && !r.reader.LeaveNoBufs?
  {
    match s.reader
    case Submitting(after) =>
      var (s1, result) := SubmitUrb(s, rv);
      s1.(reader := Submitted(after, result))
    case Submitted(after, result) =>
      s.(dev := ServiceEnd(s.dev, result), reader := AfterService(after, result))
    case _ => s
  }

  /** A reader clears the flag of a loss, or unlocks and returns. */
  function ReturnStep(s: Sys): (r: Sys)
    requires Sound(s) && (s.reader.ClearOverflow? || s.reader.Leave? || s.reader.LeaveNoBufs?)
    ensures Sound(r) && BufferKept(s, r)
    ensures s.reader.Leave? ==> LossKept(s, r)
    ensures Taken(s.reader) == [] ==> ErrorsKept(s, r)
    ensures FetchKept(s, r) && !r.reader.Submitting?
    ensures !r.reader.ClearOverflow?
    ensures r.reader.LeaveNoBufs? ==> s.reader.ClearOverflow? && r.reader.cleared == s.discards
  {
    match s.reader
    case ClearOverflow(call) => s.(dev := s.dev.(overflow := false), reader := LeaveNoBufs(s.discards))
    case LeaveNoBufs(cleared) => s.(reader := Free, reported := cleared)
    case _ => s.(reader := Free, errors := s.errors.(told := s.errors.told + Taken(s.reader)))
  }

  /** The next step of the reader that holds rlock. */
  function ReaderStep(s: Sys, rv: int, signal: bool, fault: bool): (r: Sys)
    requires Sound(s)
    ensures Sound(r) && (!s.reader.Copying? ==> BufferKept(s, r))
    ensures !s.reader.ClearOverflow? && !s.reader.LeaveNoBufs? ==> LossKept(s, r)
    ensures !s.reader.LockedCheck? && Taken(s.reader) == [] ==> ErrorsKept(s, r)
    ensures r.reader.ClearOverflow? ==> s.reader.TestOverflow? && s.dev.overflow
    ensures r.reader.LeaveNoBufs? ==> s.reader.ClearOverflow? && r.reader.cleared == s.discards
  {
    if s.reader.LockedCheck? then CheckStep(s, s.reader.call)
    else if s.reader.Copying? then CopyStep(s, fault)
    else if s.reader.Submitting? || s.reader.Submitted? then SubmitStep(s, rv)
    else if s.reader.ClearOverflow? || s.reader.Leave? || s.reader.LeaveNoBufs? then ReturnStep(s)
    else WaitStep(s, signal)
  }

  // ----- work items -----

  /** The end of service_interrupt_work. */
  function WorkerDone(s: Sys, d: Dev): (r: Sys)
    requires Sound(s) && SameBuffer(s.dev, d) && d.overflow == s.dev.overflow
    ensures Sound(r) && BufferKept(s, r) && LossKept(s, r) && (d.rerr == s.dev.rerr ==> ErrorsKept(s, r))
    ensures r.reader == s.reader
  {
    s.(dev := if d.respCount == 0 then d.(read := true) else d, worker := WorkerIdle)
  }

  function WorkerStep(s: Sys, rv: int): (r: Sys)
    requires Sound(s)
    ensures Sound(r) && BufferKept(s, r) && LossKept(s, r) && ErrorsKept(s, r)
    ensures r.reader == s.reader
  {
    match s.worker
    case WorkerIdle =>
      if !s.workQueued then s
      else
        var s1 := s.(workQueued := false);
        var (d, service) := ServiceBegin(s.dev);
        if service.Submit? then s1.(dev := d, worker := WorkerSubmitting) else WorkerDone(s1, d)
    case WorkerSubmitting =>
      var (s1, result) := SubmitUrb(s, rv);
      s1.(worker := WorkerSubmitted(result))
    case WorkerSubmitted(result) => WorkerDone(s, ServiceEnd(s.dev, result))
  }

  function RxBegins(s: Sys): (r: Sys)
    requires Sound(s)
    ensures Sound(r) && BufferKept(s, r) && LossKept(s, r) && ErrorsKept(s, r)
    ensures r.reader == s.reader
  {
    if s.dev.disconnecting then s.(rxQueued := false)
    else
      var rx := if s.dev.responding then RxIdle else RxSubmitting;
      s.(rxQueued := false, dev := s.dev.(responding := true), rx := rx)
  }

  function RxFails(s: Sys): (r: Sys)
    requires Sound(s)
    ensures Sound(r) && BufferKept(s, r) && LossKept(s, r) && ErrorsKept(s, r)
    ensures r.reader == s.reader
  {
    s.(dev := s.dev.(responding := false), rxQueued := s.rxQueued || !s.dev.disconnecting, rx := RxIdle)
  }

  function RxStep(s: Sys, rv: int): (r: Sys)
    requires Sound(s)
    ensures Sound(r) && BufferKept(s, r) && LossKept(s, r) && ErrorsKept(s, r)
    ensures r.reader == s.reader
  {
    match s.rx
    case RxIdle => if s.rxQueued then RxBegins(s) else s
    case RxSubmitting =>
      var (s1, result) := SubmitUrb(s, rv);
      s1.(rx := if result < 0 && result != EPERM then RxFailed else RxIdle)
    case RxFailed => RxFails(s)
  }

  // ----- reset, disconnect and open -----

  /** The locked section of wdm_pre_reset, which puts an error of its own in the place of the pending one. */
  function ResetStep(s: Sys): (r: Sys)
    requires Sound(s) && s.quiesce.Running?
    ensures Sound(r) && BufferKept(s, r) && LossKept(s, r) && r.reader == s.reader
  {
    s.(dev := PreReset(s.dev), quiesce := Locking(true),
       errors := s.errors.(noted := s.errors.noted + [EINTR],
                           replaced := s.errors.replaced + PendingError(s.dev)))
  }

  /** The locked section of wdm_disconnect. */
  function DisconnectStep(s: Sys): (r: Sys)
    requires Sound(s) && s.quiesce.Running?
    ensures Sound(r) && BufferKept(s, r) && LossKept(s, r) && ErrorsKept(s, r) && r.reader == s.reader
  {
    s.(dev := s.dev.(disconnecting := true, read := true), quiesce := Locking(false))
  }

  /** wdm_release of the last file. */
  function ReleaseStep(s: Sys): (r: Sys)
    requires Sound(s)
    ensures Sound(r) && BufferKept(s, r) && LossKept(s, r) && ErrorsKept(s, r) && r.reader == s.reader
  {
    s.(dev := s.dev.(respCount := 0, responding := false))
  }

  /** wdm_open of the first file forgets the pending error. */
  function OpenStep(s: Sys): (r: Sys)
    requires Sound(s)
    ensures Sound(r) && BufferKept(s, r) && LossKept(s, r) && r.reader == s.reader
  {
    s.(dev := s.dev.(rerr := 0),
       errors := s.errors.(replaced := s.errors.replaced + PendingError(s.dev)))
  }

  function QuiesceStep(s: Sys): (r: Sys)
    requires Sound(s)
    ensures Sound(r) && BufferKept(s, r) && ErrorsKept(s, r)
    ensures !Forgets(s, QuiesceGoes) ==> LossKept(s, r)
    ensures r.reader == s.reader || r.reader.Free? || r.reader.HeldByReset?
    ensures FetchKept(s, r)
  {
    match s.quiesce
    case Running => s
    case Locking(reset) =>
      if s.reader.Free? then s.(reader := HeldByReset, quiesce := Poisoning(reset)) else s
    case Poisoning(reset) => s.(poisoned := true, quiesce := Cancelling(reset))
    case Cancelling(reset) =>
      if s.inFlight || !s.worker.WorkerIdle? || !s.rx.RxIdle? then s
      else s.(workQueued := false, rxQueued := false, quiesce := Quiet(reset))
    case Quiet(reset) =>
      if reset then s.(poisoned := false, quiesce := Unpoisoned)
      else s.(reader := Free, quiesce := Running)
    case Unpoisoned => s.(dev := s.dev.(overflow := false), quiesce := OverflowCleared)
    case OverflowCleared => s.(dev := s.dev.(resetting := false), reader := Free, quiesce := Running)
  }

  /** A completion, a reset, an open, the locked check, or a reader that returns an error. */
  predicate TouchesErrors(s: Sys, step: Step) {
    || step.Complete? || step.ResetBegins? || step.Open?
    || (step.ReaderGoes? && (s.reader.LockedCheck? || Taken(s.reader) != []))
  }

  /** Steps that are not possible in `s` change nothing. */
  function Next(s: Sys, step: Step): (r: Sys)
    requires Sound(s)
    ensures Sound(r)
    ensures !step.Complete? && !(step.ReaderGoes? && s.reader.Copying?) ==> BufferKept(s, r)
    ensures !step.Complete? && !Reports(s, step) && !Forgets(s, step) ==> LossKept(s, r)
    ensures !step.ReaderGoes? && (r.reader.ClearOverflow? || r.reader.LeaveNoBufs?) ==> r.reader == s.reader
    ensures !TouchesErrors(s, step) ==> ErrorsKept(s, r)
  {
    match step
    case Notify(rv) => if s.intCb.IntIdle? then NotifyStep(s, rv) else s
    case IntFails => if s.intCb.IntFailed? then IntFailsStep(s) else s
    case IntStall => if s.intCb.IntIdle? then StallStep(s) else s
    case Complete(status, data) =>
      if s.inFlight && |data| <= |s.dev.ubuf| then CompleteStep(s, status, data) else s
    case ReadBegins(call) => if s.reader.Free? then s.(reader := Begin(call)) else s
    case ReaderGoes(rv, signal, fault) => ReaderStep(s, rv, signal, fault)
    case WorkerGoes(rv) => WorkerStep(s, rv)
    case RxGoes(rv) => RxStep(s, rv)
    case ResetBegins => if s.quiesce.Running? then ResetStep(s) else s
    case DisconnectBegins => if s.quiesce.Running? then DisconnectStep(s) else s
    case QuiesceGoes => QuiesceStep(s)
    case Release => if s.reader.Free? && s.quiesce.Running? && !s.inFlight then ReleaseStep(s) else s
    case Open => OpenStep(s)
  }

  function Run(wMaxCommand: nat, steps: seq<Step>): (s: Sys)
    ensures Sound(s)
  {
    if steps == [] then Init(wMaxCommand)
    else Next(Run(wMaxCommand, steps[..|steps| - 1]), steps[|steps| - 1])
  }

  /** The state that `steps` lead to from `s`. */
  function Steps(s: Sys, steps: seq<Step>): (r: Sys)
    requires Sound(s)
    ensures Sound(r)
    decreases |steps|
  {
    if steps == [] then s else Steps(Next(s, steps[0]), steps[1..])
  }

  /** A run can be cut anywhere. */
  lemma {:induction false} RunOn(wMaxCommand: nat, before: seq<Step>, after: seq<Step>)
    ensures Run(wMaxCommand, before + after) == Steps(Run(wMaxCommand, before), after)
    decreases |after|
  {
    hide Next, Sound, BufferKept, LossKept, ErrorsKept, Reports, Forgets;
    if after == [] {
      assert before + after == before;
    } else {
      var first := before + [after[0]];
      assert first[..|first| - 1] == before;
      RunOn(wMaxCommand, first, after[1..]);
      assert first + after[1..] == before + after;
    }
  }

  lemma StepsCons(s: Sys, steps: seq<Step>)
    requires Sound(s) && steps != []
    ensures Steps(s, steps) == Steps(Next(s, steps[0]), steps[1..])
  {
    hide Next, Sound, BufferKept, LossKept, ErrorsKept, Reports, Forgets;
  }

  lemma StepsNone(s: Sys)
    requires Sound(s)
    ensures Steps(s, []) == s
  {
  }
}
