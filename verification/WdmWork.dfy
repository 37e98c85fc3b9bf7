/**
 * What the interrupt callback, the two work items, reset, disconnect, release and open do to the
 * device when nobody else does anything meanwhile.
 */
module WdmWork {
  import opened WdmSpec
  import opened WdmResponse
  import opened WdmRead

  // ----- notifications -----

  /** The notification is the first one, and nothing keeps the driver from fetching. */
  predicate Asks(d: Dev) {
    d.respCount == 0 && !d.responding && !d.disconnecting
  }

  /**
   * A whole call of wdm_int_callback: the notification is counted, and the response is fetched if
   * none is owed or being fetched and the device is there. If that fails the count stays, so that
   * no other notification fetches, and only -ENOMEM leaves the rest to wdm_rxwork.
   */
  lemma NotifyExactly(s: Sys, rv: int)
    requires Sound(s) && s.intCb.IntIdle?
    ensures var d := s.dev.(responding := true, respCount := s.dev.respCount + 1);
            var e := UrbResult(s, rv);
            var r := SubmitUrb(s, rv).0;
            Next(Next(s, Notify(rv)), IntFails) ==
            if !Asks(s.dev) then s.(dev := d, notes := s.notes + 1)
            else if e == 0 then r.(dev := d, notes := s.notes + 1)
            else r.(dev := d.(responding := false), notes := s.notes + 1, rxQueued := s.rxQueued || e == -12)
  {
    hide BufferKept, LossKept, ErrorsKept, FetchKept;
  }

  // ----- wdm_rxwork -----

  /** The three steps that wdm_rxwork takes at most. */
  function RxCall(s: Sys, rv: int): (r: Sys)
    requires Sound(s)
    ensures Sound(r)
  {
    Next(Next(Next(s, RxGoes(rv)), RxGoes(rv)), RxGoes(rv))
  }

  /**
   * A whole run of wdm_rxwork: it fetches unless a response is being fetched or the device is
   * gone, and after a failure it runs again, except when the URB is poisoned: then nothing is
   * left that would clear WDM_RESPONDING.
   */
  lemma RxExactly(s: Sys, rv: int)
    requires Sound(s) && s.rx.RxIdle? && s.rxQueued
    ensures var e := UrbResult(s, rv);
            var r := SubmitUrb(s, rv).0.(rxQueued := false);
            RxCall(s, rv) ==
            if s.dev.disconnecting || s.dev.responding then s.(rxQueued := false)
            else if e == 0 || e == -1 then r.(dev := s.dev.(responding := true))
            else r.(rxQueued := true)
  {
    RxFirst(s, rv);
    hide Next, SubmitUrb, BufferKept, LossKept, ErrorsKept, FetchKept, Sound;
    var s1 := s.(rxQueued := false);
    if s.dev.disconnecting || s.dev.responding {
      RxRests(s1, rv);
    } else {
      var s2 := s1.(dev := s.dev.(responding := true), rx := RxSubmitting);
      SubmitExactly(s, rv);
      RxSecond(s2, rv);
      var s3 := Next(s2, RxGoes(rv));
      if s3.rx.RxFailed? {
        RxThird(s3, rv);
      } else {
        RxRests(s3, rv);
      }
    }
  }

  lemma RxFirst(s: Sys, rv: int)
    requires Sound(s) && s.rx.RxIdle? && s.rxQueued
    ensures Next(s, RxGoes(rv))
            == if s.dev.disconnecting || s.dev.responding then s.(rxQueued := false)
               else s.(rxQueued := false, dev := s.dev.(responding := true), rx := RxSubmitting)
  {
    hide BufferKept, LossKept, ErrorsKept, FetchKept;
  }

  lemma RxSecond(s: Sys, rv: int)
    requires Sound(s) && s.rx.RxSubmitting?
    ensures var e := UrbResult(s, rv);
            Next(s, RxGoes(rv)) == SubmitUrb(s, rv).0.(rx := if e == 0 || e == -1 then RxIdle else RxFailed)
  {
    hide BufferKept, LossKept, ErrorsKept, FetchKept;
  }

  /** If the device has gone meanwhile, wdm_rxwork does not run again on its own account. */
  lemma RxThird(s: Sys, rv: int)
    requires Sound(s) && s.rx.RxFailed?
    ensures Next(s, RxGoes(rv))
            == s.(dev := s.dev.(responding := false), rxQueued := s.rxQueued || !s.dev.disconnecting, rx := RxIdle)
  {
    hide BufferKept, LossKept, ErrorsKept, FetchKept;
  }

  lemma RxRests(s: Sys, rv: int)
    requires Sound(s) && s.rx.RxIdle? && !s.rxQueued
    ensures Next(s, RxGoes(rv)) == s
  {
    hide BufferKept, LossKept, ErrorsKept, FetchKept;
  }

  /** A stall of the interrupt endpoint loses no notification for good: wdm_rxwork fetches at once. */
  lemma StallFetches(s: Sys)
    requires Sound(s) && s.intCb.IntIdle? && s.rx.RxIdle?
    ensures RxCall(Next(s, IntStall), 0).submits
            == s.submits
               + (if s.dev.disconnecting || s.dev.responding || s.inFlight || s.poisoned then 0 else 1)
  {
    hide Next, RxCall;
    StallNext(s);
    RxExactly(Next(s, IntStall), 0);
  }

  lemma StallNext(s: Sys)
    requires Sound(s) && s.intCb.IntIdle?
    ensures Next(s, IntStall) == s.(dev := s.dev.(intStall := true), rxQueued := true)
  {
    hide BufferKept, LossKept, ErrorsKept, FetchKept;
  }

  // ----- service_interrupt_work -----

  /** The three steps that service_interrupt_work takes at most. */
  function WorkCall(s: Sys, rv: int): (r: Sys)
    requires Sound(s)
    ensures Sound(r)
  {
    Next(Next(Next(s, WorkerGoes(rv)), WorkerGoes(rv)), WorkerGoes(rv))
  }

  /**
   * A whole run of service_interrupt_work: it fetches the next response, or wakes up readers once
   * nothing is owed any more, be it that all responses are dealt with or that the submit failed.
   */
  lemma WorkExactly(s: Sys, rv: int)
    requires Sound(s) && s.worker.WorkerIdle? && s.workQueued
    ensures var e := UrbResult(s, rv);
            var s1 := s.(workQueued := false);
            var d := if FetchesNext(s.dev) then Fetched(Dealt(s.dev), e) else Dealt(s.dev);
            WorkCall(s, rv)
            == (if FetchesNext(s.dev) then SubmitUrb(s1, rv).0 else s1).(dev := d.(read := d.read || d.respCount == 0))
  {
    hide Next, SubmitUrb, Dealt, Fetched, BufferKept, LossKept, ErrorsKept, FetchKept, Sound;
    var s1 := s.(workQueued := false);
    WorkFirst(s, rv);
    if FetchesNext(s.dev) {
      var s2 := s1.(dev := Dealt(s.dev), worker := WorkerSubmitting);
      WorkSecond(s2, rv);
      WorkThird(Next(s2, WorkerGoes(rv)), rv);
      SubmitApart(s1, s2, rv);
    } else {
      WorkRests(Next(s, WorkerGoes(rv)), rv);
    }
  }

  lemma SubmitApart(s: Sys, r: Sys, rv: int)
    requires r == s.(dev := r.dev, worker := r.worker)
    ensures UrbResult(r, rv) == UrbResult(s, rv)
    ensures SubmitUrb(r, rv).0 == SubmitUrb(s, rv).0.(dev := r.dev, worker := r.worker)
    ensures SubmitUrb(s, rv).0.worker == s.worker
  {
  }

  /** Readers are woken up once nothing is owed. */
  function Woken(d: Dev): Dev {
    d.(read := d.read || d.respCount == 0)
  }

  lemma WorkFirst(s: Sys, rv: int)
    requires Sound(s) && s.worker.WorkerIdle? && s.workQueued
    ensures Next(s, WorkerGoes(rv))
            == if FetchesNext(s.dev) then s.(workQueued := false, dev := Dealt(s.dev), worker := WorkerSubmitting)
               else s.(workQueued := false, dev := Woken(Dealt(s.dev)))
  {
    hide Next, ServiceBegin, Dealt, FetchesNext, BufferKept, LossKept, ErrorsKept, FetchKept, Sound;
    DealtBegins(s.dev);
    SubmitsIf(s.dev);
    WorkerNext(s, rv);
  }

  lemma SubmitsIf(d: Dev)
    ensures ServiceBegin(d).1.Submit? <==> FetchesNext(d)
  {
  }

  lemma WorkerNext(s: Sys, rv: int)
    requires Sound(s)
    ensures Next(s, WorkerGoes(rv)) == WorkerStep(s, rv)
  {
    hide BufferKept, LossKept, ErrorsKept, FetchKept, WorkerStep;
  }

  lemma WorkSecond(s: Sys, rv: int)
    requires Sound(s) && s.worker.WorkerSubmitting?
    ensures Next(s, WorkerGoes(rv)) == SubmitUrb(s, rv).0.(worker := WorkerSubmitted(UrbResult(s, rv)))
  {
    hide BufferKept, LossKept, ErrorsKept, FetchKept;
  }

  lemma WorkThird(s: Sys, rv: int)
    requires Sound(s) && s.worker.WorkerSubmitted?
    ensures Next(s, WorkerGoes(rv)) == s.(dev := Woken(Fetched(s.dev, s.worker.rv)), worker := WorkerIdle)
  {
    hide BufferKept, LossKept, ErrorsKept, FetchKept;
  }

  lemma WorkRests(s: Sys, rv: int)
    requires Sound(s) && s.worker.WorkerIdle? && !s.workQueued
    ensures Next(s, WorkerGoes(rv)) == s
  {
    hide BufferKept, LossKept, ErrorsKept, FetchKept;
  }

  // ----- reset and disconnect -----

  /** A reset or disconnect takes `n` steps. */
  function Quieted(s: Sys, n: nat): (r: Sys)
    requires Sound(s)
    ensures Sound(r)
    decreases n
  {
    if n == 0 then s else Quieted(Next(s, QuiesceGoes), n - 1)
  }

  lemma QuietedOnce(s: Sys, n: nat)
    requires Sound(s) && n > 0
    ensures Quieted(s, n) == Quieted(QuiesceStep(s), n - 1)
  {
    hide QuiesceStep, Quieted, BufferKept, LossKept, ErrorsKept, FetchKept, Sound;
    assert Next(s, QuiesceGoes) == QuiesceStep(s);
    QuietedStep(s, n);
  }

  lemma QuietedStep(s: Sys, n: nat)
    requires Sound(s) && n > 0
    ensures Quieted(s, n) == Quieted(Next(s, QuiesceGoes), n - 1)
  {
    hide Next, Sound;
  }

  /** Nobody uses the URB, and no reader or reset is at work. */
  predicate Calm(s: Sys) {
    s.reader.Free? && s.quiesce.Running? && !s.inFlight && s.worker.WorkerIdle? && s.rx.RxIdle?
  }

  /** rlock is held, the URB is poisoned and idle, and no work is queued any more. */
  lemma Quietens(s: Sys, reset: bool, n: nat)
    requires Sound(s) && s.reader.Free? && s.quiesce == Locking(reset) && n >= 3
    requires !s.inFlight && s.worker.WorkerIdle? && s.rx.RxIdle?
    ensures var r := s.(reader := HeldByReset, poisoned := true, workQueued := false, rxQueued := false,
                        quiesce := Quiet(reset));
            Sound(r) && Quieted(s, n) == Quieted(r, n - 3)
  {
    hide Quieted, Next, BufferKept, LossKept, ErrorsKept, FetchKept;
    QuietedOnce(s, n);
    QuietedOnce(QuiesceStep(s), n - 1);
    QuietedOnce(QuiesceStep(QuiesceStep(s)), n - 2);
  }

  lemma PostReset(s: Sys)
    requires Sound(s) && s.quiesce == Quiet(true)
    ensures Quieted(s, 3)
            == s.(dev := s.dev.(overflow := false, resetting := false), poisoned := false,
                  reader := Free, quiesce := Running)
  {
    hide Quieted, Next, BufferKept, LossKept, ErrorsKept, FetchKept;
    QuietedOnce(s, 3);
    QuietedOnce(QuiesceStep(s), 2);
    QuietedOnce(QuiesceStep(QuiesceStep(s)), 1);
    QuietedNone(QuiesceStep(QuiesceStep(QuiesceStep(s))));
  }

  lemma QuietedNone(s: Sys)
    requires Sound(s)
    ensures Quieted(s, 0) == s
  {
  }

  /**
   * A whole reset that meets nobody: the next read is to return -EINTR, a loss and the queued
   * work are forgotten, and the responses that are owed and the bytes in the buffer stay.
   */
  lemma ResetAlone(s: Sys)
    requires Sound(s) && Calm(s)
    ensures Quieted(Next(s, ResetBegins), 6)
            == s.(dev := s.dev.(resetting := false, read := true, rerr := -4, overflow := false),
                  poisoned := false, workQueued := false, rxQueued := false,
                  errors := s.errors.(noted := s.errors.noted + [-4],
                                      replaced := s.errors.replaced + PendingError(s.dev)))
  {
    hide Quieted, Next, BufferKept, LossKept, ErrorsKept, FetchKept, Sound;
    ResetNext(s);
    var s1 := Next(s, ResetBegins);
    Quietens(s1, true, 6);
    PostReset(s1.(reader := HeldByReset, poisoned := true, workQueued := false, rxQueued := false,
                  quiesce := Quiet(true)));
  }

  lemma ResetNext(s: Sys)
    requires Sound(s) && s.quiesce.Running?
    ensures Next(s, ResetBegins)
            == s.(dev := s.dev.(resetting := true, read := true, rerr := -4), quiesce := Locking(true),
                  errors := s.errors.(noted := s.errors.noted + [-4],
                                      replaced := s.errors.replaced + PendingError(s.dev)))
  {
    hide BufferKept, LossKept, ErrorsKept, FetchKept;
  }

  /** A whole disconnect that meets nobody: the URB stays poisoned, and readers do not wait any more. */
  lemma DisconnectAlone(s: Sys)
    requires Sound(s) && Calm(s)
    ensures Quieted(Next(s, DisconnectBegins), 4)
            == s.(dev := s.dev.(disconnecting := true, read := true),
                  poisoned := true, workQueued := false, rxQueued := false)
  {
    hide Quieted, Next, BufferKept, LossKept, ErrorsKept, FetchKept;
    DisconnectNext(s);
    var s1 := Next(s, DisconnectBegins);
    Quietens(s1, false, 4);
    var s2 := s1.(reader := HeldByReset, poisoned := true, workQueued := false, rxQueued := false,
                  quiesce := Quiet(false));
    QuietedOnce(s2, 1);
    QuietedNone(QuiesceStep(s2));
  }

  lemma DisconnectNext(s: Sys)
    requires Sound(s) && s.quiesce.Running?
    ensures Next(s, DisconnectBegins)
            == s.(dev := s.dev.(disconnecting := true, read := true), quiesce := Locking(false))
  {
    hide BufferKept, LossKept, ErrorsKept, FetchKept;
  }

  // ----- readers that wait -----

  /** A reader that waits when a reset begins returns -EIO, and one that waits when the device goes, -ENODEV. */
  lemma WaitersReturn(s: Sys, signal: bool, n: nat)
    requires Sound(s) && s.reader.AwaitRead? && s.quiesce.Running? && !s.dev.disconnecting && n >= 3
    ensures Alone(Next(s, ResetBegins), signal, false, n).reader == Leave(Errno(-5))
    ensures Alone(Next(s, DisconnectBegins), signal, false, n).reader == Leave(Errno(-19))
  {
    hide Next, Alone, BufferKept, LossKept, ErrorsKept, FetchKept, Sound;
    var call := s.reader.call;
    var s0 := s.(reader := Free);
    ResetNext(s);
    DisconnectNext(s);
    FreeSound(s);
    FreeSound(Next(s, ResetBegins));
    FreeSound(Next(s, DisconnectBegins));
    AfterWait(Next(s, ResetBegins).(reader := Free), call, signal, false, n);
    assert Next(s, ResetBegins).(reader := Free).(reader := AwaitRead(call)) == Next(s, ResetBegins);
    var d := Next(s, DisconnectBegins).(reader := Free);
    assert d.(reader := AwaitRead(call)) == Next(s, DisconnectBegins);
    Tests(d, signal, false, AwaitRead(call), TestGoneAgain(call, false), n);
    Tests(d, signal, false, TestGoneAgain(call, false), Leave(Errno(-19)), n - 1);
    AloneDone(d.(reader := Leave(Errno(-19))), signal, false, n - 2);
  }

  lemma FreeSound(s: Sys)
    requires Sound(s) && !s.reader.HeldByReset?
    ensures Sound(s.(reader := Free))
  {
  }

  // ----- release and open -----

  /** Once the last file is closed and the URB is idle, the next notification fetches; bytes and errors stay. */
  lemma ReleaseFetches(s: Sys)
    requires Sound(s) && s.reader.Free? && s.quiesce.Running? && !s.inFlight
    ensures Next(s, Release) == s.(dev := s.dev.(respCount := 0, responding := false))
    ensures !s.dev.disconnecting ==> Asks(Next(s, Release).dev)
  {
    hide BufferKept, LossKept, ErrorsKept, FetchKept;
  }

  /** Opening the device forgets the pending error and nothing else. */
  lemma OpenForgets(s: Sys)
    requires Sound(s)
    ensures Next(s, Open)
            == s.(dev := s.dev.(rerr := 0), errors := s.errors.(replaced := s.errors.replaced + PendingError(s.dev)))
  {
    hide BufferKept, LossKept, ErrorsKept, FetchKept;
  }
}
