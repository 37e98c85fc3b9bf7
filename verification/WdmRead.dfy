/**
 * What a read comes to: the value that the caller gets and what becomes of the device, for a
 * reader that nobody disturbs, and the three sections under the lock for any reader.
 */
module WdmRead {
  import opened Bytes
  import opened WdmSpec
  import opened WdmResponse

  // ----- the sections under the lock -----

  /** One response fewer is owed. */
  function Fewer(n: nat): nat {
    if n == 0 then 0 else n - 1
  }

  /** One more response is owed, and the driver may ask for it. */
  predicate FetchesNext(d: Dev) {
    d.respCount > 1 && !d.disconnecting && !d.resetting
  }

  /** The device once one response is dealt with. */
  function Dealt(d: Dev): Dev {
    d.(respCount := Fewer(d.respCount), responding := d.responding || FetchesNext(d))
  }

  lemma ServiceExactly(s: Sys, d: Dev, after: After)
    requires d.Valid() && (s.quiesce.Running? || s.quiesce.Locking?) && !s.reader.LeaveNoBufs?
    requires |s.tags| == |s.accepted|
    ensures ReaderService(s, d, after) == s.(dev := Dealt(d), reader := ServedTo(d, after))
  {
    hide ServiceBegin, Dealt, AfterService, ServedTo, BufferKept, LossKept, ErrorsKept, FetchKept, Sound;
    DealtBegins(d);
    DealtTo(d, after);
  }

  lemma DealtBegins(d: Dev)
    ensures ServiceBegin(d).0 == Dealt(d)
  {
  }

  lemma DealtTo(d: Dev, after: After)
    ensures var service := ServiceBegin(d).1;
            ServedTo(d, after) == if service.Submit? then Submitting(after) else AfterService(after, service.rv)
  {
  }

  /** Where that leaves a reader: nothing is fetched for -ENODEV and -EIO, which only a reader without bytes returns. */
  function ServedTo(d: Dev, after: After): Reader {
    if FetchesNext(d) then Submitting(after)
    else if after.Return? then Leave(Got(after.n))
    else if d.respCount <= 1 then TestGone(after.call)
    else Leave(Errno(if d.disconnecting then -19 else -5))
  }

  /**
   * The locked check: an error first, then a lost race, then a response without bytes, which is
   * dealt with on the spot; otherwise whatever is in the buffer now.
   */
  lemma CheckExactly(s: Sys, step: Step)
    requires Sound(s) && s.reader.LockedCheck? && step.ReaderGoes?
    ensures var d := s.dev;
            var call := s.reader.call;
            Next(s, step) ==
            if d.rerr != 0 then s.(dev := d.(rerr := 0), reader := Leave(Translated(d.rerr)))
            else if !d.read then s.(reader := TestGone(call))
            else if d.reslength == 0 then
              s.(dev := Dealt(d.(read := false)), reader := ServedTo(d, Retry(call)))
            else s.(reader := Copying(if d.length < call.count then d.length else call.count, []))
  {
    ChecksNext(s, step);
    hide Next, ReaderService, Dealt, ServedTo, BufferKept, LossKept, ErrorsKept, FetchKept, Sound;
    if CheckOf(s.dev).ZeroLength? {
      ServiceExactly(s, AfterCheck(s.dev), Retry(s.reader.call));
      DealtApart(s.dev, Retry(s.reader.call));
    }
  }

  lemma DealtApart(d: Dev, after: After)
    ensures ServedTo(d.(read := false), after) == ServedTo(d, after)
  {
  }

  lemma ChecksNext(s: Sys, step: Step)
    requires Sound(s) && s.reader.LockedCheck? && step.ReaderGoes?
    ensures Next(s, step) == CheckStep(s, s.reader.call)
  {
    hide BufferKept, LossKept, ErrorsKept, FetchKept, CheckStep, CopyStep, SubmitStep, WaitStep;
  }

  /**
   * Once `n` bytes are copied they are gone from the buffer; if that empties it, the reader that
   * took them deals with the next response.
   */
  ghost predicate Takes(s: Sys, r: Sys, n: nat)
    requires s.dev.Valid() && n <= s.dev.length
  {
    var d := s.dev.(ubuf := r.dev.ubuf, length := s.dev.length - n);
    && |r.dev.ubuf| == |s.dev.ubuf| && r.dev.ubuf[..d.length] == s.dev.ubuf[n..s.dev.length]
    && r == s.(dev := r.dev, reader := r.reader, returned := s.returned + s.dev.ubuf[..n])
    && r.dev == (if d.length > 0 then d else Dealt(d.(read := false)))
    && r.reader == (if d.length > 0 then Leave(Got(n)) else ServedTo(d, Return(n)))
  }

  lemma ShiftExactly(s: Sys, step: Step)
    requires Sound(s) && s.reader.Copying? && step.ReaderGoes?
    requires s.reader.copied == s.dev.ubuf[..s.reader.cntr]
    ensures Takes(s, Next(s, step), s.reader.cntr)
  {
    CopiesNext(s, step);
    ConsumeExactly(s.dev, s.reader.cntr);
    hide Next, Consume, Dealt, ServedTo, BufferKept, LossKept, ErrorsKept, FetchKept, Sound;
    CopyEnds(s, step.fault);
    var d := Consume(s.dev, s.reader.cntr).0;
    DealtApart(d.(read := s.dev.read), Return(s.reader.cntr));
  }

  lemma ConsumeExactly(d: Dev, n: nat)
    requires d.Valid() && n <= d.length
    ensures var (r, empty) := Consume(d, n);
            && r == d.(ubuf := r.ubuf, length := d.length - n, read := d.read && !empty)
            && |r.ubuf| == |d.ubuf| && r.ubuf[..r.length] == d.ubuf[n..d.length]
            && empty == (r.length == 0)
  {
  }

  lemma CopyEnds(s: Sys, fault: bool)
    requires Sound(s) && s.reader.Copying? && |s.reader.copied| == s.reader.cntr
    ensures var n := s.reader.cntr;
            var (d, empty) := Consume(s.dev, n);
            CopyStep(s, fault)
            == s.(dev := if empty then Dealt(d) else d, returned := s.returned + s.reader.copied,
                  reader := if empty then ServedTo(d, Return(n)) else Leave(Got(n)))
  {
    hide ReaderService, Dealt, ServedTo, ShiftLeft, BufferKept, LossKept, ErrorsKept, FetchKept;
    var (d, empty) := Consume(s.dev, s.reader.cntr);
    if empty {
      ServiceExactly(s.(returned := s.returned + s.reader.copied), d, Return(s.reader.cntr));
    }
  }

  lemma CopiesNext(s: Sys, step: Step)
    requires Sound(s) && s.reader.Copying? && step.ReaderGoes?
    ensures Next(s, step) == CopyStep(s, step.fault)
  {
    hide BufferKept, LossKept, ErrorsKept, FetchKept, CheckStep, CopyStep, SubmitStep, WaitStep;
  }

  // ----- a reader that nobody disturbs -----

  /** The reader is about to return, or to submit the URB. */
  predicate Settled(reader: Reader) {
    reader.Free? || reader.Leave? || reader.LeaveNoBufs? || reader.Submitting? || reader.HeldByReset?
  }

  /** At most `n` steps of the reader alone, while signals wait for it or not, and copies fault or not. */
  function Alone(s: Sys, signal: bool, fault: bool, n: nat): (r: Sys)
    requires Sound(s)
    ensures Sound(r)
    decreases n
  {
    if n == 0 || Settled(s.reader) then s
    else Alone(Next(s, ReaderGoes(0, signal, fault)), signal, fault, n - 1)
  }

  lemma AloneOnce(s: Sys, signal: bool, fault: bool, n: nat)
    requires Sound(s) && n > 0 && !Settled(s.reader)
    ensures Alone(s, signal, fault, n) == Alone(Next(s, ReaderGoes(0, signal, fault)), signal, fault, n - 1)
  {
    hide Next, Sound;
  }

  lemma AloneDone(s: Sys, signal: bool, fault: bool, n: nat)
    requires Sound(s) && Settled(s.reader)
    ensures Alone(s, signal, fault, n) == s
  {
    hide Next, Sound;
  }

  /** In front of the locked check. */
  predicate Testing(reader: Reader) {
    || reader.Begin? || reader.TestGone? || reader.TestOverflow? || reader.AwaitRead?
    || reader.TestGoneAgain? || reader.TestReset?
  }

  lemma TestsNext(s: Sys, signal: bool, fault: bool)
    requires Sound(s) && Testing(s.reader)
    ensures Next(s, ReaderGoes(0, signal, fault)) == s.(reader := Waited(s.dev, s.reader, signal))
  {
    hide Waited, CheckStep, CopyStep, SubmitStep, ReturnStep, BufferKept, LossKept, ErrorsKept, FetchKept;
  }

  lemma Tests(s: Sys, signal: bool, fault: bool, reader: Reader, reader': Reader, n: nat)
    requires Sound(s) && s.reader.Free? && n > 0 && Testing(reader) && reader' == Waited(s.dev, reader, signal)
    requires reader'.Copying? ==> reader'.copied == [] && reader'.cntr <= s.dev.length
    ensures Sound(s.(reader := reader)) && Sound(s.(reader := reader'))
    ensures Alone(s.(reader := reader), signal, fault, n) == Alone(s.(reader := reader'), signal, fault, n - 1)
  {
    hide Next, Alone, Waited, BufferKept, LossKept, ErrorsKept, FetchKept;
    TestsNext(s.(reader := reader), signal, fault);
    AloneOnce(s.(reader := reader), signal, fault, n);
  }

  /** What becomes of a reader that has to wait: nothing, a signal, or -EAGAIN. */
  function InVain(d: Dev, call: Call, signal: bool): Reader {
    if call.nonblock then Leave(Errno(-11))
    else if !signal then AwaitRead(call)
    else Leave(Errno(if d.resetting then -5 else -512))
  }

  /** From the label retry to the wait. */
  lemma BeforeWait(s: Sys, call: Call, signal: bool, fault: bool, n: nat)
    requires Sound(s) && s.reader.Free? && n >= 3
    ensures Sound(s.(reader := TestGone(call))) && Sound(s.(reader := AwaitRead(call)))
    ensures var r := Alone(s.(reader := TestGone(call)), signal, fault, n);
            if s.dev.disconnecting then r == s.(reader := Leave(Errno(-19)))
            else if s.dev.overflow then r == s.(dev := s.dev.(overflow := false), reader := LeaveNoBufs(s.discards))
            else r == Alone(s.(reader := AwaitRead(call)), signal, fault, n - 2)
  {
    hide Next, Alone, BufferKept, LossKept, ErrorsKept, FetchKept, Sound;
    if s.dev.disconnecting {
      Tests(s, signal, fault, TestGone(call), Leave(Errno(-19)), n);
      AloneDone(s.(reader := Leave(Errno(-19))), signal, fault, n - 1);
      NoCopy(s, AwaitRead(call));
    } else if s.dev.overflow {
      Tests(s, signal, fault, TestGone(call), TestOverflow(call), n);
      Tests(s, signal, fault, TestOverflow(call), ClearOverflow(call), n - 1);
      ClearsNext(s.(reader := ClearOverflow(call)), signal, fault);
      AloneOnce(s.(reader := ClearOverflow(call)), signal, fault, n - 2);
      NoCopy(s, AwaitRead(call));
      AloneDone(s.(dev := s.dev.(overflow := false), reader := LeaveNoBufs(s.discards)), signal, fault, n - 3);
    } else {
      Tests(s, signal, fault, TestGone(call), TestOverflow(call), n);
      Tests(s, signal, fault, TestOverflow(call), AwaitRead(call), n - 1);
    }
  }

  lemma NoCopy(s: Sys, reader: Reader)
    requires Sound(s) && s.reader.Free? && !reader.Copying? && !reader.HeldByReset?
    ensures Sound(s.(reader := reader))
  {
  }

  lemma ClearsNext(s: Sys, signal: bool, fault: bool)
    requires Sound(s) && s.reader.ClearOverflow?
    ensures Next(s, ReaderGoes(0, signal, fault))
            == s.(dev := s.dev.(overflow := false), reader := LeaveNoBufs(s.discards))
  {
    hide BufferKept, LossKept, ErrorsKept, FetchKept, CheckStep, CopyStep, SubmitStep, WaitStep;
  }

  /** The wait itself, while WDM_READ is not set. */
  lemma {:induction false} WaitsInVain(s: Sys, call: Call, signal: bool, fault: bool, n: nat)
    requires Sound(s) && s.reader.Free? && !s.dev.read && !s.dev.disconnecting && n >= 3
    ensures Sound(s.(reader := AwaitRead(call)))
    ensures Alone(s.(reader := AwaitRead(call)), signal, fault, n) == s.(reader := InVain(s.dev, call, signal))
  {
    hide Next, Alone, BufferKept, LossKept, ErrorsKept, FetchKept, Sound;
    if call.nonblock {
      Tests(s, signal, fault, AwaitRead(call), Leave(Errno(-11)), n);
      AloneDone(s.(reader := Leave(Errno(-11))), signal, fault, n - 1);
    } else if signal {
      var e := Errno(if s.dev.resetting then -5 else -512);
      Tests(s, signal, fault, AwaitRead(call), TestGoneAgain(call, true), n);
      Tests(s, signal, fault, TestGoneAgain(call, true), TestReset(call, true), n - 1);
      Tests(s, signal, fault, TestReset(call, true), Leave(e), n - 2);
      AloneDone(s.(reader := Leave(e)), signal, fault, n - 3);
    } else {
      KeepsWaiting(s, call, fault, n);
    }
  }

  lemma {:induction false} KeepsWaiting(s: Sys, call: Call, fault: bool, n: nat)
    requires Sound(s) && s.reader.Free? && !s.dev.read && !call.nonblock
    ensures Sound(s.(reader := AwaitRead(call)))
    ensures Alone(s.(reader := AwaitRead(call)), false, fault, n) == s.(reader := AwaitRead(call))
  {
    hide Next, BufferKept, LossKept, ErrorsKept, FetchKept, Sound;
    NoCopy(s, AwaitRead(call));
    if n > 0 {
      Tests(s, false, fault, AwaitRead(call), AwaitRead(call), n);
      KeepsWaiting(s, call, fault, n - 1);
    }
  }

  /** From a wait that is over at once to the locked check. */
  lemma AfterWait(s: Sys, call: Call, signal: bool, fault: bool, n: nat)
    requires Sound(s) && s.reader.Free? && s.dev.read && !s.dev.disconnecting && n >= 3
    ensures Sound(s.(reader := AwaitRead(call))) && Sound(s.(reader := LockedCheck(call)))
    ensures Alone(s.(reader := AwaitRead(call)), signal, fault, n)
            == if s.dev.resetting then s.(reader := Leave(Errno(-5)))
               else Alone(s.(reader := LockedCheck(call)), signal, fault, n - 3)
  {
    hide Next, Alone, BufferKept, LossKept, ErrorsKept, FetchKept, Sound;
    Tests(s, signal, fault, AwaitRead(call), TestGoneAgain(call, false), n);
    Tests(s, signal, fault, TestGoneAgain(call, false), TestReset(call, false), n - 1);
    NoCopy(s, LockedCheck(call));
    if s.dev.resetting {
      Tests(s, signal, fault, TestReset(call, false), Leave(Errno(-5)), n - 2);
      AloneDone(s.(reader := Leave(Errno(-5))), signal, fault, n - 3);
    } else {
      Tests(s, signal, fault, TestReset(call, false), LockedCheck(call), n - 2);
    }
  }

  // ----- copying -----

  lemma CopyNext(s: Sys, signal: bool, fault: bool)
    requires Sound(s) && s.reader.Copying? && |s.reader.copied| < s.reader.cntr
    ensures var i := |s.reader.copied|;
            Next(s, ReaderGoes(0, signal, fault))
            == s.(reader := if fault then Leave(Errno(-14))
                            else Copying(s.reader.cntr, s.reader.copied + [s.dev.ubuf[i]]))
  {
    hide Next, BufferKept, LossKept, ErrorsKept, FetchKept, Consume, ReaderService;
    CopiesNext(s, ReaderGoes(0, signal, fault));
  }

  /** A reader that copies gets all the bytes it asked for and there are, or -EFAULT and none. */
  lemma {:induction false} Copies(s: Sys, cntr: nat, copied: seq<Byte>, signal: bool, fault: bool, n: nat)
    requires Sound(s) && s.reader.Free? && |copied| <= cntr <= s.dev.length
    requires copied == s.dev.ubuf[..|copied|] && n > cntr - |copied|
    ensures Sound(s.(reader := Copying(cntr, copied)))
    ensures var r := Alone(s.(reader := Copying(cntr, copied)), signal, fault, n);
            if fault && |copied| < cntr then r == s.(reader := Leave(Errno(-14))) else Takes(s, r, cntr)
    decreases cntr - |copied|
  {
    hide Next, Alone, Takes, BufferKept, LossKept, ErrorsKept, FetchKept;
    var s1 := s.(reader := Copying(cntr, copied));
    AloneOnce(s1, signal, fault, n);
    var s2 := Next(s1, ReaderGoes(0, signal, fault));
    if |copied| < cntr {
      CopyNext(s1, signal, fault);
      if fault {
        AloneDone(s2, signal, fault, n - 1);
      } else {
        Copies(s, cntr, copied + [s.dev.ubuf[|copied|]], signal, fault, n - 1);
      }
    } else {
      ShiftExactly(s1, ReaderGoes(0, signal, fault));
      ShiftSettles(s, s1, s2, cntr);
      AloneDone(s2, signal, fault, n - 1);
    }
  }

  lemma ShiftSettles(s: Sys, s1: Sys, r: Sys, n: nat)
    requires s.dev.Valid() && n <= s.dev.length && s1 == s.(reader := s1.reader) && Takes(s1, r, n)
    ensures Takes(s, r, n) && Settled(r.reader)
  {
  }

  // ----- the whole read -----

  /** What a read comes to: the caller gets the first reason in this order, or bytes. */
  ghost predicate Result(s: Sys, call: Call, signal: bool, fault: bool, r: Sys)
    requires s.dev.Valid()
  {
    var d := s.dev;
    var n := Least(d.length, call.count);
    if d.length > 0 && n > 0 && fault then r == s.(reader := Leave(Errno(-14)))
    else if d.length > 0 then Takes(s, r, n)
    else if d.disconnecting then r == s.(reader := Leave(Errno(-19)))
    else if d.overflow then r == s.(dev := d.(overflow := false), reader := LeaveNoBufs(s.discards))
    else if !d.read then r == s.(reader := InVain(d, call, signal))
    else if d.resetting then r == s.(reader := Leave(Errno(-5)))
    else if d.rerr != 0 then r == s.(dev := d.(rerr := 0), reader := Leave(Translated(d.rerr)))
    else if d.reslength > 0 then Takes(s, r, 0)
    else
      var dealt := Dealt(d.(read := false));
      r == s.(dev := dealt, reader := if FetchesNext(d) then Submitting(Retry(call)) else InVain(dealt, call, signal))
  }

  /** From the locked check on, with nothing in the buffer. */
  lemma FromCheck(s: Sys, call: Call, signal: bool, fault: bool, n: nat)
    requires Sound(s) && s.reader.Free? && n >= 7
    requires s.dev.length == 0 && !s.dev.disconnecting && !s.dev.overflow && s.dev.read && !s.dev.resetting
    ensures Sound(s.(reader := LockedCheck(call)))
    ensures Result(s, call, signal, fault, Alone(s.(reader := LockedCheck(call)), signal, fault, n))
  {
    hide Next, Alone, Takes, BufferKept, LossKept, ErrorsKept, FetchKept, Sound;
    var d := s.dev;
    NoCopy(s, LockedCheck(call));
    var s1 := s.(reader := LockedCheck(call));
    AloneOnce(s1, signal, fault, n);
    CheckExactly(s1, ReaderGoes(0, signal, fault));
    var s2 := Next(s1, ReaderGoes(0, signal, fault));
    if d.rerr != 0 || (d.reslength == 0 && FetchesNext(d)) {
      AloneDone(s2, signal, fault, n - 1);
    } else if d.reslength == 0 {
      NothingMore(s, call, signal, fault, n - 1);
    } else {
      Copies(s, 0, [], signal, fault, n - 1);
    }
  }

  lemma NothingMore(s: Sys, call: Call, signal: bool, fault: bool, n: nat)
    requires Sound(s) && s.reader.Free? && n >= 6 && s.dev.respCount <= 1
    requires !s.dev.disconnecting && !s.dev.overflow
    ensures var dealt := Dealt(s.dev.(read := false));
            && Sound(s.(dev := dealt, reader := TestGone(call)))
            && Alone(s.(dev := dealt, reader := TestGone(call)), signal, fault, n)
               == s.(dev := dealt, reader := InVain(dealt, call, signal))
  {
    hide Next, Alone, BufferKept, LossKept, ErrorsKept, FetchKept;
    var s1 := s.(dev := Dealt(s.dev.(read := false)));
    BeforeWait(s1, call, signal, fault, n);
    WaitsInVain(s1, call, signal, fault, n - 2);
  }

  /**
   * In every state in which a reader may begin: what the call comes to if nobody else does
   * anything meanwhile, and what it leaves behind.
   */
  lemma ReadAlone(s: Sys, call: Call, signal: bool, fault: bool, n: nat)
    requires Sound(s) && s.reader.Free? && n >= 13 + Least(s.dev.length, call.count)
    ensures Result(s, call, signal, fault, Alone(Next(s, ReadBegins(call)), signal, fault, n))
  {
    hide Next, Alone, Takes, InVain, BufferKept, LossKept, ErrorsKept, FetchKept, Sound;
    ReadStarts(s, call);
    if s.dev.length > 0 {
      LengthFits(s);
      Tests(s, signal, fault, Begin(call), Copying(Least(s.dev.length, call.count), []), n);
      Copies(s, Least(s.dev.length, call.count), [], signal, fault, n - 1);
    } else {
      Tests(s, signal, fault, Begin(call), TestGone(call), n);
      BeforeWait(s, call, signal, fault, n - 1);
      if !s.dev.disconnecting && !s.dev.overflow {
        WaitAndCheck(s, call, signal, fault, n - 3);
      }
    }
  }

  lemma LengthFits(s: Sys)
    requires Sound(s)
    ensures s.dev.length <= |s.dev.ubuf|
  {
  }

  lemma WaitAndCheck(s: Sys, call: Call, signal: bool, fault: bool, n: nat)
    requires Sound(s) && s.reader.Free? && n >= 10
    requires s.dev.length == 0 && !s.dev.disconnecting && !s.dev.overflow
    ensures Sound(s.(reader := AwaitRead(call)))
    ensures Result(s, call, signal, fault, Alone(s.(reader := AwaitRead(call)), signal, fault, n))
  {
    hide Next, Alone, Takes, InVain, BufferKept, LossKept, ErrorsKept, FetchKept, Sound;
    if !s.dev.read {
      WaitsInVain(s, call, signal, fault, n);
    } else {
      AfterWait(s, call, signal, fault, n);
      if !s.dev.resetting {
        FromCheck(s, call, signal, fault, n - 3);
      }
    }
  }

  lemma ReadStarts(s: Sys, call: Call)
    requires Sound(s) && s.reader.Free?
    ensures Next(s, ReadBegins(call)) == s.(reader := Begin(call))
  {
    hide BufferKept, LossKept, ErrorsKept, FetchKept;
  }

  // ----- fetching on behalf of a reader -----

  /** What usb_submit_urb returns: -EBUSY in flight, -EPERM poisoned, or else what the host controller says. */
  function UrbResult(s: Sys, rv: int): int {
    if s.inFlight then -16 else if s.poisoned then -1 else if rv < 0 then rv else 0
  }

  lemma SubmitExactly(s: Sys, rv: int)
    ensures var e := UrbResult(s, rv);
            SubmitUrb(s, rv)
            == (s.(inFlight := s.inFlight || e == 0, submits := s.submits + (if e == 0 then 1 else 0),
                   collisions := s.collisions + (if s.inFlight then 1 else 0)), e)
  {
  }

  /** What `rv` leaves of a service: after a failure nothing is owed and nothing is being fetched. */
  function Fetched(d: Dev, rv: int): Dev {
    if rv == 0 then d else d.(responding := false, respCount := 0)
  }

  /**
   * A reader that fetches the next response: one that has bytes returns them whatever comes of
   * it, one that has none goes back to waiting or returns the error.
   */
  lemma FetchEnds(s: Sys, rv: int, step: Step)
    requires Sound(s) && s.reader.Submitting? && step.ReaderGoes?
    ensures var e := UrbResult(s, rv);
            var after := s.reader.after;
            Next(Next(s, ReaderGoes(rv, false, false)), step)
            == SubmitUrb(s, rv).0.(dev := Fetched(s.dev, e),
                 reader := if after.Return? then Leave(Got(after.n))
                           else if e == 0 then TestGone(after.call)
                           else Leave(Errno(e)))
  {
    hide Next, BufferKept, LossKept, ErrorsKept, FetchKept, Sound;
    var e := UrbResult(s, rv);
    var s1 := SubmitUrb(s, rv).0.(reader := Submitted(s.reader.after, e));
    SubmitExactly(s, rv);
    SubmitsNext(s, ReaderGoes(rv, false, false));
    SubmitsNext(s1, step);
    hide UrbResult, SubmitUrb;
  }

  lemma SubmitsNext(s: Sys, step: Step)
    requires Sound(s) && (s.reader.Submitting? || s.reader.Submitted?) && step.ReaderGoes?
    ensures Next(s, step) == SubmitStep(s, step.rv)
  {
    hide BufferKept, LossKept, ErrorsKept, FetchKept, CheckStep, CopyStep, SubmitStep, WaitStep;
  }

  // ----- the last response -----

  /** The length of the last response that was stored. */
  function LastResponse(wMaxCommand: nat, steps: seq<Step>): nat {
    if steps == [] then 0
    else
      var before := steps[..|steps| - 1];
      var step := steps[|steps| - 1];
      if Stores(Run(wMaxCommand, before), step) then |step.data| else LastResponse(wMaxCommand, before)
  }

  /** The response was not killed, it fits, and no loss is before it. */
  predicate Stores(s: Sys, step: Step) {
    && step.Complete? && s.inFlight && s.dev.length + |step.data| <= |s.dev.ubuf| && !s.dev.overflow
    && step.status != -2 && step.status != -104 && step.status != -108
  }

  lemma StoresLength(s: Sys, step: Step)
    requires Sound(s)
    ensures Next(s, step).dev.reslength == if Stores(s, step) then |step.data| else s.dev.reslength
  {
    hide Next, CompleteStep, CopyStep, LossKept, ErrorsKept, FetchKept;
    if step.ReaderGoes? && s.reader.Copying? {
      CopiesNext(s, step);
      CopyLength(s, step.fault);
    } else if step.Complete? {
      CompleteLength(s, step.status, step.data);
    }
  }

  lemma CopyLength(s: Sys, fault: bool)
    requires Sound(s) && s.reader.Copying?
    ensures CopyStep(s, fault).dev.reslength == s.dev.reslength
  {
    hide Consume, BufferKept, LossKept, ErrorsKept, FetchKept;
  }

  lemma CompleteLength(s: Sys, status: int, data: seq<Byte>)
    requires Sound(s)
    ensures var step := Complete(status, data);
            Next(s, step).dev.reslength == if Stores(s, step) then |data| else s.dev.reslength
  {
    hide Patch, Repeat, BufferKept, LossKept, ErrorsKept, FetchKept;
  }

  /** In every run: what the locked check of a read looks at is the length of the last response that was stored. */
  lemma {:induction false} LastLength(wMaxCommand: nat, steps: seq<Step>)
    ensures Run(wMaxCommand, steps).dev.reslength == LastResponse(wMaxCommand, steps)
  {
    hide Next, Stores;
    if steps != [] {
      LastLength(wMaxCommand, steps[..|steps| - 1]);
      StoresLength(Run(wMaxCommand, steps[..|steps| - 1]), steps[|steps| - 1]);
    }
  }
}
