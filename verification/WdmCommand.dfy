/**
 * The command path of the WDM driver: any number of writers, the completion of the command
 * URB, reset and disconnect take steps in any order. One step is one atomic bit operation, one
 * store, one submit or one call into the allocator.
 */
module WdmCommand {
  import opened Options

  /** Where in wdm_write a writer is; from TestGone to UnlockDone it holds wlock. */
  datatype Writer =
    | WantLock(nonblock: bool)
    | TestGone(nonblock: bool)
    | AwaitIdle(nonblock: bool)
    | TestReset(failed: bool)
    | TestGoneAgain(failed: bool)
    | FillUrb
    | SetInUse
    | SetOutbuf
    | SubmitUrb
    | FailOutbuf
    | FailInUse
    | UnlockFree
    | FreeBuf
    | UnlockDone

  /** wdm_out_callback for the URB that carried `buf`. */
  datatype Callback =
    | NoCallback
    | NoteStatus(buf: nat, status: int)
    | FreeOutbuf(buf: nat)
    | ClearOutbuf
    | ClearInUse

  datatype Lock = Unlocked | ByWriter(w: nat) | ByReset

  /** wdm_pre_reset and wdm_post_reset, or wdm_disconnect. */
  datatype Quiesce =
    | Running
    | Clearing
    | Locking(reset: bool)
    | Poisoning(reset: bool)
    | Killing(reset: bool)
    | Quiet(reset: bool)
    | Unpoisoned
    | Unlocking

  /** What writers, the callback and resets share. A buffer is named by the write that duplicated it. */
  datatype Shared = Shared(
    inUse: bool,               // WDM_IN_USE
    resetting: bool,           // WDM_RESETTING
    disconnecting: bool,       // WDM_DISCONNECTING
    werr: int,
    outbuf: Option<nat>,
    transfer: nat,             // the transfer buffer of the command URB
    flight: Option<nat>,       // the buffer of the command URB while it is in flight
    callback: Callback,
    poisoned: bool,
    wlock: Lock,
    quiesce: Quiesce,
    freed: multiset<nat>,
    misuses: nat               // times the URB was filled or submitted while it was in use
  ) {
    /** The URB is in flight or its completion handler runs. */
    predicate Busy() {
      flight.Some? || !callback.NoCallback?
    }

    /** The buffer that the URB or its completion handler is responsible for. */
    function Cargo(): Option<nat> {
      if flight.Some? then flight
      else if callback.NoteStatus? || callback.FreeOutbuf? then Some(callback.buf)
      else None
    }
  }

  /** `told` has every status that a call of wdm_write returned at once, in order. */
  datatype Sys = Sys(c: Shared, writers: map<nat, Writer>, next: nat, told: seq<int>)

  datatype Step =
    | Write(dupFails: bool, nonblock: bool)
    | WriterGoes(w: nat, interrupted: bool, rv: int)
    | Complete(status: int)
    | CallbackGoes
    | ResetBegins
    | DisconnectBegins
    | QuiesceGoes
    | Open

  function Init(): Sys {
    var c := Shared(false, false, false, 0, None, 0, None, NoCallback, false, Unlocked, Running, multiset{}, 0);
    Sys(c, map[], 0, [])
  }

  // ----- wdm_write -----

  /** Up to the decision whether the command may be sent. */
  function EnterStep(c: Shared, w: nat, writer: Writer, interrupted: bool): (Shared, Writer) {
    match writer
    case WantLock(nonblock) =>
      if interrupted then (c, FreeBuf)
      else if c.wlock.Unlocked? then (c.(wlock := ByWriter(w)), TestGone(nonblock))
      else (c, writer)
    case TestGone(nonblock) => (c, if c.disconnecting then UnlockFree else AwaitIdle(nonblock))
    case AwaitIdle(nonblock) =>
      (c, if !c.inUse then TestReset(false) else if nonblock || interrupted then TestReset(true) else writer)
    case TestReset(failed) => (c, TestGoneAgain(failed || c.resetting))
    case TestGoneAgain(failed) => (c, if failed || c.disconnecting then UnlockFree else FillUrb)
    case _ => (c, writer)
  }

  /** Sending the command, and what happens when that fails. */
  function SendStep(c: Shared, w: nat, writer: Writer, rv: int): (Shared, Writer) {
    match writer
    case FillUrb => (c.(transfer := w, misuses := c.misuses + (if c.Busy() then 1 else 0)), SetInUse)
    case SetInUse => (c.(inUse := true), SetOutbuf)
    case SetOutbuf => (c.(outbuf := Some(w)), SubmitUrb)
    case SubmitUrb =>
      if c.Busy() then (c.(misuses := c.misuses + 1), FailOutbuf)
      else if c.poisoned || rv < 0 then (c, FailOutbuf)
      else (c.(flight := Some(c.transfer)), UnlockDone)
    case FailOutbuf => (c.(outbuf := None), FailInUse)
    case FailInUse => (c.(inUse := false), UnlockFree)
    case UnlockFree => (c.(wlock := Unlocked), FreeBuf)
    case _ => (c, writer)
  }

  predicate Enters(writer: Writer) {
    writer.WantLock? || writer.TestGone? || writer.AwaitIdle? || writer.TestReset? || writer.TestGoneAgain?
  }

  function WriterStep(s: Sys, w: nat, interrupted: bool, rv: int): Sys
    requires w in s.writers
  {
    var writer := s.writers[w];
    if writer.FreeBuf? then s.(c := s.c.(freed := s.c.freed + multiset{w}), writers := s.writers - {w})
    else if writer.UnlockDone? then s.(c := s.c.(wlock := Unlocked), writers := s.writers - {w})
    else
      var (c, writer') :=
        if Enters(writer) then EnterStep(s.c, w, writer, interrupted) else SendStep(s.c, w, writer, rv);
      s.(c := c, writers := s.writers[w := writer'])
  }

  /** The locked section at the start of wdm_write, and memdup_user. */
  function WriteStep(s: Sys, dupFails: bool, nonblock: bool): Sys {
    var c := s.c.(werr := 0);
    if s.c.werr < 0 then s.(c := c, told := s.told + [s.c.werr])
    else if dupFails then s.(c := c)
    else s.(c := c, writers := s.writers[s.next := WantLock(nonblock)], next := s.next + 1)
  }

  // ----- wdm_out_callback -----

  function CallbackStep(c: Shared): Shared {
    match c.callback
    case NoCallback => c
    case NoteStatus(buf, status) => c.(werr := status, callback := FreeOutbuf(buf))
    case FreeOutbuf(_) =>
      c.(freed := if c.outbuf.Some? then c.freed + multiset{c.outbuf.value} else c.freed, callback := ClearOutbuf)
    case ClearOutbuf => c.(outbuf := None, callback := ClearInUse)
    case ClearInUse => c.(inUse := false, callback := NoCallback)
  }

  // ----- reset and disconnect -----

  function QuiesceStep(c: Shared): (r: Shared)
    ensures r.freed == c.freed && r.flight == c.flight && r.callback == c.callback
  {
    match c.quiesce
    case Running => c
    case Clearing => c.(inUse := false, quiesce := Locking(true))
    case Locking(reset) => if c.wlock.Unlocked? then c.(wlock := ByReset, quiesce := Poisoning(reset)) else c
    case Poisoning(reset) => c.(poisoned := true, quiesce := Killing(reset))
    case Killing(reset) => if c.Busy() then c else c.(quiesce := Quiet(reset))
    case Quiet(reset) => if reset then c.(poisoned := false, quiesce := Unpoisoned) else c.(quiesce := Unlocking)
    case Unpoisoned => c.(resetting := false, quiesce := Unlocking)
    case Unlocking => c.(wlock := Unlocked, quiesce := Running)
  }

  /** Steps of everybody but the writers; the first wdm_open forgets, under wlock, how the last command ended. */
  function SharedStep(c: Shared, step: Step): Shared {
    match step
    case Complete(status) =>
      if c.flight.Some? then c.(flight := None, callback := NoteStatus(c.flight.value, status)) else c
    case CallbackGoes => CallbackStep(c)
    case ResetBegins => if c.quiesce.Running? then c.(resetting := true, quiesce := Clearing) else c
    case DisconnectBegins => if c.quiesce.Running? then c.(disconnecting := true, quiesce := Locking(false)) else c
    case QuiesceGoes => QuiesceStep(c)
    case Open => if c.wlock.Unlocked? then c.(werr := 0) else c
    case _ => c
  }

  /** Steps that are not possible in `s` change nothing. */
  function Next(s: Sys, step: Step): Sys {
    match step
    case Write(dupFails, nonblock) => WriteStep(s, dupFails, nonblock)
    case WriterGoes(w, interrupted, rv) => if w in s.writers then WriterStep(s, w, interrupted, rv) else s
    case _ => s.(c := SharedStep(s.c, step))
  }

  function Run(steps: seq<Step>): Sys {
    if steps == [] then Init() else Next(Run(steps[..|steps| - 1]), steps[|steps| - 1])
  }

  // ----- the URB is left alone while it is in use -----

  predicate HoldsLock(writer: Writer) {
    !writer.WantLock? && !writer.FreeBuf?
  }

  /** The writer found the URB idle, and nobody else can use it. */
  predicate Exclusive(writer: Writer) {
    || writer == TestGoneAgain(false) || writer.FillUrb? || writer.SetInUse? || writer.SetOutbuf? || writer.SubmitUrb?
    || writer.FailOutbuf? || writer.FailInUse?
  }

  predicate InReset(q: Quiesce) {
    || q.Clearing? || q.Unpoisoned?
    || ((q.Locking? || q.Poisoning? || q.Killing? || q.Quiet?) && q.reset)
  }

  /** While the URB is in use, WDM_IN_USE or WDM_RESETTING keeps writers away from it. */
  ghost predicate FlagInv(c: Shared) {
    && (c.Busy() ==> c.inUse || c.resetting)
    && (!c.callback.NoCallback? ==> c.flight.None?)
    && (c.wlock.ByReset? <==> !c.quiesce.Running? && !c.quiesce.Clearing? && !c.quiesce.Locking?)
    && (InReset(c.quiesce) ==> c.resetting)
    && (c.quiesce.Quiet? || c.quiesce.Unpoisoned? || c.quiesce.Unlocking? ==> !c.Busy())
    && (c.Cargo().Some? ==> c.outbuf == c.Cargo())
    && c.misuses == 0
  }

  /** What writer `w` may rely on. */
  ghost predicate WriterInv(c: Shared, w: nat, writer: Writer) {
    && (HoldsLock(writer) ==> c.wlock == ByWriter(w))
    && (writer == TestReset(false) && c.Busy() ==> c.resetting)
    && (Exclusive(writer) ==> !c.Busy())
    && (writer.SetOutbuf? || writer.SubmitUrb? ==> c.inUse || c.resetting)
    && (writer.SetInUse? || writer.SetOutbuf? || writer.SubmitUrb? ==> c.transfer == w)
    && (writer.SubmitUrb? ==> c.outbuf == Some(w))
  }

  lemma EnterSafe(c: Shared, w: nat, writer: Writer, interrupted: bool)
    requires FlagInv(c) && WriterInv(c, w, writer)
    ensures var (c', writer') := EnterStep(c, w, writer, interrupted);
            FlagInv(c') && WriterInv(c', w, writer')
  {
  }

  lemma SendSafe(c: Shared, w: nat, writer: Writer, rv: int)
    requires FlagInv(c) && WriterInv(c, w, writer)
    ensures var (c', writer') := SendStep(c, w, writer, rv);
            FlagInv(c') && WriterInv(c', w, writer')
  {
  }

  lemma CallbackSafe(c: Shared)
    requires FlagInv(c)
    ensures FlagInv(CallbackStep(c))
  {
  }

  lemma QuiesceSafe(c: Shared)
    requires FlagInv(c)
    ensures FlagInv(QuiesceStep(c))
  {
  }

  lemma SharedSafe(c: Shared, step: Step)
    requires FlagInv(c)
    ensures FlagInv(SharedStep(c, step))
  {
    hide CallbackStep, QuiesceStep;
    CallbackSafe(c);
    QuiesceSafe(c);
  }

  /** Nobody takes away what a writer relies on. */
  lemma SharedKeepsWriter(c: Shared, step: Step, w: nat, writer: Writer)
    requires FlagInv(c) && WriterInv(c, w, writer)
    ensures WriterInv(SharedStep(c, step), w, writer)
  {
  }

  /** A writer that can move leaves no other writer anything to rely on. */
  lemma OtherWriterKeeps(c: Shared, w: nat, writer: Writer, interrupted: bool, rv: int, v: nat, other: Writer)
    requires WriterInv(c, w, writer) && WriterInv(c, v, other) && v != w
    ensures var c' := if Enters(writer) then EnterStep(c, w, writer, interrupted).0 else SendStep(c, w, writer, rv).0;
            WriterInv(c', v, other)
  {
  }

  ghost predicate SafeInv(s: Sys) {
    && FlagInv(s.c)
    && (forall w | w in s.writers :: WriterInv(s.c, w, s.writers[w]) && w < s.next)
  }

  lemma WriterSafe(s: Sys, w: nat, interrupted: bool, rv: int)
    requires SafeInv(s) && w in s.writers
    ensures SafeInv(WriterStep(s, w, interrupted, rv))
  {
    var writer := s.writers[w];
    var s' := WriterStep(s, w, interrupted, rv);
    EnterSafe(s.c, w, writer, interrupted);
    SendSafe(s.c, w, writer, rv);
    forall v | v in s'.writers
      ensures WriterInv(s'.c, v, s'.writers[v]) && v < s'.next
    {
      if v != w && !writer.FreeBuf? && !writer.UnlockDone? {
        OtherWriterKeeps(s.c, w, writer, interrupted, rv, v, s.writers[v]);
      }
      hide EnterStep, SendStep;
    }
  }

  lemma WriteSafe(s: Sys, dupFails: bool, nonblock: bool)
    requires SafeInv(s)
    ensures SafeInv(WriteStep(s, dupFails, nonblock))
  {
    var s' := WriteStep(s, dupFails, nonblock);
    forall w | w in s'.writers
      ensures WriterInv(s'.c, w, s'.writers[w]) && w < s'.next
    {
      if w in s.writers {
        assert WriterInv(s.c, w, s.writers[w]);
      }
    }
  }

  lemma StepSafe(s: Sys, step: Step)
    requires SafeInv(s)
    ensures SafeInv(Next(s, step))
  {
    match step
    case Write(dupFails, nonblock) => WriteSafe(s, dupFails, nonblock);
    case WriterGoes(w, interrupted, rv) =>
      if w in s.writers {
        WriterSafe(s, w, interrupted, rv);
      }
    case _ => SharedStepSafe(s, step);
  }

  lemma SharedStepSafe(s: Sys, step: Step)
    requires SafeInv(s)
    ensures SafeInv(s.(c := SharedStep(s.c, step)))
  {
    hide SharedStep, FlagInv, WriterInv;
    SharedSafe(s.c, step);
    forall w | w in s.writers
      ensures WriterInv(SharedStep(s.c, step), w, s.writers[w])
    {
      SharedKeepsWriter(s.c, step, w, s.writers[w]);
    }
  }

  // ----- every buffer has one owner -----

  /** Its writer owns a buffer until the submit succeeds, and again when it fails. */
  predicate WriterOwns(s: Sys, b: nat) {
    b in s.writers && !s.writers[b].UnlockDone?
  }

  /** How often a buffer is owned by a writer, by the URB or by the allocator. */
  function Owners(s: Sys, b: nat): nat {
    (if WriterOwns(s, b) then 1 else 0) + (if s.c.Cargo() == Some(b) then 1 else 0) + s.c.freed[b]
  }

  ghost predicate OwnInv(s: Sys) {
    forall b: nat :: Owners(s, b) == (if b < s.next then 1 else 0)
  }

  lemma EnterCargo(c: Shared, w: nat, writer: Writer, interrupted: bool)
    requires Enters(writer)
    ensures var (c', writer') := EnterStep(c, w, writer, interrupted);
            c'.freed == c.freed && c'.Cargo() == c.Cargo() && !writer'.UnlockDone?
  {
  }

  /** Only a submit that succeeds hands the buffer to the URB, which carried nothing. */
  lemma SendCargo(c: Shared, w: nat, writer: Writer, rv: int)
    requires WriterInv(c, w, writer) && !writer.UnlockDone?
    ensures var (c', writer') := SendStep(c, w, writer, rv);
            && c'.freed == c.freed
            && (if writer'.UnlockDone? then c.Cargo().None? && c'.Cargo() == Some(w) else c'.Cargo() == c.Cargo())
  {
  }

  /** A writer's step hands a buffer over at most from one owner to the next. */
  lemma WriterOwners(s: Sys, w: nat, interrupted: bool, rv: int, b: nat)
    requires SafeInv(s) && w in s.writers
    ensures Owners(WriterStep(s, w, interrupted, rv), b) == Owners(s, b)
  {
    var writer := s.writers[w];
    assert WriterInv(s.c, w, writer);
    hide EnterStep, SendStep, SafeInv, WriterInv, Enters;
    if writer.UnlockDone? || writer.FreeBuf? {
    } else if Enters(writer) {
      EnterCargo(s.c, w, writer, interrupted);
    } else {
      SendCargo(s.c, w, writer, rv);
    }
    hide Shared.Cargo;
  }

  lemma CallbackOwners(s: Sys, b: nat)
    requires FlagInv(s.c)
    ensures Owners(s.(c := CallbackStep(s.c)), b) == Owners(s, b)
  {
  }

  lemma SharedOwners(s: Sys, step: Step, b: nat)
    requires SafeInv(s)
    ensures Owners(s.(c := SharedStep(s.c, step)), b) == Owners(s, b)
  {
    hide CallbackStep, QuiesceStep;
    CallbackOwners(s, b);
  }

  lemma StepOwners(s: Sys, step: Step)
    requires SafeInv(s) && OwnInv(s)
    ensures OwnInv(Next(s, step))
  {
    hide WriterStep, SharedStep, SafeInv;
    forall b: nat
      ensures Owners(Next(s, step), b) == (if b < Next(s, step).next then 1 else 0)
    {
      assert Owners(s, b) == (if b < s.next then 1 else 0);
      match step
      case Write(_, _) => assert Owners(s, s.next) == 0;
      case WriterGoes(w, interrupted, rv) =>
        if w in s.writers {
          WriterOwners(s, w, interrupted, rv, b);
          WriterNext(s, w, interrupted, rv);
        }
      case _ => SharedOwners(s, step, b);
    }
  }

  lemma WriterNext(s: Sys, w: nat, interrupted: bool, rv: int)
    requires w in s.writers
    ensures WriterStep(s, w, interrupted, rv).next == s.next
  {
  }

  // ----- runs -----

  lemma {:induction false} RunSafe(steps: seq<Step>)
    ensures SafeInv(Run(steps)) && OwnInv(Run(steps))
  {
    if steps != [] {
      RunSafe(steps[..|steps| - 1]);
      StepSafe(Run(steps[..|steps| - 1]), steps[|steps| - 1]);
      StepOwners(Run(steps[..|steps| - 1]), steps[|steps| - 1]);
    }
    hide Next, SafeInv;
  }

  /**
   * In every run the command URB is neither filled nor submitted while it is in use, no buffer
   * is freed twice or while it is in flight, and once nobody is writing every buffer was freed.
   */
  lemma CommandSafety(steps: seq<Step>)
    ensures var s := Run(steps);
            && s.c.misuses == 0
            && (forall b: nat :: s.c.freed[b] <= 1)
            && (s.c.flight.Some? ==> s.c.freed[s.c.flight.value] == 0)
            && (s.writers == map[] && !s.c.Busy() ==> forall b: nat :: b < s.next ==> s.c.freed[b] == 1)
  {
    hide Run;
    RunSafe(steps);
    var s := Run(steps);
    forall b: nat
      ensures s.c.freed[b] <= 1
      ensures s.c.flight == Some(b) ==> s.c.freed[b] == 0
      ensures s.writers == map[] && !s.c.Busy() && b < s.next ==> s.c.freed[b] == 1
    {
      assert Owners(s, b) == (if b < s.next then 1 else 0);
    }
  }
}
