/**
 * How writers and resets leave the command path: a writer that is interrupted or caught by a
 * reset gives up without a trace, nothing is sent once the device is gone, and a reset that
 * meets nobody changes nothing.
 */
module WdmLeave {
  import opened WdmCommand
  import opened WdmProgress

  // ----- writers -----

  /** A writer that is interrupted while it waits for wlock frees its buffer and changes nothing else. */
  lemma InterruptedLeaves(s: Sys, w: nat, rv: int)
    requires w in s.writers && s.writers[w].WantLock?
    ensures Next(Next(s, WriterGoes(w, true, rv)), WriterGoes(w, true, rv)) == Refused(s, w)
  {
    assert s.writers[w := FreeBuf] - {w} == s.writers - {w};
  }

  /** A reset begins and clears WDM_IN_USE. */
  function ResetCatches(s: Sys): Sys {
    Next(Next(s, ResetBegins), QuiesceGoes)
  }

  /**
   * A reset lets go whoever waits for the URB: the writer leaves wlock with its buffer freed
   * instead of sending, although WDM_IN_USE is clear then.
   */
  lemma ResetCatchesWriter(s: Sys, w: nat, nonblock: bool, rv: int, n: nat)
    requires w in s.writers && s.c.wlock.Unlocked? && s.c.quiesce.Running? && n >= 5
    ensures Goes(ResetCatches(Locked(s, w, AwaitIdle(nonblock))), w, rv, n)
            == Refused(s.(c := s.c.(resetting := true, inUse := false, quiesce := Locking(true))), w)
  {
    hide Goes;
    var s1 := s.(c := s.c.(resetting := true, inUse := false, quiesce := Locking(true)));
    assert ResetCatches(Locked(s, w, AwaitIdle(nonblock))) == Locked(s1, w, AwaitIdle(nonblock));
    Moves(s1, w, AwaitIdle(nonblock), TestReset(false), rv, n);
    Moves(s1, w, TestReset(false), TestGoneAgain(true), rv, n - 1);
    Moves(s1, w, TestGoneAgain(true), UnlockFree, rv, n - 2);
    Leaves(s1, w, rv, n - 3);
  }

  // ----- once the device is gone -----

  /** The writer has decided to send and has neither done so nor failed. */
  predicate Sending(writer: Writer) {
    writer.FillUrb? || writer.SetInUse? || writer.SetOutbuf? || writer.SubmitUrb?
  }

  ghost predicate Gone(s: Sys) {
    s.c.disconnecting && forall w | w in s.writers :: !Sending(s.writers[w])
  }

  /** No other buffer has got into the URB. */
  predicate NothingSent(s: Sys, r: Sys) {
    r.c.flight.Some? ==> r.c.flight == s.c.flight
  }

  lemma WriterGone(s: Sys, w: nat, interrupted: bool, rv: int)
    requires Gone(s) && w in s.writers
    ensures Gone(WriterStep(s, w, interrupted, rv)) && NothingSent(s, WriterStep(s, w, interrupted, rv))
  {
    assert !Sending(s.writers[w]);
    var r := WriterStep(s, w, interrupted, rv);
    forall v | v in r.writers
      ensures !Sending(r.writers[v])
    {
      assert v in s.writers;
    }
  }

  lemma StepGone(s: Sys, step: Step)
    requires Gone(s)
    ensures Gone(Next(s, step)) && NothingSent(s, Next(s, step))
  {
    hide WriterStep;
    if step.WriterGoes? && step.w in s.writers {
      WriterGone(s, step.w, step.interrupted, step.rv);
    }
  }

  /** Once the device is gone and no writer is on the way to a submit, nothing is sent any more, whatever happens. */
  lemma {:induction false} NoCommandWhenGone(s: Sys, steps: seq<Step>)
    requires Gone(s)
    ensures Gone(Steps(s, steps)) && NothingSent(s, Steps(s, steps))
    decreases |steps|
  {
    hide Next;
    if steps != [] {
      StepGone(s, steps[0]);
      NoCommandWhenGone(Next(s, steps[0]), steps[1..]);
    }
  }

  // ----- reset and disconnect -----

  /** A reset or disconnect takes `n` steps. */
  function Quieted(s: Sys, n: nat): Sys
    decreases n
  {
    if n == 0 then s else Quieted(Next(s, QuiesceGoes), n - 1)
  }

  lemma QuietedTo(s: Sys, c: Shared, n: nat)
    requires n > 0 && c == QuiesceStep(s.c)
    ensures Quieted(s, n) == Quieted(s.(c := c), n - 1)
  {
    hide QuiesceStep;
  }

  lemma QuietedNone(s: Sys)
    ensures Quieted(s, 0) == s
  {
  }

  /** wlock is taken and the URB is poisoned and idle. */
  lemma Quietens(s: Sys, reset: bool, n: nat)
    requires s.c.quiesce == Locking(reset) && s.c.wlock.Unlocked? && !s.c.Busy() && n >= 3
    ensures Quieted(s, n)
            == Quieted(s.(c := s.c.(wlock := ByReset, poisoned := true, quiesce := Quiet(reset))), n - 3)
  {
    hide Quieted;
    var c1 := s.c.(wlock := ByReset, quiesce := Poisoning(reset));
    var c2 := c1.(poisoned := true, quiesce := Killing(reset));
    QuietedTo(s, c1, n);
    QuietedTo(s.(c := c1), c2, n - 1);
    QuietedTo(s.(c := c2), c2.(quiesce := Quiet(reset)), n - 2);
  }

  lemma PostReset(s: Sys)
    requires s.c.quiesce == Quiet(true)
    ensures Quieted(s, 3)
            == s.(c := s.c.(poisoned := false, resetting := false, wlock := Unlocked, quiesce := Running))
  {
    hide Quieted;
    var c1 := s.c.(poisoned := false, quiesce := Unpoisoned);
    var c2 := c1.(resetting := false, quiesce := Unlocking);
    QuietedTo(s, c1, 3);
    QuietedTo(s.(c := c1), c2, 2);
    QuietedTo(s.(c := c2), c2.(wlock := Unlocked, quiesce := Running), 1);
    QuietedNone(s.(c := c2.(wlock := Unlocked, quiesce := Running)));
  }

  /** In every run, a whole reset that meets neither a writer nor a command changes nothing. */
  lemma ResetAlone(steps: seq<Step>)
    requires AtRest(Run(steps))
    ensures Quieted(Next(Run(steps), ResetBegins), 7) == Run(steps)
  {
    var s := Run(steps);
    NothingLeftOver(steps);
    hide Run, Quieted;
    var s1 := Next(s, ResetBegins);
    var s2 := s1.(c := s1.c.(quiesce := Locking(true)));
    QuietedTo(s1, s2.c, 7);
    Quietens(s2, true, 6);
    PostReset(s2.(c := s2.c.(wlock := ByReset, poisoned := true, quiesce := Quiet(true))));
    hide QuiesceStep;
  }

  /** In every run, a whole disconnect that meets nobody leaves the URB poisoned for good and changes nothing else. */
  lemma DisconnectAlone(steps: seq<Step>)
    requires AtRest(Run(steps))
    ensures var s := Run(steps);
            Quieted(Next(s, DisconnectBegins), 5) == s.(c := s.c.(disconnecting := true, poisoned := true))
  {
    hide Run, Quieted;
    var s := Run(steps);
    var s1 := Next(s, DisconnectBegins);
    var c2 := s1.c.(wlock := ByReset, poisoned := true, quiesce := Quiet(false));
    Quietens(s1, false, 5);
    QuietedTo(s1.(c := c2), c2.(quiesce := Unlocking), 2);
    QuietedTo(s1.(c := c2.(quiesce := Unlocking)), s.c.(disconnecting := true, poisoned := true), 1);
    QuietedNone(s.(c := s.c.(disconnecting := true, poisoned := true)));
  }
}
