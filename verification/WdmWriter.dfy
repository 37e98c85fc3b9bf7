/**
 * The command path as the driver runs it: fields that writers, the completion handler and
 * resets update in place. Every method is a step of WdmCommand, and the object keeps what is
 * proved about runs: the URB is left alone while it is in use, and every buffer has one owner.
 */
module WdmWriter {
  import opened Options
  import opened WdmCommand

  class CommandPath {
    // struct wdm_device and the command URB
    var inUse: bool
    var resetting: bool
    var disconnecting: bool
    var werr: int
    var outbuf: Option<nat>
    var transfer: nat
    var flight: Option<nat>
    var callback: Callback
    var poisoned: bool
    var wlock: Lock
    var quiesce: Quiesce

    // the calls of wdm_write, and the name of the next buffer
    var writers: map<nat, Writer>
    var next: nat

    // the buffers that were given to kfree, and the run so far
    ghost var freed: multiset<nat>
    ghost var sys: Sys

    /** All but the count of misuses, which the driver does not keep. */
    ghost predicate Holds(c: Shared)
      reads `inUse, `resetting, `disconnecting, `werr, `outbuf, `transfer, `flight, `callback, `poisoned, `wlock
      reads `quiesce, `freed
    {
      && inUse == c.inUse && resetting == c.resetting && disconnecting == c.disconnecting && werr == c.werr
      && outbuf == c.outbuf && transfer == c.transfer && flight == c.flight && callback == c.callback
      && poisoned == c.poisoned && wlock == c.wlock && quiesce == c.quiesce && freed == c.freed
    }

    ghost predicate Rep(s: Sys)
      reads `inUse, `resetting, `disconnecting, `werr, `outbuf, `transfer, `flight, `callback, `poisoned, `wlock
      reads `quiesce, `freed, `writers, `next
    {
      Holds(s.c) && writers == s.writers && next == s.next
    }

    ghost predicate Valid()
      reads this
    {
      Rep(sys) && SafeInv(sys) && OwnInv(sys)
    }

    /**
     * What the fields of a valid object say about the whole run: the URB was never misused, at
     * most one writer holds wlock, no buffer is freed twice or in flight, and none is leaked.
     */
    lemma Guarantees()
      requires Valid()
      ensures sys.c.misuses == 0
      ensures forall v, w | v in writers && w in writers && HoldsLock(writers[v]) && HoldsLock(writers[w]) :: v == w
      ensures forall b: nat :: freed[b] <= 1
      ensures flight.Some? ==> freed[flight.value] == 0
      ensures writers == map[] && flight.None? && callback.NoCallback? ==> forall b: nat | b < next :: freed[b] == 1
    {
      forall v, w | v in writers && w in writers && HoldsLock(writers[v]) && HoldsLock(writers[w])
        ensures v == w
      {
        assert WriterInv(sys.c, v, sys.writers[v]) && WriterInv(sys.c, w, sys.writers[w]);
      }
      forall b: nat
        ensures freed[b] <= 1
        ensures flight == Some(b) ==> freed[b] == 0
        ensures writers == map[] && flight.None? && callback.NoCallback? && b < next ==> freed[b] == 1
      {
        assert Owners(sys, b) == (if b < sys.next then 1 else 0);
      }
    }

    constructor ()
      ensures Valid() && sys == Init()
    {
      inUse, resetting, disconnecting, werr, outbuf, transfer := false, false, false, 0, None, 0;
      flight, callback, poisoned, wlock, quiesce := None, NoCallback, false, Unlocked, Running;
      writers, next := map[], 0;
      freed, sys := multiset{}, Init();
    }

    /** The run has taken a step. */
    ghost method Took(step: Step)
      requires SafeInv(sys) && OwnInv(sys) && Rep(Next(sys, step))
      modifies `sys
      ensures Valid() && sys == Next(old(sys), step)
    {
      hide Next, SafeInv, OwnInv, Rep;
      StepSafe(sys, step);
      StepOwners(sys, step);
      sys := Next(sys, step);
    }

    // ----- wdm_write -----

    /** The locked section at the start of wdm_write, and memdup_user; `we` is the status of an earlier command. */
    method Write(dupFails: bool, nonblock: bool) returns (we: int, sent: bool)
      requires Valid()
      modifies this
      ensures Valid() && sys == Next(old(sys), Step.Write(dupFails, nonblock))
      ensures sent ==> next == old(next) + 1 && old(next) in writers
      ensures sent <==> old(werr) >= 0 && !dupFails
      ensures sys.told == old(sys.told) + (if we < 0 then [we] else [])
    {
      hide SafeInv, OwnInv;
      we := werr;
      werr := 0;
      sent := we >= 0 && !dupFails;
      if sent {
        writers := writers[next := WantLock(nonblock)];
        next := next + 1;
      }
      Took(Step.Write(dupFails, nonblock));
    }

    /** Up to the decision whether the command may be sent. */
    method Enter(w: nat, interrupted: bool, ghost rv: int, ghost s: Sys)
      requires Rep(s) && w in writers && Enters(writers[w])
      modifies `wlock, `writers
      ensures Rep(WriterStep(s, w, interrupted, rv))
    {
      var writer := writers[w];
      if writer.WantLock? {
        if interrupted {
          writer := FreeBuf;
        } else if wlock.Unlocked? {
          wlock := ByWriter(w);
          writer := TestGone(writer.nonblock);
        }
      } else if writer.TestGone? {
        writer := if disconnecting then UnlockFree else AwaitIdle(writer.nonblock);
      } else if writer.AwaitIdle? {
        if !inUse {
          writer := TestReset(false);
        } else if writer.nonblock || interrupted {
          writer := TestReset(true);
        }
      } else if writer.TestReset? {
        writer := TestGoneAgain(writer.failed || resetting);
      } else {
        writer := if writer.failed || disconnecting then UnlockFree else FillUrb;
      }
      writers := writers[w := writer];
    }

    /** usb_fill_control_urb, the bit and the buffer, and usb_submit_urb. */
    method Send(w: nat, ghost interrupted: bool, rv: int, ghost s: Sys)
      requires Rep(s) && SafeInv(s) && w in writers
      requires writers[w].FillUrb? || writers[w].SetInUse? || writers[w].SetOutbuf? || writers[w].SubmitUrb?
      modifies `transfer, `inUse, `outbuf, `flight, `writers
      ensures Rep(WriterStep(s, w, interrupted, rv))
    {
      assert WriterInv(s.c, w, s.writers[w]);
      hide SafeInv;
      var writer := writers[w];
      if writer.FillUrb? {
        transfer := w;
        writer := SetInUse;
      } else if writer.SetInUse? {
        inUse := true;
        writer := SetOutbuf;
      } else if writer.SetOutbuf? {
        outbuf := Some(w);
        writer := SubmitUrb;
      } else if poisoned || rv < 0 {
        writer := FailOutbuf;
      } else {
        flight := Some(transfer);
        writer := UnlockDone;
      }
      writers := writers[w := writer];
    }

    /** What wdm_write does once the command is sent or has failed. */
    method Finish(w: nat, ghost interrupted: bool, ghost rv: int, ghost s: Sys)
      requires Rep(s) && w in writers && !Enters(writers[w])
      requires !writers[w].FillUrb? && !writers[w].SetInUse? && !writers[w].SetOutbuf? && !writers[w].SubmitUrb?
      modifies `inUse, `outbuf, `wlock, `writers, `freed
      ensures Rep(WriterStep(s, w, interrupted, rv))
    {
      if writers[w].FailOutbuf? {
        outbuf := None;
        writers := writers[w := FailInUse];
      } else if writers[w].FailInUse? {
        inUse := false;
        writers := writers[w := UnlockFree];
      } else if writers[w].UnlockFree? {
        wlock := Unlocked;
        writers := writers[w := FreeBuf];
      } else if writers[w].FreeBuf? {
        freed := freed + multiset{w};
        writers := writers - {w};
      } else {
        wlock := Unlocked;
        writers := writers - {w};
      }
    }

    /** The next step of a call of wdm_write; `rv` is what a submit returns. */
    method WriterGoes(w: nat, interrupted: bool, rv: int)
      requires Valid() && w in writers
      modifies this
      ensures Valid() && sys == Next(old(sys), Step.WriterGoes(w, interrupted, rv))
    {
      hide SafeInv, OwnInv, WriterStep, Holds;
      if Enters(writers[w]) {
        Enter(w, interrupted, rv, sys);
      } else if writers[w].FillUrb? || writers[w].SetInUse? || writers[w].SetOutbuf? || writers[w].SubmitUrb? {
        Send(w, interrupted, rv, sys);
      } else {
        Finish(w, interrupted, rv, sys);
      }
      Took(Step.WriterGoes(w, interrupted, rv));
    }

    // ----- the command URB -----

    /** The command URB is given back with `status`, and wdm_out_callback starts. */
    method Complete(status: int)
      requires Valid() && flight.Some?
      modifies this
      ensures Valid() && sys == Next(old(sys), Step.Complete(status))
    {
      hide SafeInv, OwnInv;
      callback := NoteStatus(flight.value, status);
      flight := None;
      Took(Step.Complete(status));
    }

    method CallbackWork(ghost s: Sys)
      requires Rep(s) && FlagInv(s.c) && !callback.NoCallback?
      modifies `werr, `outbuf, `inUse, `callback, `freed
      ensures Rep(s.(c := CallbackStep(s.c)))
    {
      if callback.NoteStatus? {
        werr := callback.status;
        callback := FreeOutbuf(callback.buf);
      } else if callback.FreeOutbuf? {
        freed := freed + multiset{outbuf.value};
        callback := ClearOutbuf;
      } else if callback.ClearOutbuf? {
        outbuf := None;
        callback := ClearInUse;
      } else {
        inUse := false;
        callback := NoCallback;
      }
    }

    /** wdm_out_callback; that there is a buffer for kfree follows from what the object keeps. */
    method CallbackGoes()
      requires Valid() && !callback.NoCallback?
      modifies this
      ensures Valid() && sys == Next(old(sys), Step.CallbackGoes)
    {
      assert FlagInv(sys.c);
      hide SafeInv, OwnInv, CallbackStep, FlagInv, Holds;
      CallbackWork(sys);
      Took(Step.CallbackGoes);
    }

    // ----- reset and disconnect -----

    /** The bits of wdm_pre_reset. */
    method ResetBegins()
      requires Valid() && quiesce.Running?
      modifies this
      ensures Valid() && sys == Next(old(sys), Step.ResetBegins)
    {
      hide SafeInv, OwnInv;
      resetting := true;
      quiesce := Clearing;
      Took(Step.ResetBegins);
    }

    /** The bits of wdm_disconnect. */
    method DisconnectBegins()
      requires Valid() && quiesce.Running?
      modifies this
      ensures Valid() && sys == Next(old(sys), Step.DisconnectBegins)
    {
      hide SafeInv, OwnInv;
      disconnecting := true;
      quiesce := Locking(false);
      Took(Step.DisconnectBegins);
    }

    method QuiesceWork(ghost s: Sys)
      requires Rep(s) && !quiesce.Running?
      modifies `inUse, `wlock, `poisoned, `resetting, `quiesce
      ensures Rep(s.(c := QuiesceStep(s.c)))
    {
      if quiesce.Clearing? {
        inUse := false;
        quiesce := Locking(true);
      } else if quiesce.Locking? {
        if wlock.Unlocked? {
          wlock := ByReset;
          quiesce := Poisoning(quiesce.reset);
        }
      } else if quiesce.Poisoning? {
        poisoned := true;
        quiesce := Killing(quiesce.reset);
      } else if quiesce.Killing? {
        if flight.None? && callback.NoCallback? {
          quiesce := Quiet(quiesce.reset);
        }
      } else if quiesce.Quiet? {
        if quiesce.reset {
          poisoned := false;
          quiesce := Unpoisoned;
        } else {
          quiesce := Unlocking;
        }
      } else if quiesce.Unpoisoned? {
        resetting := false;
        quiesce := Unlocking;
      } else {
        wlock := Unlocked;
        quiesce := Running;
      }
    }

    /** wdm_pre_reset and wdm_post_reset, or wdm_disconnect, after their first bits. */
    method QuiesceGoes()
      requires Valid() && !quiesce.Running?
      modifies this
      ensures Valid() && sys == Next(old(sys), Step.QuiesceGoes)
    {
      hide SafeInv, OwnInv, QuiesceStep, Holds;
      QuiesceWork(sys);
      Took(Step.QuiesceGoes);
    }

    /** wdm_open of the first file. */
    method Open()
      requires Valid() && wlock.Unlocked?
      modifies this
      ensures Valid() && sys == Next(old(sys), Step.Open)
    {
      hide SafeInv, OwnInv;
      werr := 0;
      Took(Step.Open);
    }
  }
}
