/**
 * Reads refine a byte queue: what readers get and what still waits is exactly what was
 * accepted, although the copy to the reader runs without the lock.
 */
module WdmQueue {
  import opened Bytes
  import opened WdmSpec
  import opened WdmResponse

  /** Nothing is lost, repeated or reordered, and a copy in progress is a prefix of what waits. */
  ghost predicate QueueInv(s: Sys, wMaxCommand: nat) {
    && Sound(s)
    && |s.dev.ubuf| == wMaxCommand
    && s.returned + s.dev.Waiting() == s.accepted
    && (s.reader.Copying? ==> s.reader.copied == s.dev.ubuf[..|s.reader.copied|])
  }

  lemma StoreAppends(u: seq<Byte>, length: nat, data: seq<Byte>)
    requires length + |data| <= |u|
    ensures var r := Patch(u, length, data);
            r[..length] == u[..length] && r[..length + |data|] == u[..length] + data
  {
    var r := Patch(u, length, data);
    assert r[..length] == u[..length];
    assert r[..length + |data|] == r[..length] + r[length..length + |data|];
  }

  /** A completion appends, so it changes nothing that is waiting already. */
  ghost predicate Appends(d: Dev, r: Dev, more: seq<Byte>)
    requires d.Valid()
  {
    && |r.ubuf| == |d.ubuf| && d.length <= r.length <= |r.ubuf|
    && r.ubuf[..d.length] == d.ubuf[..d.length]
    && r.Waiting() == d.Waiting() + more
  }

  lemma ReceiveAppends(d: Dev, data: seq<Byte>)
    requires d.Valid()
    ensures Appends(d, Receive(d, data), if |data| + d.length <= |d.ubuf| && !d.overflow then data else [])
  {
    hide Patch;
    if |data| + d.length <= |d.ubuf| {
      StoreAppends(d.ubuf, d.length, data);
    }
    assert d.Waiting() + [] == d.Waiting();
  }

  lemma InCallbackAppends(d: Dev, status: int, data: seq<Byte>)
    requires d.Valid()
    ensures Appends(d, InCallback(d, status, data).0, if Accepts(d, status, data) then data else [])
  {
    hide Receive, Unlinked;
    var d1 := NoteError(d.(responding := false), status);
    ReceiveAppends(d1, data);
    assert d.Waiting() + [] == d.Waiting();
  }

  lemma CompleteKeeps(s: Sys, wMaxCommand: nat, status: int, data: seq<Byte>)
    requires QueueInv(s, wMaxCommand)
    ensures QueueInv(CompleteStep(s, status, data), wMaxCommand)
  {
    hide InCallback, Accepts, Discards;
    InCallbackAppends(s.dev, status, data);
    var r := CompleteStep(s, status, data);
    if s.reader.Copying? {
      var n := |s.reader.copied|;
      assert r.dev.ubuf[..n] == r.dev.ubuf[..s.dev.length][..n];
      assert s.dev.ubuf[..n] == s.dev.ubuf[..s.dev.length][..n];
    }
    var more := if Accepts(s.dev, status, data) then data else [];
    assert s.returned + (s.dev.Waiting() + more) == s.returned + s.dev.Waiting() + more;
  }

  /** The locked shift removes what was copied. */
  lemma ConsumeRemoves(d: Dev, n: nat)
    requires d.Valid() && n <= d.length
    ensures var r := Consume(d, n).0;
            && |r.ubuf| == |d.ubuf|
            && d.ubuf[..n] + r.Waiting() == d.Waiting()
  {
    hide ShiftLeft;
    assert d.ubuf[..n] + d.ubuf[n..d.length] == d.ubuf[..d.length];
  }

  lemma BufferKeptKeeps(s: Sys, r: Sys, wMaxCommand: nat)
    requires QueueInv(s, wMaxCommand) && BufferKept(s, r) && Sound(r)
    ensures QueueInv(r, wMaxCommand)
  {
  }

  lemma CopyKeeps(s: Sys, wMaxCommand: nat, fault: bool)
    requires QueueInv(s, wMaxCommand) && s.reader.Copying?
    ensures QueueInv(CopyStep(s, fault), wMaxCommand)
  {
    hide Consume, ReaderService;
    var copied := s.reader.copied;
    if |copied| < s.reader.cntr {
      assert s.dev.ubuf[..|copied| + 1] == s.dev.ubuf[..|copied|] + [s.dev.ubuf[|copied|]];
    } else {
      var (d, empty) := Consume(s.dev, s.reader.cntr);
      ConsumeRemoves(s.dev, s.reader.cntr);
      assert s.returned + (copied + d.Waiting()) == s.returned + copied + d.Waiting();
    }
  }

  lemma StepKeeps(s: Sys, wMaxCommand: nat, step: Step)
    requires Sound(s) && QueueInv(s, wMaxCommand)
    ensures QueueInv(Next(s, step), wMaxCommand)
  {
    hide QueueInv, CopyStep, CompleteStep, BufferKept;
    if step.Complete? {
      CompleteKeeps(s, wMaxCommand, step.status, step.data);
    } else if step.ReaderGoes? && s.reader.Copying? {
      CopyKeeps(s, wMaxCommand, step.fault);
    } else {
      BufferKeptKeeps(s, Next(s, step), wMaxCommand);
    }
  }

  /** In every run, with any interleaving, errors, resets and faults. */
  lemma {:induction false} ReadsAreAQueue(wMaxCommand: nat, steps: seq<Step>)
    ensures var s := Run(wMaxCommand, steps);
            && s.returned + s.dev.Waiting() == s.accepted
            && s.dev.length <= |s.dev.ubuf| == wMaxCommand
            && (s.reader.Copying? ==> s.reader.copied <= s.dev.Waiting())
            && QueueInv(s, wMaxCommand)
  {
    hide Next;
    if steps != [] {
      ReadsAreAQueue(wMaxCommand, steps[..|steps| - 1]);
      StepKeeps(Run(wMaxCommand, steps[..|steps| - 1]), wMaxCommand, steps[|steps| - 1]);
    }
  }
}
