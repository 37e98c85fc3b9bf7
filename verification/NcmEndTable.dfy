/**
 * With NDP-to-end: where the table of an NTB goes when the NTB is sent. It always fits; it is
 * aligned unless a frame that the NTB refused left its padding behind and the buffer ends too
 * soon after it.
 */
module NcmEndTable {
  import opened Bytes
  import opened Options
  import opened NcmFormat
  import opened NcmTx
  import opened NcmSystem
  import opened NcmFifo
  import opened NcmLoss
  import opened NcmBackoff
  import opened NcmSizes
  import opened NcmRefusal
  import opened NcmFirst
  import opened NcmPadding

  // ----- the NTB in front of the table -----

  /** No longer than an NTB that was filled up to the reserve and then padded for a refused frame. */
  predicate Stretched(c: Cfg, cap: nat, len: nat)
    requires c.Usable()
  {
    c.EndReserve() <= cap && len <= AlignUp(cap - c.EndReserve(), c.modulus) + c.remainder
  }

  /** With the table still to come, padding in front of a frame only lengthens the NTB. */
  lemma PreparedEnd(c: Cfg, cap: nat, ntb: Ntb, delayed: seq<Byte>, pkt: Pkt)
    requires c.Usable() && c.toEnd && ntb.ndps == []
    ensures var r := Prepare(c, cap, ntb, delayed, pkt);
            && |r.ntb.bytes| == |ntb.bytes| + AlignPad(|ntb.bytes|, c.modulus, c.remainder, cap)
            && r.ntb.ndps == []
  {
    hide AlignPad, DelayedSig, OpenNdp;
  }

  /** What the loop leaves: the reserve is free, or a frame remains that was refused behind others. */
  ghost predicate Leaves(c: Cfg, cap: nat, l: Loop)
    requires c.Usable()
  {
    || Reserved(c, cap, l.ntb)
    || (l.rem.Some? && 0 < l.n < c.maxDatagrams && Stretched(c, cap, |l.ntb.bytes|))
  }

  lemma IterateLeaves(c: Cfg, cap: nat, l: Loop, pkt: Pkt)
    requires c.Valid() && c.toEnd && |l.ntb.placed| == l.n < c.maxDatagrams && |l.ntb.bytes| <= cap
    requires Reserved(c, cap, l.ntb) && l.ntb.ndps == []
    ensures var (l', more) := Iterate(c, cap, l, pkt);
            && Leaves(c, cap, l') && l'.ntb.ndps == [] && |l'.ntb.bytes| <= cap
            && (more ==> Reserved(c, cap, l'.ntb) && |l'.ntb.placed| == l'.n == l.n + 1)
  {
    hide Prepare, AddFrame, AlignUp;
    PreparedEnd(c, cap, l.ntb, l.delayed, pkt);
    if l.ntb.placed != [] {
      AlignUpMonotone(|l.ntb.bytes|, cap - c.EndReserve(), c.modulus);
    }
  }

  lemma {:induction false} FillLoopLeaves(c: Cfg, cap: nat, l: Loop)
    requires c.Valid() && c.toEnd && |l.ntb.placed| == l.n && |l.ntb.bytes| <= cap
    requires Reserved(c, cap, l.ntb) && l.ntb.ndps == []
    ensures Leaves(c, cap, FillLoop(c, cap, l))
    decreases c.maxDatagrams - l.n
  {
    hide Iterate, Reserved, Stretched;
    if l.n < c.maxDatagrams && NextSkb(l).Some? {
      IterateLeaves(c, cap, l, NextSkb(l).value);
      if Iterate(c, cap, l, NextSkb(l).value).1 {
        FillLoopLeaves(c, cap, Iterate(c, cap, l, NextSkb(l).value).0);
      }
    }
  }

  // ----- where the table goes -----

  /** A table at the end of a buffer of `size`, behind `len` bytes, has room to be aligned, or is aligned there. */
  predicate CanAlign(c: Cfg, size: nat, len: nat)
    requires c.Usable()
  {
    AlignUp(len, c.ndpModulus) + c.MaxNdp() <= size || (size - c.MaxNdp()) % c.ndpModulus == 0
  }

  /** A buffer of this size aligns every table, however the NTB ends. */
  predicate EndSafe(c: Cfg, size: nat)
    requires c.Usable()
  {
    size >= c.EndReserve() ==> CanAlign(c, size, AlignUp(size - c.EndReserve(), c.modulus) + c.remainder)
  }

  predicate EndAligned(c: Cfg, b: Block)
    requires c.Usable()
  {
    b.ntb.ndps != [] && b.ntb.ndps[0].off % c.ndpModulus == 0
  }

  lemma ShorterAligns(c: Cfg, size: nat, len: nat, longer: nat)
    requires c.Usable() && len <= longer && CanAlign(c, size, longer)
    ensures CanAlign(c, size, len)
  {
    hide AlignUp;
    AlignUpMonotone(len, longer, c.ndpModulus);
  }

  lemma ReservedAligns(c: Cfg, size: nat, len: nat)
    requires c.Usable() && c.toEnd && len + c.EndReserve() <= size
    ensures CanAlign(c, size, len)
  {
  }

  /** The length of an NTB in front of its table when a call is through with it. */
  function LengthOf(c: Cfg, t: Tx, skb: Option<Pkt>, full: bool, small: bool): nat
    requires c.Usable()
  {
    var entered := Entered(c, t, skb, full, small);
    if entered.None? then 0 else |FillLoop(c, BufferSize(c, t, skb, full, small), entered.value).ntb.bytes|
  }

  /** The table of the NTB that a call sends, exactly, and two conditions under which it is aligned. */
  ghost predicate TableRight(c: Cfg, b: Block, len: nat, rem: Option<Pkt>)
    requires c.Usable()
  {
    && |b.ntb.ndps| == 1 && b.ntb.ndps[0].off + c.MaxNdp() <= b.size
    && (EndAligned(c, b) <==> CanAlign(c, b.size, len))
    && (rem.None? ==> EndAligned(c, b))
    && (c.maxDatagrams == 1 || EndSafe(c, b.size) ==> EndAligned(c, b))
  }

  lemma FinishTable(c: Cfg, cap: nat, minTxPkt: nat, ntb: Ntb, delayed: seq<Byte>)
    requires c.Valid() && c.toEnd && |ntb.bytes| + c.MaxNdp() <= cap
    ensures var r := Finish(c, cap, minTxPkt, ntb, delayed);
            && |r.ndps| == 1 && r.ndps[0].off + c.MaxNdp() <= cap
            && (r.ndps[0].off % c.ndpModulus == 0 <==> CanAlign(c, cap, |ntb.bytes|))
  {
    hide AlignUp, Finish;
    EndNdpOffset(c, cap, ntb, delayed);
    FinishNdps(c, cap, minTxPkt, ntb, delayed);
  }

  lemma LoopTable(c: Cfg, t: Tx, l: Loop)
    requires c.Valid() && c.toEnd && l.ntb.placed != [] && Appendable(c, t.currSize, l.ntb)
    requires Leaves(c, t.currSize, l) && Conclude(c, t, l).out.Some?
    ensures var f := Conclude(c, t, l);
            TableRight(c, f.out.value, |l.ntb.bytes|, f.tx.rem) && f.out.value.size == t.currSize
  {
    hide Finish, AlignUp;
    hide CanAlign;
    FinishTable(c, t.currSize, t.minTxPkt, l.ntb, l.delayed);
    if Reserved(c, t.currSize, l.ntb) {
      ReservedAligns(c, t.currSize, |l.ntb.bytes|);
    } else if EndSafe(c, t.currSize) {
      ShorterAligns(c, t.currSize, |l.ntb.bytes|, AlignUp(t.currSize - c.EndReserve(), c.modulus) + c.remainder);
    }
  }

  lemma CallTable(c: Cfg, t: Tx, skb: Option<Pkt>, full: bool, small: bool)
    requires c.Valid() && c.toEnd && SizeInv(c, t) && FillTxFrame(c, t, skb, full, small).out.Some?
    ensures var f := FillTxFrame(c, t, skb, full, small);
            && f.out.value.size == BufferSize(c, t, skb, full, small)
            && TableRight(c, f.out.value, LengthOf(c, t, skb, full, small), f.tx.rem)
  {
    hide Obtain, FillLoop, Conclude, Leaves;
    var first := SwapSkb(t, skb);
    var got := Obtain(c, t, first, full, small);
    ObtainSize(c, t, first, full, small);
    var l := LoopStart(got.tx, got.ntb.value, first, SwapRem(t, skb), skb.None?);
    FillLoopFits(c, got.tx.currSize, l);
    FillLoopCounted(c, got.tx.currSize, l);
    FillLoopLeaves(c, got.tx.currSize, l);
    SentIsFilled(c, got.tx, FillLoop(c, got.tx.currSize, l));
    LoopTable(c, got.tx, FillLoop(c, got.tx.currSize, l));
  }

  lemma SentIsFilled(c: Cfg, t: Tx, l: Loop)
    requires c.Usable() && Conclude(c, t, l).out.Some? && |l.ntb.placed| >= l.n
    ensures l.ntb.placed != []
  {
    hide Finish;
  }

  // ----- runs -----

  /** The length of the NTB of a step in front of its table; 0 if there is none. */
  function LengthBefore(c: Cfg, s: Sys, op: Op): nat
    requires c.Usable()
  {
    var call := CallOf(c, s, op);
    if call.None? then 0 else LengthOf(c, s.tx, Skb(s, op), call.value.full, call.value.small)
  }

  lemma StepTable(c: Cfg, s: Sys, op: Op)
    requires c.Valid() && c.toEnd && SizeInv(c, s.tx) && |Step(c, s, op).blocks| > |s.blocks|
    ensures var s' := Step(c, s, op);
            var b := s'.blocks[|s.blocks|];
            b.size == SizeOf(c, s, op) && TableRight(c, b, LengthBefore(c, s, op), s'.tx.rem)
  {
    hide FillTxFrame, PaddedTxMax, NewMinTxPkt, BufferSize, LengthOf, Record, SizeInv, TableRight;
    var call := CallOf(c, s, op);
    if call.None? {
      NoCallNoBlock(c, s, op);
    } else {
      var f := FillTxFrame(c, s.tx, Skb(s, op), call.value.full, call.value.small);
      RecordSends(s, f);
      RecordSends(s.(bh := false), f);
      if op.Submit? {
        RecordSends(s.(submitted := s.submitted + [NewPkt(s, op.sig, op.data)]), f);
      }
      StepKeepsRem(c, s, op);
      CallTable(c, s.tx, Skb(s, op), call.value.full, call.value.small);
    }
  }

  /** The frame that remains is the one the call leaves. */
  lemma StepKeepsRem(c: Cfg, s: Sys, op: Op)
    requires c.Usable() && CallOf(c, s, op).Some?
    ensures var call := CallOf(c, s, op).value;
            Step(c, s, op).tx.rem == FillTxFrame(c, s.tx, Skb(s, op), call.full, call.small).tx.rem
  {
    hide FillTxFrame, PaddedTxMax, NewMinTxPkt;
  }

  /**
   * Every table that a run moves to the end of an NTB fits, and it is aligned if and only if the
   * NTB in front of it leaves room for the alignment or the buffer minus the table ends aligned.
   * It is when no frame remains, and in every buffer whose size is safe.
   */
  lemma EndTables(c: Cfg, newTx: nat, interval: nat, ops: seq<Op>, op: Op)
    requires c.Valid() && c.toEnd
    ensures var s := Run(c, newTx, interval, ops);
            var s' := Step(c, s, op);
            |s'.blocks| > |s.blocks| ==>
              && s'.blocks[|s.blocks|].size == SizeOf(c, s, op)
              && TableRight(c, s'.blocks[|s.blocks|], LengthBefore(c, s, op), s'.tx.rem)
  {
    hide Run, Step, SizeInv, TableRight;
    var s := Run(c, newTx, interval, ops);
    BlocksFitAlways(c, newTx, interval, ops);
    if |Step(c, s, op).blocks| > |s.blocks| {
      StepTable(c, s, op);
    }
  }

  // ----- a table that is misaligned -----

  /** Each modulus divides the other or is divided by it; the powers of two of cdc_ncm_fix_modulus do. */
  predicate Commensurate(c: Cfg)
    requires c.Usable()
  {
    c.modulus % c.ndpModulus == 0 || c.ndpModulus % c.modulus == 0
  }

  lemma MultipleOfMultiple(a: nat, m: nat, n: nat)
    requires m > 0 && n > 0 && a % m == 0 && m % n == 0
    ensures a % n == 0
  {
    var k, j := a / m, m / n;
    assert a == m * k && m == n * j;
    assert a == n * (j * k);
    MultipleMod(n, j * k);
  }

  /** The length of a frame that fills an NTB up to the reserve. */
  function FillingLength(c: Cfg, size: nat): int
    requires c.Usable()
  {
    size - c.EndReserve() - FirstAt(c, c.fmt.NthLen())
  }

  lemma SmallerDivides(c: Cfg)
    requires c.Usable() && Commensurate(c) && c.ndpModulus <= c.modulus
    ensures c.modulus % c.ndpModulus == 0
  {
    assert c.ndpModulus == c.modulus * (c.ndpModulus / c.modulus) + c.ndpModulus % c.modulus;
    if c.modulus % c.ndpModulus != 0 {
      MultipleGrows(c.modulus, c.ndpModulus / c.modulus);
    }
  }

  /** Padding to a multiple of both moduli never outruns the reserve. */
  lemma CoarseIsSafe(c: Cfg, size: nat)
    requires c.Usable() && c.toEnd && c.remainder == 0 && c.ndpModulus <= c.modulus && Commensurate(c)
    ensures EndSafe(c, size)
  {
    if size >= c.EndReserve() {
      var to := AlignUp(size - c.EndReserve(), c.modulus);
      AlignUpAligned(size - c.EndReserve(), c.modulus);
      SmallerDivides(c);
      MultipleOfMultiple(to, c.modulus, c.ndpModulus);
    }
  }

  lemma FillingFits(c: Cfg, size: nat)
    requires c.Valid() && c.toEnd && !Hopeless(c, size, c.fmt.NthLen())
    requires c.remainder > 0 || c.ndpModulus > c.modulus
    ensures 0 <= FillingLength(c, size)
    ensures Threshold(c, c.fmt.NthLen()) + FillingLength(c, size) <= size
  {
    hide AlignUp;
  }

  /** A second frame that cannot fit sends the NTB, with its padding behind the first. */
  lemma SecondRefused(c: Cfg, t: Tx, pkt: Pkt, size: nat, len: nat)
    requires c.Valid() && c.toEnd && c.maxDatagrams > 1 && SizeInv(c, t) && Waits(c, t, size, len)
    requires |pkt.data| == size && len > 0
    ensures FillTxFrame(c, t, Some(pkt), true, true).out.Some?
    ensures LengthOf(c, t, Some(pkt), true, true) == len + AlignPad(len, c.modulus, c.remainder, size)
    ensures BufferSize(c, t, Some(pkt), true, true) == size
  {
    hide Prepare, AddFrame, Finish, AlignPad;
    var l := LoopStart(t, t.curr.value, None, Some(pkt), false);
    PreparedEnd(c, size, l.ntb, l.delayed, pkt);
    var (l', more) := Iterate(c, size, l, pkt);
    assert !more && l'.ready && l'.n == 1;
    assert FillLoop(c, size, l) == l';
  }

  lemma SecondSends(c: Cfg, s: Sys, size: nat, len: nat)
    requires c.Valid() && c.toEnd && c.maxDatagrams > 1 && SizeInv(c, s.tx) && Waits(c, s.tx, size, len) && len > 0
    ensures var op := Submit(1, Zeros(size), true, true);
            && |Step(c, s, op).blocks| == |s.blocks| + 1
            && LengthBefore(c, s, op) == len + AlignPad(len, c.modulus, c.remainder, size)
            && SizeOf(c, s, op) == size
  {
    hide FillTxFrame, LengthOf, BufferSize, AlignPad, Step;
    var op := Submit(1, Zeros(size), true, true);
    SecondRefused(c, s.tx, NewPkt(s, op.sig, op.data), size, len);
    SubmitSends(c, s, op);
  }

  /** The table of an NTB that was filled up to the reserve, and then refused a frame. */
  function Filling(c: Cfg, size: nat, full: bool): seq<Op>
    requires c.Usable() && FillingLength(c, size) >= 0
  {
    [Submit(1, Zeros(FillingLength(c, size)), full, true), Submit(1, Zeros(size), true, true)]
  }

  lemma FillingWaits(c: Cfg, s: Sys, full: bool, size: nat)
    requires c.Valid() && Sanitised(c) && c.toEnd && c.maxDatagrams > 1 && s.tx.interval > 0
    requires StartsIn(c, s.tx, full, size) && !Hopeless(c, size, c.fmt.NthLen())
    requires c.remainder > 0 || c.ndpModulus > c.modulus
    ensures 0 <= FillingLength(c, size)
    ensures var s' := Step(c, s, Submit(1, Zeros(FillingLength(c, size)), full, true));
            && c.EndReserve() < size && Waits(c, s'.tx, size, size - c.EndReserve())
            && s'.blocks == s.blocks
  {
    hide FillTxFrame, AlignUp;
    FillingFits(c, size);
    FirstCall(c, s.tx, NewPkt(s, 1, Zeros(FillingLength(c, size))), full, size);
  }

  lemma SecondMisaligns(c: Cfg, s: Sys, size: nat)
    requires c.Valid() && c.toEnd && c.maxDatagrams > 1 && SizeInv(c, s.tx) && s.blocks == [] && !EndSafe(c, size)
    requires c.EndReserve() < size && Waits(c, s.tx, size, size - c.EndReserve())
    ensures var blocks := Step(c, s, Submit(1, Zeros(size), true, true)).blocks;
            |blocks| == 1 && blocks[0].size == size && !EndAligned(c, blocks[0])
  {
    hide Step, EndSafe, EndAligned, SizeInv, CanAlign, AlignPad, LengthBefore, SizeOf;
    var op := Submit(1, Zeros(size), true, true);
    SecondSends(c, s, size, size - c.EndReserve());
    StepTable(c, s, op);
    StretchedMisaligns(c, size);
  }

  lemma FillingRun(c: Cfg, newTx: nat, full: bool, size: nat)
    requires c.Usable() && FillingLength(c, size) >= 0
    ensures var s := Init(c, newTx, 1);
            var ops := Filling(c, size, full);
            && Run(c, newTx, 1, [ops[0]]) == Step(c, s, ops[0])
            && Run(c, newTx, 1, ops) == Step(c, Step(c, s, ops[0]), ops[1])
  {
    hide Step, Init, FillingLength;
    var ops := Filling(c, size, full);
    RunTwice(c, newTx, 1, ops[0], ops[1]);
    assert [ops[0]][..0] == [] && Run(c, newTx, 1, []) == Init(c, newTx, 1);
  }

  /** A run of two frames that sends a misaligned table, in a full-size or a small buffer. */
  lemma MisalignedTable(c: Cfg, newTx: nat, full: bool, size: nat)
    requires c.Valid() && Sanitised(c) && c.toEnd && c.maxDatagrams > 1 && Commensurate(c)
    requires if full then size == PaddedTxMax(c, newTx) else size == c.minOut && PaddedTxMax(c, newTx) != c.minOut
    requires !Hopeless(c, size, c.fmt.NthLen()) && !EndSafe(c, size)
    ensures 0 <= FillingLength(c, size)
    ensures var blocks := Run(c, newTx, 1, Filling(c, size, full)).blocks;
            && ValidOps(c, Filling(c, size, full))
            && |blocks| == 1 && blocks[0].size == size && !EndAligned(c, blocks[0])
  {
    hide PaddedTxMax, NewMinTxPkt, Step, Run, EndSafe, Hopeless, Commensurate, EndAligned, SizeInv, Waits;
    if c.remainder == 0 && c.ndpModulus <= c.modulus {
      CoarseIsSafe(c, size);
    }
    TxMaxBounds(c, newTx);
    var s := Init(c, newTx, 1);
    InitStarts(c, newTx, 1, full, size);
    FillingWaits(c, s, full, size);
    FillingRun(c, newTx, full, size);
    BlocksFitAlways(c, newTx, 1, [Filling(c, size, full)[0]]);
    SecondMisaligns(c, Step(c, s, Filling(c, size, full)[0]), size);
  }

  lemma StretchedMisaligns(c: Cfg, size: nat)
    requires c.Valid() && c.toEnd && !EndSafe(c, size)
    ensures c.EndReserve() <= size
    ensures var len := size - c.EndReserve();
            !CanAlign(c, size, len + AlignPad(len, c.modulus, c.remainder, size))
  {
  }

  // ----- exactly -----

  /** Every table that a run sends from a buffer of this size is aligned. */
  ghost predicate NeverMisaligned(c: Cfg, size: nat)
    requires c.Usable()
  {
    forall newTx: nat, interval: nat, ops: seq<Op>, b: Block
      | ValidOps(c, ops) && b in Run(c, newTx, interval, ops).blocks ::
      b.size == size ==> EndAligned(c, b)
  }

  ghost predicate SafeBlocks(c: Cfg, blocks: seq<Block>)
    requires c.Usable()
  {
    forall b | b in blocks :: c.maxDatagrams == 1 || EndSafe(c, b.size) ==> EndAligned(c, b)
  }

  lemma {:induction false} RunSafeBlocks(c: Cfg, newTx: nat, interval: nat, ops: seq<Op>)
    requires c.Valid() && c.toEnd
    ensures SafeBlocks(c, Run(c, newTx, interval, ops).blocks)
  {
    hide Step, EndSafe, EndAligned, PaddedTxMax, NewMinTxPkt;
    if ops != [] {
      var before := ops[..|ops| - 1];
      RunSafeBlocks(c, newTx, interval, before);
      EndTables(c, newTx, interval, before, ops[|ops| - 1]);
      StepAppends(c, Run(c, newTx, interval, before), ops[|ops| - 1]);
    }
  }

  lemma StepAppends(c: Cfg, s: Sys, op: Op)
    requires c.Usable()
    ensures s.blocks <= Step(c, s, op).blocks
    ensures |Step(c, s, op).blocks| <= |s.blocks| + 1
  {
    hide FillTxFrame, PaddedTxMax, NewMinTxPkt;
  }

  /**
   * In every buffer that can carry a frame, all runs with any updates and allocations send aligned
   * tables if and only if one frame is the limit, or the size of the buffer is safe.
   */
  lemma EndTablesExactly(c: Cfg, newTx: nat, size: nat)
    requires c.Valid() && Sanitised(c) && c.toEnd && Commensurate(c) && !Hopeless(c, size, c.fmt.NthLen())
    requires size == PaddedTxMax(c, newTx) || size == c.minOut
    ensures NeverMisaligned(c, size) <==> c.maxDatagrams == 1 || EndSafe(c, size)
  {
    hide Run, EndSafe, EndAligned, PaddedTxMax, Hopeless, Commensurate, Filling, FillingLength;
    if c.maxDatagrams == 1 || EndSafe(c, size) {
      forall newTx: nat, interval: nat, ops: seq<Op>, b: Block
        | ValidOps(c, ops) && b in Run(c, newTx, interval, ops).blocks
        ensures b.size == size ==> EndAligned(c, b)
      {
        RunSafeBlocks(c, newTx, interval, ops);
      }
    } else {
      var full := size == PaddedTxMax(c, newTx);
      MisalignedTable(c, newTx, full, size);
      assert Run(c, newTx, 1, Filling(c, size, full)).blocks[0] in Run(c, newTx, 1, Filling(c, size, full)).blocks;
    }
  }
}
