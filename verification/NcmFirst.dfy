/**
 * The first frame of an NTB: where it goes, how long the NTB is then, and that every NTB with
 * frames is at least as long as its first frame makes it.
 */
module NcmFirst {
  import opened Bytes
  import opened Options
  import opened NcmFormat
  import opened NcmTx
  import opened NcmSystem
  import opened NcmLoss
  import opened NcmSizing
  import opened NcmSizes
  import opened NcmRefusal

  /** Where the first frame starts in an NTB of `len` bytes without tables, when the buffer does not end before. */
  function FirstAt(c: Cfg, len: nat): nat
    requires c.Usable()
  {
    AlignUp(if c.toEnd then len else AlignUp(len, c.ndpModulus) + c.MaxNdp(), c.modulus) + c.remainder
  }

  lemma AlignUpMonotone(a: nat, b: nat, m: nat)
    requires m > 0 && a <= b
    ensures AlignUp(a, m) <= AlignUp(b, m)
  {
    AlignUpAligned(a, m);
    AlignUpAligned(b, m);
    if AlignUp(b, m) < AlignUp(a, m) {
      assert AlignUp(a, m) == m * (AlignUp(a, m) / m) && AlignUp(b, m) == m * (AlignUp(b, m) / m);
      assert AlignUp(a, m) - AlignUp(b, m) == m * (AlignUp(a, m) / m - AlignUp(b, m) / m);
      MultipleGrows(m, AlignUp(a, m) / m - AlignUp(b, m) / m);
    }
  }

  // ----- a lower bound -----

  /** An NTB with a table has its header and one table, and one with frames reaches behind its first frame. */
  ghost predicate Floor(c: Cfg, cap: nat, ntb: Ntb)
    requires c.Usable()
  {
    && c.fmt.NthLen() <= |ntb.bytes| <= cap
    && (!c.toEnd && ntb.ndps != [] ==> |ntb.bytes| >= AlignUp(c.fmt.NthLen(), c.ndpModulus) + c.MaxNdp())
    && (ntb.placed != [] ==> |ntb.bytes| >= Min(FirstAt(c, c.fmt.NthLen()), cap))
  }

  /** The search for a table, with the length that a new one leads to. */
  lemma LookupGrows(c: Cfg, cap: nat, ntb: Ntb, delayed: seq<Byte>, sig: nat, reserve: nat)
    requires c.Valid() && |ntb.bytes| <= cap && reserve > 0
    ensures var r := GetNdp(c, cap, ntb, delayed, sig, reserve);
            && (c.toEnd ==> r.ntb.ndps == ntb.ndps)
            && (!c.toEnd && r.slot != NoSlot ==> r.ntb.ndps != [])
            && (r.ntb.ndps != ntb.ndps ==> |r.ntb.bytes| == AlignUp(|ntb.bytes|, c.ndpModulus) + c.MaxNdp())
  {
    hide OpenNdp, Patch, LinkAt, AlignUp;
  }

  lemma PrepareFloor(c: Cfg, cap: nat, ntb: Ntb, delayed: seq<Byte>, pkt: Pkt)
    requires c.Valid() && Floor(c, cap, ntb)
    ensures var look := Prepare(c, cap, ntb, delayed, pkt);
            && Floor(c, cap, look.ntb)
            && (look.slot != NoSlot ==> |look.ntb.bytes| >= Min(FirstAt(c, c.fmt.NthLen()), cap))
  {
    hide GetNdp, AlignUp;
    var look := GetNdp(c, cap, ntb, delayed, pkt.sig, |pkt.data| + c.modulus + c.remainder);
    LookupGrows(c, cap, ntb, delayed, pkt.sig, |pkt.data| + c.modulus + c.remainder);
    AlignUpMonotone(c.fmt.NthLen(), |ntb.bytes|, c.ndpModulus);
    if look.slot != NoSlot {
      var first := if c.toEnd then c.fmt.NthLen() else AlignUp(c.fmt.NthLen(), c.ndpModulus) + c.MaxNdp();
      AlignUpMonotone(first, |look.ntb.bytes|, c.modulus);
    }
  }

  lemma IterateFloor(c: Cfg, cap: nat, l: Loop, pkt: Pkt)
    requires c.Valid() && Floor(c, cap, l.ntb)
    ensures var (l', more) := Iterate(c, cap, l, pkt);
            Floor(c, cap, l'.ntb) && (more ==> l'.n == l.n + 1)
  {
    hide Prepare, AddFrame, AlignUp;
    PrepareFloor(c, cap, l.ntb, l.delayed, pkt);
  }

  lemma {:induction false} FillLoopFloor(c: Cfg, cap: nat, l: Loop)
    requires c.Valid() && Floor(c, cap, l.ntb)
    ensures Floor(c, cap, FillLoop(c, cap, l).ntb)
    decreases c.maxDatagrams - l.n
  {
    hide Iterate, Floor;
    if l.n < c.maxDatagrams && NextSkb(l).Some? {
      IterateFloor(c, cap, l, NextSkb(l).value);
      if Iterate(c, cap, l, NextSkb(l).value).1 {
        FillLoopFloor(c, cap, Iterate(c, cap, l, NextSkb(l).value).0);
      }
    }
  }

  ghost predicate FloorInv(c: Cfg, t: Tx)
    requires c.Usable()
  {
    t.txMax >= c.fmt.NthLen() && (t.curr.Some? ==> Floor(c, t.currSize, t.curr.value))
  }

  /** Both for what a call leaves behind and for what it works on. */
  lemma FillFloor(c: Cfg, t: Tx, skb: Option<Pkt>, full: bool, small: bool)
    requires c.Valid() && FloorInv(c, t)
    ensures FloorInv(c, FillTxFrame(c, t, skb, full, small).tx)
    ensures var entered := Entered(c, t, skb, full, small);
            entered.Some? ==> Floor(c, BufferSize(c, t, skb, full, small), entered.value.ntb)
  {
    hide NewNtb, FillLoop, Finish, FirstAt, AlignUp;
    var entered := Entered(c, t, skb, full, small);
    if entered.Some? {
      FillLoopFloor(c, BufferSize(c, t, skb, full, small), entered.value);
    }
  }

  lemma StepFloor(c: Cfg, s: Sys, op: Op)
    requires c.Valid() && FloorInv(c, s.tx)
    ensures FloorInv(c, Step(c, s, op).tx)
  {
    hide FillTxFrame, PaddedTxMax, NewMinTxPkt, Floor;
    match op
    case Submit(sig, data, full, small) => FillFloor(c, s.tx, Some(NewPkt(s, sig, data)), full, small);
    case BhRuns(full, small) => FillFloor(c, s.tx, None, full, small);
    case UpdateTxMax(newTx, running, full, small) => TxMaxBounds(c, newTx);
    case _ =>
  }

  /** Over every run. */
  lemma {:induction false} RunFloor(c: Cfg, newTx: nat, interval: nat, ops: seq<Op>)
    requires c.Valid()
    ensures FloorInv(c, Run(c, newTx, interval, ops).tx)
  {
    hide Step, PaddedTxMax, NewMinTxPkt;
    if ops == [] {
      TxMaxBounds(c, newTx);
    } else {
      RunFloor(c, newTx, interval, ops[..|ops| - 1]);
      StepFloor(c, Run(c, newTx, interval, ops[..|ops| - 1]), ops[|ops| - 1]);
    }
  }

  // ----- one frame -----

  lemma PreparedAt(c: Cfg, cap: nat, ntb: Ntb, delayed: seq<Byte>, pkt: Pkt)
    requires c.Valid() && Bare(c, ntb, delayed) && |ntb.bytes| <= cap && pkt.sig > 0
    requires Takes(c, cap, ntb, delayed, pkt)
    ensures |Prepare(c, cap, ntb, delayed, pkt).ntb.bytes| == FirstAt(c, |ntb.bytes|)
  {
    hide GetNdp, DelayedSig, Takes;
    var reserve := |pkt.data| + c.modulus + c.remainder;
    if c.toEnd {
      BareLookupEnd(c, cap, ntb, delayed, pkt.sig, reserve);
    } else {
      BareLookupInline(c, cap, ntb, delayed, pkt.sig, reserve);
    }
    TakesExactly(c, cap, ntb, delayed, pkt);
  }

  /** A loop that has one frame to look at, and room for it. */
  lemma OneFrame(c: Cfg, cap: nat, l: Loop, pkt: Pkt)
    requires c.Valid() && Sanitised(c) && LoopInv(c, l) && l.n == 0 && l.skb.None? && l.rem == Some(pkt)
    requires Bare(c, l.ntb, l.delayed) && |l.ntb.bytes| <= cap && pkt.sig > 0
    requires Threshold(c, |l.ntb.bytes|) + |pkt.data| <= cap
    ensures var l' := FillLoop(c, cap, l);
            && l'.n == 1 && l'.skb.None? && l'.rem.None? && l'.ready == l.ready && l'.drops == []
            && |l'.ntb.bytes| == FirstAt(c, |l.ntb.bytes|) + |pkt.data|
  {
    hide Prepare, Fits, AddFrame, Bare, Threshold, FirstAt;
    TakesExactly(c, cap, l.ntb, l.delayed, pkt);
    PreparedAt(c, cap, l.ntb, l.delayed, pkt);
    var (l', more) := Iterate(c, cap, l, pkt);
    assert more && NextSkb(l').None?;
    assert FillLoop(c, cap, l') == l';
  }

  /** A context that holds nothing, and the size of the buffer that the next NTB gets. */
  ghost predicate StartsIn(c: Cfg, t: Tx, full: bool, size: nat) {
    && t.curr.None? && t.rem.None? && t.lowVal == 0
    && |t.delayed| == c.MaxNdp() && (c.toEnd ==> DelayedSig(t.delayed) == 0)
    && (if full then size == t.txMax else size == c.minOut && t.txMax != c.minOut)
  }

  lemma InitStarts(c: Cfg, newTx: nat, interval: nat, full: bool, size: nat)
    requires c.Usable()
    requires if full then size == PaddedTxMax(c, newTx) else size == c.minOut && PaddedTxMax(c, newTx) != c.minOut
    ensures StartsIn(c, Init(c, newTx, interval).tx, full, size)
  {
    hide PaddedTxMax, NewMinTxPkt, DelayedSig;
    ZeroSig(c.MaxNdp());
  }

  /** An NTB of `len` bytes with one frame waits in a buffer of `size`. */
  ghost predicate Waits(c: Cfg, t: Tx, size: nat, len: nat) {
    && t.curr.Some? && |t.curr.value.bytes| == len && t.currSize == size && t.frameNum == 1 && t.rem.None?
    && |t.curr.value.placed| == 1
  }

  /** The loop that a call runs for the first frame. */
  lemma FirstLoop(c: Cfg, t: Tx, pkt: Pkt, full: bool, size: nat)
    requires c.Valid() && Sanitised(c) && StartsIn(c, t, full, size) && pkt.sig > 0
    requires Threshold(c, c.fmt.NthLen()) + |pkt.data| <= size
    ensures var entered := Entered(c, t, Some(pkt), full, true);
            && entered.Some? && BufferSize(c, t, Some(pkt), full, true) == size
            && var l' := FillLoop(c, size, entered.value);
               && l'.n == 1 && l'.skb.None? && l'.rem.None? && !l'.ready && l'.drops == []
               && |l'.ntb.bytes| == FirstAt(c, c.fmt.NthLen()) + |pkt.data|
  {
    var l := Entered(c, t, Some(pkt), full, true).value;
    OneFrame(c, size, l, pkt);
    hide FillLoop, NewNtb, Bare, FirstAt, Threshold;
  }

  /** Without coalescing, or when one frame is the limit, the NTB is sent at once; otherwise it waits. */
  lemma FirstCall(c: Cfg, t: Tx, pkt: Pkt, full: bool, size: nat)
    requires c.Valid() && Sanitised(c) && StartsIn(c, t, full, size) && pkt.sig > 0
    requires Threshold(c, c.fmt.NthLen()) + |pkt.data| <= size
    ensures var f := FillTxFrame(c, t, Some(pkt), full, true);
            && f.drops == [] && f.tx.txMax == t.txMax && f.tx.minTxPkt == t.minTxPkt && f.tx.interval == t.interval
            && (if c.maxDatagrams == 1 || t.interval == 0 then
                  f.out.Some? && (full ==> StartsIn(c, f.tx, true, t.txMax))
                else
                  f.out.None? && f.startTimer && Waits(c, f.tx, size, FirstAt(c, c.fmt.NthLen()) + |pkt.data|))
  {
    FirstLoop(c, t, pkt, full, size);
    var l := Entered(c, t, Some(pkt), full, true).value;
    FillLoopLoss(c, size, l);
    FillLoopFits(c, size, l);
    ZeroSig(c.MaxNdp());
    hide FillLoop, NewNtb, Finish, FirstAt, Threshold, DelayedSig;
  }
}
