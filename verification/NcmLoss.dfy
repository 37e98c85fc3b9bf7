/**
 * With a sanitised limit on datagrams, frames are lost at two places only: a frame that an NTB
 * without frames refuses, and a failed allocation.
 */
module NcmLoss {
  import opened Options
  import opened NcmFormat
  import opened NcmTx
  import opened NcmSystem
  import opened NcmFifo

  /** What cdc_ncm_init establishes for tx_max_datagrams. */
  predicate Sanitised(c: Cfg) {
    1 <= c.maxDatagrams <= c.dptMax
  }

  ghost predicate OnlyTwoSites(drops: seq<Drop>) {
    forall d | d in drops :: d.reason == NoRoom || d.reason == AllocFailed
  }

  /** A remaining frame never waits behind an NTB that already holds frames. */
  ghost predicate LossInv(c: Cfg, t: Tx) {
    && Counted(t)
    && (t.curr.Some? ==> t.frameNum < c.maxDatagrams)
    && (t.curr.Some? && t.rem.Some? ==> t.frameNum == 0)
  }

  ghost predicate LoopInv(c: Cfg, l: Loop) {
    && |l.ntb.placed| == l.n <= c.maxDatagrams
    && (l.skb.Some? ==> l.n < c.maxDatagrams)
    && (l.skb.Some? && l.rem.Some? ==> l.n == 0)
    && l.drops == []
  }

  lemma {:induction false} FillLoopLoss(c: Cfg, cap: nat, l: Loop)
    requires c.Workable() && Sanitised(c) && LoopInv(c, l)
    ensures var l' := FillLoop(c, cap, l);
            && |l'.ntb.placed| == l'.n <= c.maxDatagrams
            && l'.skb.None?
            && (l'.rem.Some? ==> l'.n == 0 || l'.ready || l'.n == c.maxDatagrams)
            && OnlyTwoSites(l'.drops)
    decreases c.maxDatagrams - l.n
  {
    hide Iterate;
    if l.n < c.maxDatagrams && NextSkb(l).Some? {
      var pkt := NextSkb(l).value;
      var (l', more) := Iterate(c, cap, l, pkt);
      IterateShape(c, cap, l, pkt, l', more);
      if more {
        FillLoopLoss(c, cap, l');
      }
    }
  }

  lemma FillLoss(c: Cfg, t: Tx, skb: Option<Pkt>, full: bool, small: bool)
    requires c.Workable() && Sanitised(c) && LossInv(c, t)
    ensures var f := FillTxFrame(c, t, skb, full, small);
            LossInv(c, f.tx) && OnlyTwoSites(f.drops)
  {
    hide FillLoop, Finish;
    var first := SwapSkb(t, skb);
    var got := Obtain(c, t, first, full, small);
    if got.ntb.Some? {
      var l := LoopStart(got.tx, got.ntb.value, first, SwapRem(t, skb), skb.None?);
      FillLoopLoss(c, got.tx.currSize, l);
    }
  }

  lemma StepLoss(c: Cfg, s: Sys, op: Op)
    requires c.Workable() && Sanitised(c) && LossInv(c, s.tx) && OnlyTwoSites(s.drops)
    ensures LossInv(c, Step(c, s, op).tx) && OnlyTwoSites(Step(c, s, op).drops)
  {
    hide FillTxFrame, PaddedTxMax, NewMinTxPkt;
    match op
    case Submit(sig, data, full, small) =>
      FillLoss(c, s.tx, Some(NewPkt(s, sig, data)), full, small);
    case BhRuns(full, small) => FillLoss(c, s.tx, None, full, small);
    case UpdateTxMax(newTx, running, full, small) => FillLoss(c, s.tx, None, full, small);
    case _ =>
  }

  // ----- the breaks that are never taken -----

  /** The loop that a call runs, if it gets a buffer. */
  function Entered(c: Cfg, t: Tx, skb: Option<Pkt>, full: bool, small: bool): Option<Loop> {
    var got := Obtain(c, t, SwapSkb(t, skb), full, small);
    if got.ntb.None? then None
    else Some(LoopStart(got.tx, got.ntb.value, SwapSkb(t, skb), SwapRem(t, skb), skb.None?))
  }

  /** The size of the buffer that a call works in. */
  function BufferSize(c: Cfg, t: Tx, skb: Option<Pkt>, full: bool, small: bool): nat {
    Obtain(c, t, SwapSkb(t, skb), full, small).tx.currSize
  }

  /**
   * The loop ended without a full table, which would leave the last frame uncounted, and without
   * a frame that it never looked at.
   */
  ghost predicate Completes(l: Loop) {
    |l.ntb.placed| == l.n && l.skb.None?
  }

  /** Whatever comes next, its loop completes. */
  ghost predicate LoopsComplete(c: Cfg, t: Tx)
    requires c.Usable()
  {
    forall skb, full, small | Entered(c, t, skb, full, small).Some? ::
      Completes(FillLoop(c, BufferSize(c, t, skb, full, small), Entered(c, t, skb, full, small).value))
  }

  lemma LossCompletes(c: Cfg, t: Tx)
    requires c.Workable() && Sanitised(c) && LossInv(c, t)
    ensures LoopsComplete(c, t)
  {
    forall skb, full, small | Entered(c, t, skb, full, small).Some?
      ensures Completes(FillLoop(c, BufferSize(c, t, skb, full, small), Entered(c, t, skb, full, small).value))
    {
      hide NewNtb, FillLoop;
      FillLoopLoss(c, BufferSize(c, t, skb, full, small), Entered(c, t, skb, full, small).value);
    }
  }

  /**
   * Over every run, the replace-drop, the dangling-drop and the full-table break never happen,
   * in the calls so far and in any that may come next: each lost frame was refused by an NTB
   * without frames or met a failed allocation, and a remaining frame means that no NTB with
   * frames is pending.
   */
  lemma {:induction false} OnlyTwoLossSites(c: Cfg, newTx: nat, interval: nat, ops: seq<Op>)
    requires c.Workable() && Sanitised(c)
    ensures var s := Run(c, newTx, interval, ops);
            && OnlyTwoSites(s.drops)
            && LossInv(c, s.tx)
            && LoopsComplete(c, s.tx)
            && (s.tx.rem.Some? && s.tx.curr.Some? ==> s.tx.curr.value.placed == [])
  {
    if ops != [] {
      OnlyTwoLossSites(c, newTx, interval, ops[..|ops| - 1]);
      hide LoopsComplete;
      StepLoss(c, Run(c, newTx, interval, ops[..|ops| - 1]), ops[|ops| - 1]);
    }
    LossCompletes(c, Run(c, newTx, interval, ops).tx);
  }
}
