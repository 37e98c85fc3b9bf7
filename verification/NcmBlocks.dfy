/**
 * What every NTB of every run looks like: a complete chain with one non-empty table per
 * signature, in which each table lists the frames of its signature in order.
 */
module NcmBlocks {
  import opened Bytes
  import opened Options
  import opened NcmFormat
  import opened NcmTx
  import opened NcmSystem
  import opened NcmFifo
  import opened NcmLayout
  import opened NcmEncode
  import opened NcmSizes

  // ----- no empty table -----

  /** Every table lists at least one frame. */
  ghost predicate NonEmpty(ndps: seq<NdpRef>, placed: seq<Entry>) {
    && |ndps| <= |placed|
    && forall j | 0 <= j < |ndps| :: Sub(placed, ndps[j].sig) != []
  }

  /** The room test for a new table covers the frame it is made for. */
  lemma NewTableFits(c: Cfg, cap: nat, ntb: Ntb, delayed: seq<Byte>, pkt: Pkt)
    requires c.Valid() && !c.toEnd
    ensures var look := Prepare(c, cap, ntb, delayed, pkt);
            && (|| look.ntb.ndps == ntb.ndps
                || look.ntb.ndps == ntb.ndps + [NdpRef(look.ntb.ndps[|ntb.ndps|].off, pkt.sig)])
            && (look.ntb.ndps != ntb.ndps ==> Fits(c, cap, look, pkt))
  {
    hide OpenNdp, Patch, LinkAt;
  }

  lemma NonEmptyAppend(ndps: seq<NdpRef>, ndps': seq<NdpRef>, placed: seq<Entry>, e: Entry, off: nat)
    requires NonEmpty(ndps, placed)
    requires ndps' == ndps || ndps' == ndps + [NdpRef(off, e.pkt.sig)]
    ensures NonEmpty(ndps', placed + [e])
  {
    forall j | 0 <= j < |ndps'|
      ensures Sub(placed + [e], ndps'[j].sig) != []
    {
      SubAppend(placed, e, ndps'[j].sig);
      if j < |ndps| {
        assert Sub(placed, ndps[j].sig) != [];
      }
    }
  }

  lemma IterateNonEmpty(c: Cfg, cap: nat, l: Loop, pkt: Pkt)
    requires c.Valid() && !c.toEnd && NonEmpty(l.ntb.ndps, l.ntb.placed)
    ensures var l' := Iterate(c, cap, l, pkt).0;
            NonEmpty(l'.ntb.ndps, l'.ntb.placed)
  {
    hide Prepare, Fits, WriteEntry, NonEmpty;
    NewTableFits(c, cap, l.ntb, l.delayed, pkt);
    var look := Prepare(c, cap, l.ntb, l.delayed, pkt);
    if Fits(c, cap, look, pkt) {
      var off := if look.ntb.ndps == l.ntb.ndps then 0 else look.ntb.ndps[|l.ntb.ndps|].off;
      NonEmptyAppend(l.ntb.ndps, look.ntb.ndps, l.ntb.placed, Entry(|look.ntb.bytes|, pkt), off);
    }
  }

  lemma {:induction false} FillLoopNonEmpty(c: Cfg, cap: nat, l: Loop)
    requires c.Valid() && !c.toEnd && NonEmpty(l.ntb.ndps, l.ntb.placed) && |l.ntb.placed| == l.n
    ensures var l' := FillLoop(c, cap, l);
            NonEmpty(l'.ntb.ndps, l'.ntb.placed)
    decreases c.maxDatagrams - l.n
  {
    hide Iterate, NonEmpty;
    if l.n < c.maxDatagrams && NextSkb(l).Some? {
      var pkt := NextSkb(l).value;
      var (l', more) := Iterate(c, cap, l, pkt);
      IterateNonEmpty(c, cap, l, pkt);
      IterateSteps(c, cap, l, pkt);
      if more {
        FillLoopNonEmpty(c, cap, l');
      }
    }
  }

  // ----- blocks -----

  ghost predicate LengthAt(f: Format, b: seq<Byte>) {
    && f.NthLen() <= |b|
    && b[f.BlockLengthAt()..f.BlockLengthAt() + f.Width()] == Le(f.Width(), |b|)
  }

  /** An NTB as the specification wants it. */
  ghost predicate Sound(c: Cfg, ntb: Ntb) {
    && Chained(c, ntb)
    && LengthAt(c.fmt, ntb.bytes)
    && NonEmpty(ntb.ndps, ntb.placed)
    && ntb.placed != []
    && |ntb.placed| <= c.maxDatagrams
    && c.fmt.Addressable(|ntb.bytes|)
  }

  ghost predicate TxInv(c: Cfg, t: Tx) {
    && SizeInv(c, t)
    && (t.curr.Some? ==>
          && Built(c, t.curr.value, t.delayed)
          && (!c.toEnd ==> NonEmpty(t.curr.value.ndps, t.curr.value.placed))
          && |t.curr.value.placed| <= c.maxDatagrams
          && c.fmt.Addressable(t.currSize))
    && (t.curr.None? && c.toEnd ==> DelayedHolds(c, t.delayed, []))
    && (t.rem.Some? ==> ValidPkt(c, t.rem.value))
  }

  lemma NewNtbBuilt(c: Cfg, seqno: nat, delayed: seq<Byte>)
    requires c.Valid() && (c.toEnd ==> DelayedHolds(c, delayed, []))
    ensures Built(c, NewNtb(c.fmt, seqno), delayed)
  {
    hide NewNtb, DelayedHolds;
    NewNtbChained(c, seqno);
  }

  ghost predicate Obtains(c: Cfg, got: Obtained) {
    got.ntb.Some? ==>
      && Built(c, got.ntb.value, got.tx.delayed)
      && (!c.toEnd ==> NonEmpty(got.ntb.value.ndps, got.ntb.value.placed))
      && |got.ntb.value.placed| <= c.maxDatagrams
      && c.fmt.Addressable(got.tx.currSize)
  }

  lemma ObtainBuilt(c: Cfg, t: Tx, skb: Option<Pkt>, full: bool, small: bool)
    requires c.Valid() && TxInv(c, t) && (skb.Some? ==> ValidPkt(c, skb.value))
    ensures Obtains(c, Obtain(c, t, skb, full, small))
  {
    hide NewNtb, Built, DelayedHolds;
    if t.curr.None? {
      NewNtbBuilt(c, t.seqno, t.delayed);
    }
  }

  lemma FinishLength(c: Cfg, cap: nat, minTxPkt: nat, ntb: Ntb, delayed: seq<Byte>)
    requires c.Valid() && c.fmt.NthLen() <= |ntb.bytes|
    ensures LengthAt(c.fmt, Finish(c, cap, minTxPkt, ntb, delayed).bytes)
  {
    hide TailPad, AlignPad;
  }

  lemma FinishSound(c: Cfg, cap: nat, minTxPkt: nat, ntb: Ntb, delayed: seq<Byte>)
    requires c.Valid() && Built(c, ntb, delayed) && 0 < |ntb.placed| <= c.maxDatagrams
    requires |ntb.bytes| <= cap && c.fmt.Addressable(cap) && Appendable(c, cap, ntb)
    requires !c.toEnd ==> NonEmpty(ntb.ndps, ntb.placed)
    ensures Sound(c, Finish(c, cap, minTxPkt, ntb, delayed))
  {
    FinishChained(c, cap, minTxPkt, ntb, delayed);
    FinishLength(c, cap, minTxPkt, ntb, delayed);
    FinishSize(c, cap, minTxPkt, ntb, delayed);
    FinishNdps(c, cap, minTxPkt, ntb, delayed);
    if c.toEnd {
      SubAll(ntb.placed, DelayedSig(delayed));
    }
    hide Chained, HeaderAt, Payloads, LengthAt, Patch, AlignTail, TailPad;
  }

  lemma ConcludeSound(c: Cfg, t: Tx, l: Loop)
    requires c.Valid() && c.fmt.NthLen() <= t.txMax <= c.maxTx + 1
    requires LoopBuilt(c, t.currSize, l) && c.fmt.Addressable(t.currSize)
    requires |l.ntb.placed| <= c.maxDatagrams && Appendable(c, t.currSize, l.ntb)
    requires |l.ntb.placed| == l.n || (l.ready && l.n >= c.dptMax && |l.ntb.placed| == l.n + 1)
    requires !c.toEnd ==> NonEmpty(l.ntb.ndps, l.ntb.placed)
    requires SizeInv(c, Conclude(c, t, l).tx)
    ensures var f := Conclude(c, t, l);
            TxInv(c, f.tx) && (f.out.Some? ==> Sound(c, f.out.value.ntb))
  {
    if Conclude(c, t, l).out.Some? {
      FinishSound(c, t.currSize, t.minTxPkt, l.ntb, l.delayed);
    }
    hide Built, Sound, SizeInv, Finish, NonEmpty;
    if c.toEnd {
      ZerosHold(c);
    }
  }

  lemma ZerosHold(c: Cfg)
    ensures DelayedHolds(c, Zeros(c.MaxNdp()), [])
  {
    EntriesAreLinear(c.fmt, 1, c.maxDatagrams + 1);
    ZeroField(4);
    Capacities();
    FieldRoundTrip(4, 0);
    assert Zeros(c.MaxNdp())[0..4] == Zeros(4);
  }

  lemma LoopSound(c: Cfg, t: Tx, l: Loop)
    requires c.Valid() && c.fmt.NthLen() <= t.txMax <= c.maxTx + 1
    requires LoopBuilt(c, t.currSize, l) && c.fmt.Addressable(t.currSize)
    requires |l.ntb.placed| == l.n <= c.maxDatagrams && Reserved(c, t.currSize, l.ntb)
    requires |l.delayed| == c.MaxNdp() && (c.toEnd ==> l.ntb.ndps == [])
    requires !c.toEnd ==> NonEmpty(l.ntb.ndps, l.ntb.placed)
    ensures var f := Conclude(c, t, FillLoop(c, t.currSize, l));
            TxInv(c, f.tx) && (f.out.Some? ==> Sound(c, f.out.value.ntb))
  {
    FillLoopFits(c, t.currSize, l);
    FillLoopCounted(c, t.currSize, l);
    FillLoopBuilt(c, t.currSize, l);
    if !c.toEnd {
      FillLoopNonEmpty(c, t.currSize, l);
    }
    hide FillLoop, LoopBuilt, NonEmpty, Conclude;
    var l' := FillLoop(c, t.currSize, l);
    ConcludeSize(c, t, l');
    ConcludeSound(c, t, l');
  }

  lemma FillSound(c: Cfg, t: Tx, skb: Option<Pkt>, full: bool, small: bool)
    requires c.Valid() && TxInv(c, t) && (skb.Some? ==> ValidPkt(c, skb.value))
    ensures var f := FillTxFrame(c, t, skb, full, small);
            TxInv(c, f.tx) && (f.out.Some? ==> Sound(c, f.out.value.ntb))
  {
    var first := SwapSkb(t, skb);
    var rem := SwapRem(t, skb);
    var got := Obtain(c, t, first, full, small);
    ObtainBuilt(c, t, first, full, small);
    ObtainSize(c, t, first, full, small);
    hide Obtain, FillLoop, Conclude, NonEmpty, Built, DelayedHolds;
    if got.ntb.Some? {
      LoopSound(c, got.tx, LoopStart(got.tx, got.ntb.value, first, rem, skb.None?));
    }
  }

  // ----- runs -----

  ghost predicate BlocksSound(c: Cfg, blocks: seq<Block>) {
    forall b | b in blocks :: Sound(c, b.ntb)
  }

  lemma RecordSound(c: Cfg, s: Sys, f: Filled)
    requires BlocksSound(c, s.blocks) && TxInv(c, f.tx) && (f.out.Some? ==> Sound(c, f.out.value.ntb))
    ensures TxInv(c, Record(s, f).tx) && BlocksSound(c, Record(s, f).blocks)
  {
    hide Sound, TxInv;
  }

  lemma DiscardKeeps(c: Cfg, t: Tx, txMax: nat, minTxPkt: nat)
    requires c.Valid() && TxInv(c, t) && c.fmt.NthLen() <= txMax <= c.maxTx + 1
    requires t.curr.Some? ==> t.curr.value.placed == []
    ensures TxInv(c, t.(curr := None, txMax := txMax, minTxPkt := minTxPkt))
  {
    hide DelayedHolds, Chained, NonEmpty;
  }

  lemma KeepsTxMax(c: Cfg, t: Tx, txMax: nat, minTxPkt: nat)
    requires c.Valid() && TxInv(c, t) && c.fmt.NthLen() <= txMax <= c.maxTx + 1
    ensures TxInv(c, t.(txMax := txMax, minTxPkt := minTxPkt))
  {
    hide Built, NonEmpty, DelayedHolds;
  }

  lemma UpdateSound(c: Cfg, s: Sys, newTx: nat, running: bool, full: bool, small: bool)
    requires c.Valid() && TxInv(c, s.tx) && BlocksSound(c, s.blocks)
    ensures var s' := UpdateStep(c, s, newTx, running, full, small);
            TxInv(c, s'.tx) && BlocksSound(c, s'.blocks)
  {
    var f := FillTxFrame(c, s.tx, None, full, small);
    FillSound(c, s.tx, None, full, small);
    FillCounted(c, s.tx, None, full, small);
    TxMaxBounds(c, newTx);
    RecordSound(c, s, f);
    var val := PaddedTxMax(c, newTx);
    DiscardKeeps(c, f.tx, val, NewMinTxPkt(c, val));
    KeepsTxMax(c, s.tx, val, NewMinTxPkt(c, val));
    hide FillTxFrame, TxInv, PaddedTxMax, NewMinTxPkt, BlocksSound;
  }

  lemma TimerKeeps(c: Cfg, t: Tx, pending: nat, interval: nat, minTxPkt: nat)
    requires TxInv(c, t)
    ensures TxInv(c, t.(pending := pending, interval := interval, minTxPkt := minTxPkt))
  {
    hide Built, NonEmpty, DelayedHolds;
  }

  lemma StepSound(c: Cfg, s: Sys, op: Op)
    requires c.Valid() && ValidOp(c, op) && TxInv(c, s.tx) && BlocksSound(c, s.blocks)
    ensures TxInv(c, Step(c, s, op).tx) && BlocksSound(c, Step(c, s, op).blocks)
  {
    hide FillTxFrame, TxInv, BlocksSound, UpdateStep;
    match op
    case Submit(sig, data, full, small) =>
      var pkt := NewPkt(s, sig, data);
      FillSound(c, s.tx, Some(pkt), full, small);
      RecordSound(c, s.(submitted := s.submitted + [pkt]), FillTxFrame(c, s.tx, Some(pkt), full, small));
    case BhRuns(full, small) =>
      if s.bh {
        FillSound(c, s.tx, None, full, small);
        RecordSound(c, s.(bh := false), FillTxFrame(c, s.tx, None, full, small));
        if s.tx.pending != 0 {
          TimerKeeps(c, s.tx, s.tx.pending - 1, s.tx.interval, s.tx.minTxPkt);
        }
      }
    case UpdateTxMax(newTx, running, full, small) => UpdateSound(c, s, newTx, running, full, small);
    case SetInterval(interval) =>
      TimerKeeps(c, s.tx, if interval == 0 then 0 else s.tx.pending, interval, s.tx.minTxPkt);
    case SetMinTxPkt(size) => TimerKeeps(c, s.tx, s.tx.pending, s.tx.interval, size);
    case TimerFires =>
  }

  /**
   * Over every run, whatever the signatures of the frames are, every NTB that is sent has one
   * table per signature, at strictly increasing offsets; each table lists the frames of its
   * signature in order and is not empty.
   */
  lemma {:induction false} BlocksAlwaysSound(c: Cfg, newTx: nat, interval: nat, ops: seq<Op>)
    requires c.Valid() && ValidOps(c, ops)
    ensures var s := Run(c, newTx, interval, ops);
            TxInv(c, s.tx) && BlocksSound(c, s.blocks)
  {
    if ops == [] {
      TxMaxBounds(c, newTx);
      ZerosHold(c);
      hide DelayedHolds, PaddedTxMax, NewMinTxPkt;
    } else {
      BlocksAlwaysSound(c, newTx, interval, ops[..|ops| - 1]);
      StepSound(c, Run(c, newTx, interval, ops[..|ops| - 1]), ops[|ops| - 1]);
    }
  }
}
