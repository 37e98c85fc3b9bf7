/**
 * The sizing theorem: when tx_max covers the headers, the alignment and the largest frame, no
 * frame is lost for its size, and the room test means what it says although it is computed
 * with unsigned types of different widths.
 */
module NcmSizing {
  import opened Bytes
  import opened Options
  import opened NcmFormat
  import opened NcmTx
  import opened NcmSystem
  import opened NcmFifo
  import opened NcmLoss
  import opened NcmLayout
  import opened NcmSizes

  /** The configuration with the room test as it is written in C. */
  function AsWritten(c: Cfg): Cfg { c.(room := SizeT) }

  /**
   * The C expression agrees with the integers if and only if the reserve itself still fits;
   * otherwise the difference wraps to a huge number and the test passes.
   */
  lemma RoomTestAgrees(c: Cfg, cap: nat, len: nat, reserve: nat)
    requires c.Valid() && len <= cap < 0x8000_0000 && reserve < 0x8000_0000
    ensures HasRoom(c, cap, len, reserve) == HasRoom(AsWritten(c), cap, len, reserve) <==> len + reserve <= cap
  {
  }

  /** The header, the table and the frame with their alignment, and the reserve for a table at the end. */
  function Need(c: Cfg, maxFrame: nat): int {
    c.fmt.NthLen() + (if c.toEnd then 0 else c.ndpModulus + c.MaxNdp())
    + c.modulus + c.remainder + maxFrame + c.EndReserve()
  }

  /** The path of cdc_ncm_tx_fixup: one signature, frames of bounded size, enough memory, a large enough tx_max. */
  predicate SizedOp(c: Cfg, sig: nat, maxFrame: nat, op: Op)
    requires c.Usable()
  {
    && FullAlloc(op)
    && match op
       case Submit(s, data, _, _) => s == sig && |data| <= maxFrame
       case UpdateTxMax(newTx, _, _, _) => PaddedTxMax(c, newTx) >= Need(c, maxFrame)
       case _ => true
  }

  ghost predicate SizedPkt(sig: nat, maxFrame: nat, p: Option<Pkt>) {
    p.Some? ==> p.value.sig == sig && |p.value.data| <= maxFrame
  }

  /** A table for `sig` can be had without a room test, or the NTB is untouched. */
  ghost predicate SizedNtb(c: Cfg, cap: nat, sig: nat, maxFrame: nat, ntb: Ntb, delayed: seq<Byte>) {
    && cap >= Need(c, maxFrame)
    && |ntb.bytes| <= cap
    && (ntb.placed == [] ==> |ntb.bytes| == c.fmt.NthLen() && ntb.ndps == [])
    && (c.toEnd ==> ntb.ndps == [])
    && (c.toEnd && ntb.placed == [] ==> DelayedSig(delayed) == 0)
    && (c.toEnd && ntb.placed != [] ==> DelayedSig(delayed) == sig)
    && (!c.toEnd && ntb.placed != [] ==> |ntb.ndps| == 1 && ntb.ndps[0].sig == sig)
  }

  ghost predicate SizedTx(c: Cfg, sig: nat, maxFrame: nat, t: Tx) {
    && t.lowVal == 0
    && t.txMax >= Need(c, maxFrame)
    && SizedPkt(sig, maxFrame, t.rem)
    && (t.curr.Some? ==> SizedNtb(c, t.currSize, sig, maxFrame, t.curr.value, t.delayed) && t.currSize < 0x8000_0000)
    && (t.curr.None? && c.toEnd ==> DelayedSig(t.delayed) == 0)
    && t.txMax < 0x8000_0000
  }

  ghost predicate SizedLoop(c: Cfg, cap: nat, sig: nat, maxFrame: nat, l: Loop) {
    && SizedNtb(c, cap, sig, maxFrame, l.ntb, l.delayed)
    && SizedPkt(sig, maxFrame, l.skb)
    && SizedPkt(sig, maxFrame, l.rem)
    && cap < 0x8000_0000
    && |l.ntb.placed| == l.n
    && 0 < sig < 0x1_0000_0000
    && (c.toEnd ==> |l.delayed| == c.MaxNdp())
  }

  // ----- the first frame -----

  lemma OpenedSig(c: Cfg, delayed: seq<Byte>, sig: nat)
    requires |delayed| == c.MaxNdp() && 0 < sig < 0x1_0000_0000
    ensures DelayedSig(OpenNdp(c.fmt, delayed, 0, sig)) == sig
  {
    EntriesAreLinear(c.fmt, 0, c.maxDatagrams + 1);
    Capacities();
    FieldRoundTrip(4, sig);
    var b := Patch(delayed, 0, Le(4, sig));
    var r := OpenNdp(c.fmt, delayed, 0, sig);
    AgreeSlice(b, r, 0, 4, 0, 4);
  }

  lemma WrittenSig(c: Cfg, delayed: seq<Byte>, k: nat, index: nat, length: nat)
    requires |delayed| == c.MaxNdp() && k < c.maxDatagrams
    ensures DelayedSig(WriteEntry(c.fmt, delayed, 0, k, index, length)) == DelayedSig(delayed)
  {
    hide WriteEntry;
    EntriesAreLinear(c.fmt, k + 1, c.maxDatagrams + 1);
    WriteEntryBytes(c.fmt, delayed, 0, k, index, length);
    var r := WriteEntry(c.fmt, delayed, 0, k, index, length);
    AgreeSlice(delayed, r, 0, 4, 0, 4);
  }

  /** Both readings of the room test find room for the first frame. */
  lemma FirstFrameHasRoom(c: Cfg, cap: nat, maxFrame: nat, reserve: nat)
    requires c.Valid() && Need(c, maxFrame) <= cap < 0x8000_0000
    requires reserve <= maxFrame + c.modulus + c.remainder
    ensures var pad := if c.toEnd then 0 else AlignPad(c.fmt.NthLen(), c.ndpModulus, 0, cap);
            && HasRoom(c, cap, c.fmt.NthLen() + pad, reserve)
            && HasRoom(AsWritten(c), cap, c.fmt.NthLen() + pad, reserve)
            && c.fmt.NthLen() + pad <= c.fmt.NthLen() + c.ndpModulus - 1
  {
  }

  /** What a search does in this setting: it opens the one table, or finds it. */
  ghost predicate TableFound(c: Cfg, sig: nat, ntb: Ntb, r: Lookup) {
    && r.slot != NoSlot
    && r.slot == (if c.toEnd then InDelayed else InNtb(0))
    && (c.toEnd ==> DelayedSig(r.delayed) == sig && r.ntb.ndps == [] && |r.ntb.bytes| == |ntb.bytes|)
    && (!c.toEnd ==> |r.ntb.ndps| == 1 && r.ntb.ndps[0].sig == sig)
    && (!c.toEnd && ntb.placed == [] ==> |r.ntb.bytes| <= c.fmt.NthLen() + c.ndpModulus - 1 + c.MaxNdp())
  }

  lemma SizedFirstInline(c: Cfg, cap: nat, sig: nat, maxFrame: nat, ntb: Ntb, delayed: seq<Byte>, reserve: nat)
    requires c.Valid() && SizedNtb(c, cap, sig, maxFrame, ntb, delayed) && cap < 0x8000_0000
    requires reserve <= maxFrame + c.modulus + c.remainder && !c.toEnd && ntb.placed == []
    ensures var r := GetNdp(c, cap, ntb, delayed, sig, reserve);
            GetNdp(AsWritten(c), cap, ntb, delayed, sig, reserve) == r && TableFound(c, sig, ntb, r)
  {
    hide OpenNdp, Patch, LinkAt, HasRoom, DelayedSig, AlignPad, Need;
    FirstFrameHasRoom(c, cap, maxFrame, reserve);
  }

  lemma SizedFirstDelayed(c: Cfg, cap: nat, sig: nat, maxFrame: nat, ntb: Ntb, delayed: seq<Byte>, reserve: nat)
    requires c.Valid() && SizedNtb(c, cap, sig, maxFrame, ntb, delayed) && cap < 0x8000_0000
    requires 0 < sig < 0x1_0000_0000 && reserve <= maxFrame + c.modulus + c.remainder
    requires c.toEnd && |delayed| == c.MaxNdp() && ntb.placed == []
    ensures var r := GetNdp(c, cap, ntb, delayed, sig, reserve);
            GetNdp(AsWritten(c), cap, ntb, delayed, sig, reserve) == r && TableFound(c, sig, ntb, r)
  {
    hide OpenNdp, Patch, LinkAt, HasRoom, DelayedSig, AlignPad, Need;
    FirstFrameHasRoom(c, cap, maxFrame, reserve);
    OpenedSig(c, delayed, sig);
  }

  lemma SizedLater(c: Cfg, cap: nat, sig: nat, maxFrame: nat, ntb: Ntb, delayed: seq<Byte>, reserve: nat)
    requires c.Valid() && SizedNtb(c, cap, sig, maxFrame, ntb, delayed) && ntb.placed != []
    ensures var r := GetNdp(c, cap, ntb, delayed, sig, reserve);
            GetNdp(AsWritten(c), cap, ntb, delayed, sig, reserve) == r && TableFound(c, sig, ntb, r)
  {
    hide OpenNdp, Patch, LinkAt, HasRoom, DelayedSig, AlignPad, Need;
  }

  lemma SizedLookup(c: Cfg, cap: nat, sig: nat, maxFrame: nat, ntb: Ntb, delayed: seq<Byte>, reserve: nat)
    requires c.Valid() && SizedNtb(c, cap, sig, maxFrame, ntb, delayed) && cap < 0x8000_0000
    requires 0 < sig < 0x1_0000_0000 && reserve <= maxFrame + c.modulus + c.remainder
    requires c.toEnd ==> |delayed| == c.MaxNdp()
    ensures var r := GetNdp(c, cap, ntb, delayed, sig, reserve);
            GetNdp(AsWritten(c), cap, ntb, delayed, sig, reserve) == r && TableFound(c, sig, ntb, r)
  {
    hide GetNdp, TableFound;
    if ntb.placed != [] {
      SizedLater(c, cap, sig, maxFrame, ntb, delayed, reserve);
    } else if c.toEnd {
      SizedFirstDelayed(c, cap, sig, maxFrame, ntb, delayed, reserve);
    } else {
      SizedFirstInline(c, cap, sig, maxFrame, ntb, delayed, reserve);
    }
  }

  /** The table for a frame is there, and a frame that is the first one fits. */
  ghost predicate Prepared(c: Cfg, cap: nat, sig: nat, ntb: Ntb, look: Lookup, pkt: Pkt) {
    && look.slot == (if c.toEnd then InDelayed else InNtb(0))
    && (c.toEnd ==> DelayedSig(look.delayed) == sig && look.ntb.ndps == [])
    && (!c.toEnd ==> |look.ntb.ndps| == 1 && look.ntb.ndps[0].sig == sig)
    && (ntb.placed == [] ==> Fits(c, cap, look, pkt))
  }

  lemma SizedPrepare(c: Cfg, cap: nat, sig: nat, maxFrame: nat, ntb: Ntb, delayed: seq<Byte>, pkt: Pkt)
    requires c.Valid() && SizedNtb(c, cap, sig, maxFrame, ntb, delayed) && cap < 0x8000_0000
    requires 0 < sig < 0x1_0000_0000 && pkt.sig == sig && |pkt.data| <= maxFrame
    requires c.toEnd ==> |delayed| == c.MaxNdp()
    ensures Prepare(AsWritten(c), cap, ntb, delayed, pkt) == Prepare(c, cap, ntb, delayed, pkt)
    ensures Prepared(c, cap, sig, ntb, Prepare(c, cap, ntb, delayed, pkt), pkt)
  {
    hide GetNdp, DelayedSig;
    SizedLookup(c, cap, sig, maxFrame, ntb, delayed, |pkt.data| + c.modulus + c.remainder);
  }

  // ----- the loop -----

  lemma SizedAdd(c: Cfg, cap: nat, sig: nat, maxFrame: nat, look: Lookup, pkt: Pkt)
    requires c.Valid() && cap >= Need(c, maxFrame) && Fits(c, cap, look, pkt) && pkt.sig == sig
    requires look.slot == (if c.toEnd then InDelayed else InNtb(0))
    requires c.toEnd ==> DelayedSig(look.delayed) == sig && look.ntb.ndps == [] && |look.delayed| == c.MaxNdp()
    requires !c.toEnd ==> |look.ntb.ndps| == 1 && look.ntb.ndps[0].sig == sig
    requires |look.ntb.placed| < c.maxDatagrams
    ensures var r := AddFrame(c, look, pkt);
            && AddFrame(AsWritten(c), look, pkt) == r
            && SizedNtb(c, cap, sig, maxFrame, r.ntb, r.delayed)
  {
    hide WriteEntry, DelayedSig, Need, Sub;
    if c.toEnd {
      WrittenSig(c, look.delayed, |Sub(look.ntb.placed, pkt.sig)|, |look.ntb.bytes|, |pkt.data|);
    }
  }

  lemma SizedIterate(c: Cfg, cap: nat, sig: nat, maxFrame: nat, l: Loop, pkt: Pkt)
    requires c.Valid() && SizedLoop(c, cap, sig, maxFrame, l) && NextSkb(l) == Some(pkt) && l.n < c.maxDatagrams
    ensures var (l', more) := Iterate(c, cap, l, pkt);
            && Iterate(AsWritten(c), cap, l, pkt) == (l', more)
            && SizedNtb(c, cap, sig, maxFrame, l'.ntb, l'.delayed)
            && (l.n == 0 ==> l'.drops == l.drops)
  {
    hide Prepare, DelayedSig, Need;
    hide AddFrame;
    SizedPrepare(c, cap, sig, maxFrame, l.ntb, l.delayed, pkt);
    var look := Prepare(c, cap, l.ntb, l.delayed, pkt);
    if Fits(c, cap, look, pkt) {
      SizedAdd(c, cap, sig, maxFrame, look, pkt);
    }
  }

  lemma SizedIteratePkts(c: Cfg, cap: nat, sig: nat, maxFrame: nat, l: Loop, pkt: Pkt)
    requires c.Valid() && SizedLoop(c, cap, sig, maxFrame, l) && NextSkb(l) == Some(pkt)
    ensures var l' := Iterate(c, cap, l, pkt).0;
            && SizedPkt(sig, maxFrame, l'.skb) && SizedPkt(sig, maxFrame, l'.rem)
            && |l'.delayed| == |l.delayed|
  {
    hide Prepare, AddFrame, SizedNtb;
  }

  lemma {:induction false} SizedFillLoop(c: Cfg, cap: nat, sig: nat, maxFrame: nat, l: Loop)
    requires c.Valid() && Sanitised(c) && SizedLoop(c, cap, sig, maxFrame, l) && LoopInv(c, l)
    ensures var l' := FillLoop(c, cap, l);
            && FillLoop(AsWritten(c), cap, l) == l'
            && SizedNtb(c, cap, sig, maxFrame, l'.ntb, l'.delayed)
            && SizedPkt(sig, maxFrame, l'.rem)
            && |l'.delayed| == |l.delayed|
            && l'.skb.None? && l'.drops == []
    decreases c.maxDatagrams - l.n
  {
    hide Iterate, SizedNtb;
    if l.n < c.maxDatagrams && NextSkb(l).Some? {
      var pkt := NextSkb(l).value;
      var (l', more) := Iterate(c, cap, l, pkt);
      IterateShape(c, cap, l, pkt, l', more);
      SizedIterate(c, cap, sig, maxFrame, l, pkt);
      SizedIteratePkts(c, cap, sig, maxFrame, l, pkt);
      if more {
        SizedFillLoop(c, cap, sig, maxFrame, l');
      }
    }
  }

  // ----- calls -----

  lemma ConcludeSame(c: Cfg, t: Tx, l: Loop)
    requires c.Valid()
    ensures Conclude(AsWritten(c), t, l) == Conclude(c, t, l)
  {
    hide Finish;
    FinishSame(c, t.currSize, t.minTxPkt, l.ntb, l.delayed);
  }

  lemma FinishSame(c: Cfg, cap: nat, minTxPkt: nat, ntb: Ntb, delayed: seq<Byte>)
    requires c.Valid()
    ensures Finish(AsWritten(c), cap, minTxPkt, ntb, delayed) == Finish(c, cap, minTxPkt, ntb, delayed)
  {
    hide Patch, AlignPad, DelayedSig;
  }

  lemma SizedConclude(c: Cfg, sig: nat, maxFrame: nat, t: Tx, l: Loop)
    requires c.Valid() && t.lowVal == 0 && Need(c, maxFrame) <= t.txMax < 0x8000_0000 && t.currSize < 0x8000_0000
    requires SizedNtb(c, t.currSize, sig, maxFrame, l.ntb, l.delayed) && SizedPkt(sig, maxFrame, l.rem)
    requires l.skb.None? && l.drops == []
    ensures var f := Conclude(c, t, l);
            SizedTx(c, sig, maxFrame, f.tx) && f.drops == []
  {
    hide Finish, DelayedSig, Need;
    ZeroSig(|l.delayed|);
  }

  lemma ZeroSig(n: nat)
    ensures DelayedSig(Zeros(n)) == 0
  {
    if n >= 4 {
      assert Zeros(n)[0..4] == Zeros(4);
      ZeroField(4);
      Capacities();
      FieldRoundTrip(4, 0);
    }
  }

  lemma SizedFill(c: Cfg, sig: nat, maxFrame: nat, t: Tx, skb: Option<Pkt>, small: bool)
    requires c.Valid() && Sanitised(c) && SizedTx(c, sig, maxFrame, t) && LossInv(c, t)
    requires SizedPkt(sig, maxFrame, skb) && 0 < sig < 0x1_0000_0000 && |t.delayed| == c.MaxNdp()
    requires c.fmt.NthLen() <= t.txMax
    ensures var f := FillTxFrame(c, t, skb, true, small);
            && FillTxFrame(AsWritten(c), t, skb, true, small) == f
            && SizedTx(c, sig, maxFrame, f.tx)
            && f.drops == []
  {
    hide FillLoop, Conclude, NewNtb, DelayedSig, Need;
    var first := SwapSkb(t, skb);
    var rem := SwapRem(t, skb);
    var got := Obtain(c, t, first, true, small);
    var l := LoopStart(got.tx, got.ntb.value, first, rem, skb.None?);
    SizedFillLoop(c, got.tx.currSize, sig, maxFrame, l);
    var l' := FillLoop(c, got.tx.currSize, l);
    ConcludeSame(c, got.tx, l');
    SizedConclude(c, sig, maxFrame, got.tx, l');
  }

  // ----- runs -----

  ghost predicate SizedSys(c: Cfg, sig: nat, maxFrame: nat, s: Sys) {
    && SizedTx(c, sig, maxFrame, s.tx)
    && LossInv(c, s.tx)
    && SizeInv(c, s.tx)
    && s.drops == []
  }

  lemma SizedRecord(c: Cfg, sig: nat, maxFrame: nat, s: Sys, f: Filled)
    requires s.drops == [] && f.drops == [] && SizedTx(c, sig, maxFrame, f.tx)
    ensures SizedTx(c, sig, maxFrame, Record(s, f).tx) && Record(s, f).drops == []
  {
    hide SizedTx;
  }

  lemma TxMaxSame(c: Cfg, newTx: nat)
    requires c.Valid()
    ensures PaddedTxMax(AsWritten(c), newTx) == PaddedTxMax(c, newTx)
    ensures NewMinTxPkt(AsWritten(c), newTx) == NewMinTxPkt(c, newTx)
    ensures PaddedTxMax(c, newTx) < 0x8000_0000
  {
  }

  lemma SizedStep(c: Cfg, sig: nat, maxFrame: nat, s: Sys, op: Op)
    requires c.Valid() && Sanitised(c) && SizedSys(c, sig, maxFrame, s) && SizedOp(c, sig, maxFrame, op)
    requires 0 < sig < 0x1_0000_0000
    ensures Step(AsWritten(c), s, op) == Step(c, s, op)
    ensures SizedTx(c, sig, maxFrame, Step(c, s, op).tx) && Step(c, s, op).drops == []
  {
    hide FillTxFrame, PaddedTxMax, NewMinTxPkt, DelayedSig, Need, SizedNtb, LossInv;
    match op
    case Submit(_, data, full, small) =>
      var pkt := NewPkt(s, sig, data);
      SizedFill(c, sig, maxFrame, s.tx, Some(pkt), small);
      SizedRecord(c, sig, maxFrame, s.(submitted := s.submitted + [pkt]), FillTxFrame(c, s.tx, Some(pkt), true, small));
    case BhRuns(full, small) =>
      SizedFill(c, sig, maxFrame, s.tx, None, small);
      SizedRecord(c, sig, maxFrame, s.(bh := false), FillTxFrame(c, s.tx, None, true, small));
    case UpdateTxMax(newTx, running, full, small) => SizedUpdate(c, sig, maxFrame, s, newTx, running, small);
    case _ =>
  }

  lemma SizedUpdate(c: Cfg, sig: nat, maxFrame: nat, s: Sys, newTx: nat, running: bool, small: bool)
    requires c.Valid() && Sanitised(c) && SizedSys(c, sig, maxFrame, s) && 0 < sig < 0x1_0000_0000
    requires PaddedTxMax(c, newTx) >= Need(c, maxFrame)
    ensures var s' := UpdateStep(c, s, newTx, running, true, small);
            && UpdateStep(AsWritten(c), s, newTx, running, true, small) == s'
            && SizedTx(c, sig, maxFrame, s'.tx) && s'.drops == []
  {
    hide FillTxFrame, PaddedTxMax, NewMinTxPkt, DelayedSig, Need, LossInv;
    SizedFill(c, sig, maxFrame, s.tx, None, small);
    FillCounted(c, s.tx, None, true, small);
    TxMaxSame(c, newTx);
    TxMaxSame(c, PaddedTxMax(c, newTx));
  }

  /**
   * The sizing theorem: in such a run no frame is dropped, and the driver with the room test as
   * it is written in C goes through exactly the same states as with the integer reading.
   */
  lemma {:induction false} SizingTheorem(c: Cfg, sig: nat, maxFrame: nat, newTx: nat, interval: nat, ops: seq<Op>)
    requires c.Valid() && Sanitised(c) && 0 < sig < 0x1_0000_0000
    requires PaddedTxMax(c, newTx) >= Need(c, maxFrame)
    requires forall i | 0 <= i < |ops| :: SizedOp(c, sig, maxFrame, ops[i])
    ensures var s := Run(c, newTx, interval, ops);
            && s.drops == []
            && Run(AsWritten(c), newTx, interval, ops) == s
            && SizedSys(c, sig, maxFrame, s)
  {
    BlocksFitAlways(c, newTx, interval, ops);
    OnlyTwoLossSites(c, newTx, interval, ops);
    if ops == [] {
      TxMaxSame(c, newTx);
      TxMaxSame(c, PaddedTxMax(c, newTx));
      ZeroSig(c.MaxNdp());
      hide PaddedTxMax, NewMinTxPkt, Need, DelayedSig;
    } else {
      var before := ops[..|ops| - 1];
      SizingTheorem(c, sig, maxFrame, newTx, interval, before);
      SizedStep(c, sig, maxFrame, Run(c, newTx, interval, before), ops[|ops| - 1]);
      hide Step, Need, SizedTx, LossInv, SizeInv, SizedOp;
    }
  }
}
