/**
 * What it means that a frame is dropped for want of room. A frame that an empty NTB refuses
 * leaves its padding, and with a table at the end possibly an open table, in that NTB; the
 * next frame meets them.
 */
module NcmRefusal {
  import opened Bytes
  import opened Options
  import opened NcmFormat
  import opened NcmTx
  import opened NcmSystem
  import opened NcmFifo
  import opened NcmLoss
  import opened NcmEncode
  import opened NcmSizes
  import opened NcmBlocks
  import opened NcmSizing
  import NcmBackoff

  // ----- the drop, exactly -----

  lemma {:induction false} LaterFramesStay(c: Cfg, cap: nat, l: Loop)
    requires c.Workable() && Sanitised(c) && LoopInv(c, l) && l.n > 0
    ensures FillLoop(c, cap, l).drops == [] && FillLoop(c, cap, l).n >= l.n
    decreases c.maxDatagrams - l.n
  {
    hide Iterate;
    if l.n < c.maxDatagrams && NextSkb(l).Some? {
      var pkt := NextSkb(l).value;
      var (l', more) := Iterate(c, cap, l, pkt);
      IterateShape(c, cap, l, pkt, l', more);
      if more {
        LaterFramesStay(c, cap, l');
      }
    }
  }

  /** The table and the padding that an NTB offers to a frame, and whether the frame has room then. */
  predicate Takes(c: Cfg, cap: nat, ntb: Ntb, delayed: seq<Byte>, pkt: Pkt)
    requires c.Usable()
  {
    Fits(c, cap, Prepare(c, cap, ntb, delayed, pkt), pkt)
  }

  /** The first frame that the loop looks at in an NTB without frames does not fit it. */
  predicate FirstRefused(c: Cfg, cap: nat, l: Loop)
    requires c.Usable()
  {
    l.n == 0 && NextSkb(l).Some? && !Takes(c, cap, l.ntb, l.delayed, NextSkb(l).value)
  }

  lemma LoopDropsExactly(c: Cfg, cap: nat, l: Loop)
    requires c.Workable() && Sanitised(c) && LoopInv(c, l)
    ensures var l' := FillLoop(c, cap, l);
            && l'.drops == (if FirstRefused(c, cap, l) then [Drop(NextSkb(l).value, NoRoom)] else [])
            && (FirstRefused(c, cap, l) ==> l' == Iterate(c, cap, l, NextSkb(l).value).0)
            && (!FirstRefused(c, cap, l) && NextSkb(l).Some? ==> l'.n > 0)
            && (NextSkb(l).None? ==> l' == l)
  {
    hide Prepare, Fits, AddFrame;
    if l.n > 0 {
      LaterFramesStay(c, cap, l);
    } else if NextSkb(l).Some? {
      var pkt := NextSkb(l).value;
      var (l', more) := Iterate(c, cap, l, pkt);
      IterateShape(c, cap, l, pkt, l', more);
      if more {
        LaterFramesStay(c, cap, l');
      }
    }
  }

  /** What one call drops: the frame it has no buffer for, or the first frame, refused by an empty NTB. */
  lemma CallDropsExactly(c: Cfg, t: Tx, skb: Option<Pkt>, full: bool, small: bool)
    requires c.Workable() && Sanitised(c) && LossInv(c, t)
    ensures var drops := FillTxFrame(c, t, skb, full, small).drops;
            match Entered(c, t, skb, full, small)
            case None => drops == (if SwapSkb(t, skb).Some? then [Drop(SwapSkb(t, skb).value, AllocFailed)] else [])
            case Some(l) =>
              drops == (if FirstRefused(c, BufferSize(c, t, skb, full, small), l)
                        then [Drop(NextSkb(l).value, NoRoom)] else [])
  {
    hide FillLoop, Finish, FirstRefused, NewNtb;
    var got := Obtain(c, t, SwapSkb(t, skb), full, small);
    if got.ntb.Some? {
      var l := LoopStart(got.tx, got.ntb.value, SwapSkb(t, skb), SwapRem(t, skb), skb.None?);
      LoopDropsExactly(c, got.tx.currSize, l);
      FillLoopLoss(c, got.tx.currSize, l);
    }
  }

  // ----- how much an NTB without frames still takes -----

  /** The bytes that an NTB of `len` bytes without frames and tables needs besides the first frame. */
  function Threshold(c: Cfg, len: nat): nat
    requires c.Usable()
  {
    if c.toEnd then
      Max(len + c.MaxNdp() + c.modulus + c.remainder, AlignUp(len, c.modulus) + c.remainder + c.EndReserve())
    else
      AlignUp(len, c.ndpModulus) + c.MaxNdp() + c.modulus + c.remainder
  }

  /** No frame, no table, and no table waiting for the end. */
  predicate Bare(c: Cfg, ntb: Ntb, delayed: seq<Byte>) {
    && ntb.placed == [] && ntb.ndps == []
    && |delayed| == c.MaxNdp()
    && (c.toEnd ==> DelayedSig(delayed) == 0)
  }

  lemma BareLookupInline(c: Cfg, cap: nat, ntb: Ntb, delayed: seq<Byte>, sig: nat, reserve: nat)
    requires c.Valid() && !c.toEnd && Bare(c, ntb, delayed) && |ntb.bytes| <= cap
    ensures var r := GetNdp(c, cap, ntb, delayed, sig, reserve);
            var to := |ntb.bytes| + AlignPad(|ntb.bytes|, c.ndpModulus, 0, cap);
            && r.delayed == delayed
            && (r.slot == NoSlot <==> to + reserve + c.MaxNdp() > cap)
            && (r.slot == NoSlot ==> r.ntb == ntb.(bytes := AlignTail(ntb.bytes, c.ndpModulus, 0, cap)))
            && (r.slot != NoSlot ==> |r.ntb.bytes| == to + c.MaxNdp())
  {
    hide OpenNdp, Patch, AlignPad;
  }

  lemma BareLookupEnd(c: Cfg, cap: nat, ntb: Ntb, delayed: seq<Byte>, sig: nat, reserve: nat)
    requires c.Valid() && c.toEnd && Bare(c, ntb, delayed) && |ntb.bytes| <= cap && sig > 0
    ensures var r := GetNdp(c, cap, ntb, delayed, sig, reserve);
            && |r.ntb.bytes| == |ntb.bytes| && r.ntb.ndps == []
            && (r.slot == NoSlot <==> |ntb.bytes| + reserve + c.MaxNdp() > cap)
            && (r.slot == NoSlot ==> r.ntb == ntb && r.delayed == delayed)
            && (r.slot != NoSlot ==> r.delayed == OpenNdp(c.fmt, delayed, 0, sig))
  {
    hide OpenNdp, Patch, DelayedSig;
  }

  /** An NTB without frames takes exactly the frames that fit behind its threshold. */
  lemma TakesExactly(c: Cfg, cap: nat, ntb: Ntb, delayed: seq<Byte>, pkt: Pkt)
    requires c.Valid() && Bare(c, ntb, delayed) && |ntb.bytes| <= cap && pkt.sig > 0
    ensures Takes(c, cap, ntb, delayed, pkt) <==> Threshold(c, |ntb.bytes|) + |pkt.data| <= cap
  {
    hide GetNdp, AlignUp, Bare;
    var reserve := |pkt.data| + c.modulus + c.remainder;
    if c.toEnd {
      BareLookupEnd(c, cap, ntb, delayed, pkt.sig, reserve);
    } else {
      BareLookupInline(c, cap, ntb, delayed, pkt.sig, reserve);
    }
  }

  // ----- what a refusal leaves behind -----

  /** The length of an NTB after it refused a frame, when the buffer does not cut the padding short. */
  function Padded(c: Cfg, len: nat): nat
    requires c.Usable()
  {
    AlignUp(if c.toEnd then len else AlignUp(len, c.ndpModulus), c.modulus) + c.remainder
  }

  /** The padding in front of a frame is none, or none that counts. */
  predicate PadsNothing(c: Cfg, len: nat)
    requires c.Usable()
  {
    && c.remainder == 0
    && (if c.toEnd then len % c.modulus == 0 || c.ndpModulus > c.modulus
        else AlignUp(len, c.ndpModulus) % c.modulus == 0)
  }

  lemma PaddedInline(c: Cfg, len: nat)
    requires c.Usable() && !c.toEnd
    ensures Threshold(c, Padded(c, len)) >= Threshold(c, len)
    ensures Threshold(c, Padded(c, len)) == Threshold(c, len) <==> PadsNothing(c, len)
  {
    AlignUpAligned(len, c.ndpModulus);
    var a := AlignUp(len, c.ndpModulus);
    if a % c.modulus != 0 {
      assert AlignUp(a, c.modulus) > a;
    }
  }

  lemma PaddedEnd(c: Cfg, len: nat)
    requires c.Usable() && c.toEnd
    ensures Threshold(c, Padded(c, len)) >= Threshold(c, len)
    ensures Threshold(c, Padded(c, len)) == Threshold(c, len) <==> PadsNothing(c, len)
  {
    AlignUpAligned(len, c.modulus);
    if c.remainder == 0 {
      assert AlignUp(Padded(c, len), c.modulus) == Padded(c, len);
    }
  }

  /** A table at the end that has room is opened even when the frame it is opened for is refused then. */
  predicate Opens(c: Cfg, cap: nat, len: nat, pkt: Pkt) {
    c.toEnd && len + c.MaxNdp() + c.modulus + c.remainder + |pkt.data| <= cap
  }

  lemma RefusalLeavesBare(c: Cfg, cap: nat, ntb: Ntb, delayed: seq<Byte>, pkt: Pkt)
    requires c.Valid() && Bare(c, ntb, delayed) && |ntb.bytes| <= cap && 0 < pkt.sig < 0x1_0000_0000
    requires !Takes(c, cap, ntb, delayed, pkt) && !Opens(c, cap, |ntb.bytes|, pkt)
    ensures var kept := Prepare(c, cap, ntb, delayed, pkt);
            && Bare(c, kept.ntb, kept.delayed)
            && |ntb.bytes| <= |kept.ntb.bytes| <= cap
            && (|kept.ntb.bytes| == Padded(c, |ntb.bytes|) || |kept.ntb.bytes| == cap)
            && (Padded(c, |ntb.bytes|) <= cap ==> |kept.ntb.bytes| == Padded(c, |ntb.bytes|))
            && (Threshold(c, |ntb.bytes|) <= cap ==> |kept.ntb.bytes| == Padded(c, |ntb.bytes|))
  {
    hide GetNdp, AlignUp, DelayedSig;
    var reserve := |pkt.data| + c.modulus + c.remainder;
    if c.toEnd {
      BareLookupEnd(c, cap, ntb, delayed, pkt.sig, reserve);
    } else {
      BareLookupInline(c, cap, ntb, delayed, pkt.sig, reserve);
      TakesExactly(c, cap, ntb, delayed, pkt);
    }
  }

  lemma RefusalOpens(c: Cfg, cap: nat, ntb: Ntb, delayed: seq<Byte>, pkt: Pkt)
    requires c.Valid() && Bare(c, ntb, delayed) && |ntb.bytes| <= cap && 0 < pkt.sig < 0x1_0000_0000
    requires !Takes(c, cap, ntb, delayed, pkt) && Opens(c, cap, |ntb.bytes|, pkt)
    ensures var kept := Prepare(c, cap, ntb, delayed, pkt);
            && DelayedSig(kept.delayed) == pkt.sig && |kept.ntb.bytes| <= cap
            && (|kept.ntb.bytes| == Padded(c, |ntb.bytes|) || |kept.ntb.bytes| == cap)
  {
    hide GetNdp, AlignUp, DelayedSig, OpenNdp;
    var reserve := |pkt.data| + c.modulus + c.remainder;
    BareLookupEnd(c, cap, ntb, delayed, pkt.sig, reserve);
    OpenedSig(c, delayed, pkt.sig);
  }

  /** An open table keeps every other signature out, and its own needs at least the room of the end reserve. */
  lemma OpenTakes(c: Cfg, cap: nat, ntb: Ntb, delayed: seq<Byte>, pkt: Pkt)
    requires c.Valid() && c.toEnd && DelayedSig(delayed) != 0 && |ntb.bytes| <= cap
    ensures Takes(c, cap, ntb, delayed, pkt) ==>
              && pkt.sig == DelayedSig(delayed)
              && AlignUp(|ntb.bytes|, c.modulus) + c.remainder + |pkt.data| + c.EndReserve() <= cap
  {
    hide AlignUp, DelayedSig;
  }

  /** Both NTBs take the same frames. */
  ghost predicate AsGoodAs(c: Cfg, cap: nat, ntb: Ntb, delayed: seq<Byte>, ntb': Ntb, delayed': seq<Byte>)
    requires c.Usable()
  {
    forall pkt: Pkt | 0 < pkt.sig < 0x1_0000_0000 ::
      Takes(c, cap, ntb, delayed, pkt) == Takes(c, cap, ntb', delayed', pkt)
  }

  /** The NTB takes no frame, however short. */
  predicate Hopeless(c: Cfg, cap: nat, len: nat)
    requires c.Usable()
  {
    Threshold(c, len) > cap
  }

  lemma FullBuffer(c: Cfg, cap: nat)
    requires c.Valid()
    ensures Hopeless(c, cap, cap)
  {
  }

  lemma HopelessAfter(c: Cfg, cap: nat, ntb: Ntb, delayed: seq<Byte>, refused: Pkt, pkt: Pkt)
    requires c.Valid() && Bare(c, ntb, delayed) && |ntb.bytes| <= cap && 0 < refused.sig < 0x1_0000_0000
    requires !Takes(c, cap, ntb, delayed, refused) && Hopeless(c, cap, |ntb.bytes|) && pkt.sig > 0
    ensures var kept := Prepare(c, cap, ntb, delayed, refused);
            !Takes(c, cap, kept.ntb, kept.delayed, pkt)
  {
    hide Takes, Prepare, Bare, DelayedSig;
    var kept := Prepare(c, cap, ntb, delayed, refused);
    var len := |ntb.bytes|;
    FullBuffer(c, cap);
    if Opens(c, cap, len, refused) {
      RefusalOpens(c, cap, ntb, delayed, refused);
      OpenTakes(c, cap, kept.ntb, kept.delayed, pkt);
    } else {
      RefusalLeavesBare(c, cap, ntb, delayed, refused);
      TakesExactly(c, cap, kept.ntb, kept.delayed, pkt);
      PaddedGrows(c, len);
    }
  }

  lemma PaddedGrows(c: Cfg, len: nat)
    requires c.Usable()
    ensures Threshold(c, Padded(c, len)) >= Threshold(c, len)
    ensures Threshold(c, Padded(c, len)) == Threshold(c, len) <==> PadsNothing(c, len)
  {
    if c.toEnd {
      PaddedEnd(c, len);
    } else {
      PaddedInline(c, len);
    }
  }

  /** A frame that shows the difference. */
  lemma RefusalShows(c: Cfg, cap: nat, ntb: Ntb, delayed: seq<Byte>, refused: Pkt) returns (pkt: Pkt)
    requires c.Valid() && Bare(c, ntb, delayed) && |ntb.bytes| <= cap && 0 < refused.sig < 0x1_0000_0000
    requires !Takes(c, cap, ntb, delayed, refused) && !Hopeless(c, cap, |ntb.bytes|)
    requires Opens(c, cap, |ntb.bytes|, refused) || !PadsNothing(c, |ntb.bytes|)
    ensures 0 < pkt.sig < 0x1_0000_0000 && |pkt.data| <= cap && Takes(c, cap, ntb, delayed, pkt)
    ensures !Opens(c, cap, |ntb.bytes|, refused) ==> pkt.sig == refused.sig
    ensures var kept := Prepare(c, cap, ntb, delayed, refused);
            !Takes(c, cap, kept.ntb, kept.delayed, pkt)
  {
    hide Takes, Prepare, Bare, DelayedSig, Padded, PadsNothing, Threshold, AlignUp;
    var kept := Prepare(c, cap, ntb, delayed, refused);
    var len := |ntb.bytes|;
    if Opens(c, cap, len, refused) {
      pkt := Pkt(0, if refused.sig == 1 then 2 else 1, []);
      RefusalOpens(c, cap, ntb, delayed, refused);
      OpenTakes(c, cap, kept.ntb, kept.delayed, pkt);
    } else {
      pkt := Pkt(0, refused.sig, Zeros(cap - Threshold(c, len)));
      RefusalLeavesBare(c, cap, ntb, delayed, refused);
      PaddedGrows(c, len);
      TakesExactly(c, cap, kept.ntb, kept.delayed, pkt);
    }
    TakesExactly(c, cap, ntb, delayed, pkt);
  }

  /**
   * A refusal leaves an NTB without frames as good as it was if and only if it took no frame at
   * all, or the padding in front of a frame is none that counts and no table was opened.
   */
  lemma RefusalExactly(c: Cfg, cap: nat, ntb: Ntb, delayed: seq<Byte>, refused: Pkt)
    requires c.Valid() && Bare(c, ntb, delayed) && |ntb.bytes| <= cap && 0 < refused.sig < 0x1_0000_0000
    requires !Takes(c, cap, ntb, delayed, refused)
    ensures var kept := Prepare(c, cap, ntb, delayed, refused);
            AsGoodAs(c, cap, kept.ntb, kept.delayed, ntb, delayed)
            <==> Hopeless(c, cap, |ntb.bytes|)
                 || (PadsNothing(c, |ntb.bytes|) && !Opens(c, cap, |ntb.bytes|, refused))
  {
    hide Takes, Prepare, Bare, DelayedSig, Padded, PadsNothing, Threshold, AlignUp, Opens;
    var kept := Prepare(c, cap, ntb, delayed, refused);
    var len := |ntb.bytes|;
    if Hopeless(c, cap, len) || (PadsNothing(c, len) && !Opens(c, cap, len, refused)) {
      forall pkt: Pkt | 0 < pkt.sig < 0x1_0000_0000
        ensures Takes(c, cap, kept.ntb, kept.delayed, pkt) == Takes(c, cap, ntb, delayed, pkt)
      {
        TakesExactly(c, cap, ntb, delayed, pkt);
        if Hopeless(c, cap, len) {
          HopelessAfter(c, cap, ntb, delayed, refused, pkt);
        } else {
          RefusalLeavesBare(c, cap, ntb, delayed, refused);
          PaddedGrows(c, len);
          TakesExactly(c, cap, kept.ntb, kept.delayed, pkt);
        }
      }
    } else {
      var pkt := RefusalShows(c, cap, ntb, delayed, refused);
    }
  }

  // ----- runs -----

  /** Refusals change nothing: no padding that counts, and the end reserve covers no more than the room test. */
  predicate Harmless(c: Cfg)
    requires c.Usable()
  {
    var len := c.fmt.NthLen();
    && PadsNothing(c, len)
    && (c.toEnd ==> AlignUp(len, c.modulus) + c.EndReserve() <= len + c.MaxNdp() + c.modulus)
  }

  /** The length of an NTB without frames that is as good as new. */
  predicate LikeNew(c: Cfg, cap: nat, len: nat)
    requires c.Usable()
  {
    && len <= cap
    && (if c.toEnd then len == c.fmt.NthLen()
        else if Hopeless(c, cap, c.fmt.NthLen()) then Hopeless(c, cap, len)
        else AlignUp(len, c.ndpModulus) == AlignUp(c.fmt.NthLen(), c.ndpModulus))
  }

  lemma LikeNewTakes(c: Cfg, cap: nat, ntb: Ntb, delayed: seq<Byte>, pkt: Pkt)
    requires c.Valid() && Bare(c, ntb, delayed) && LikeNew(c, cap, |ntb.bytes|) && pkt.sig > 0
    ensures Takes(c, cap, ntb, delayed, pkt) <==> Threshold(c, c.fmt.NthLen()) + |pkt.data| <= cap
  {
    hide Takes, Bare, AlignUp;
    TakesExactly(c, cap, ntb, delayed, pkt);
  }

  lemma HarmlessEnd(c: Cfg)
    requires c.Usable() && c.toEnd && Harmless(c)
    ensures c.fmt.NthLen() % c.modulus == 0 && Padded(c, c.fmt.NthLen()) == c.fmt.NthLen()
    ensures Threshold(c, c.fmt.NthLen()) == c.fmt.NthLen() + c.MaxNdp() + c.modulus + c.remainder
  {
  }

  lemma RefusalLikeNew(c: Cfg, cap: nat, ntb: Ntb, delayed: seq<Byte>, refused: Pkt)
    requires c.Valid() && Harmless(c) && Bare(c, ntb, delayed) && LikeNew(c, cap, |ntb.bytes|)
    requires 0 < refused.sig < 0x1_0000_0000 && !Takes(c, cap, ntb, delayed, refused)
    ensures var kept := Prepare(c, cap, ntb, delayed, refused);
            Bare(c, kept.ntb, kept.delayed) && LikeNew(c, cap, |kept.ntb.bytes|)
  {
    hide Takes, Prepare, Bare, AlignUp;
    var len := |ntb.bytes|;
    TakesExactly(c, cap, ntb, delayed, refused);
    RefusalLeavesBare(c, cap, ntb, delayed, refused);
    if c.toEnd {
      HarmlessEnd(c);
    } else {
      FullBuffer(c, cap);
      PaddedGrows(c, len);
      if !Hopeless(c, cap, c.fmt.NthLen()) {
        PaddedLikeNew(c, len);
      }
    }
  }

  lemma PaddedLikeNew(c: Cfg, len: nat)
    requires c.Usable() && !c.toEnd && Harmless(c)
    requires AlignUp(len, c.ndpModulus) == AlignUp(c.fmt.NthLen(), c.ndpModulus)
    ensures Padded(c, len) == AlignUp(len, c.ndpModulus)
    ensures AlignUp(Padded(c, len), c.ndpModulus) == AlignUp(len, c.ndpModulus)
  {
    AlignUpAligned(len, c.ndpModulus);
  }

  /** An NTB without frames is as good as new, and no table waits for an NTB that does not exist. */
  ghost predicate FreshInv(c: Cfg, t: Tx)
    requires c.Usable()
  {
    && (t.curr.None? && c.toEnd ==> DelayedSig(t.delayed) == 0)
    && (t.curr.Some? && t.frameNum == 0 ==>
          Bare(c, t.curr.value, t.delayed) && LikeNew(c, t.currSize, |t.curr.value.bytes|))
  }

  /** What the loop starts from, when it starts without frames. */
  lemma ObtainFresh(c: Cfg, t: Tx, skb: Option<Pkt>, full: bool, small: bool)
    requires c.Valid() && SizeInv(c, t) && FreshInv(c, t)
    ensures var got := Obtain(c, t, skb, full, small);
            got.ntb.Some? && got.tx.frameNum == 0 ==>
              Bare(c, got.ntb.value, got.tx.delayed) && LikeNew(c, got.tx.currSize, |got.ntb.value.bytes|)
  {
    hide NewNtb, AlignUp, DelayedSig;
  }

  lemma ConcludeFresh(c: Cfg, t: Tx, l: Loop)
    requires c.Usable() && |l.delayed| == c.MaxNdp() && t.currSize >= |l.ntb.bytes|
    requires l.n == 0 ==> Bare(c, l.ntb, l.delayed) && LikeNew(c, t.currSize, |l.ntb.bytes|)
    ensures FreshInv(c, Conclude(c, t, l).tx)
  {
    hide Finish, AlignUp, DelayedSig;
    ZeroSig(|l.delayed|);
  }

  lemma LoopFresh(c: Cfg, cap: nat, l: Loop)
    requires c.Valid() && Sanitised(c) && Harmless(c) && LoopInv(c, l) && |l.ntb.bytes| <= cap
    requires l.n == 0 ==> Bare(c, l.ntb, l.delayed) && LikeNew(c, cap, |l.ntb.bytes|)
    requires NextSkb(l).Some? ==> ValidPkt(c, NextSkb(l).value)
    ensures var l' := FillLoop(c, cap, l);
            l'.n == 0 ==> Bare(c, l'.ntb, l'.delayed) && LikeNew(c, cap, |l'.ntb.bytes|)
  {
    hide FillLoop, Prepare, AlignUp, Bare, LikeNew, Fits;
    LoopDropsExactly(c, cap, l);
    if FirstRefused(c, cap, l) {
      RefusalLikeNew(c, cap, l.ntb, l.delayed, NextSkb(l).value);
    } else if l.n > 0 {
      LaterFramesStay(c, cap, l);
    }
  }

  lemma FillFresh(c: Cfg, t: Tx, skb: Option<Pkt>, full: bool, small: bool)
    requires c.Valid() && Sanitised(c) && Harmless(c) && TxInv(c, t) && LossInv(c, t) && FreshInv(c, t)
    requires skb.Some? ==> ValidPkt(c, skb.value)
    ensures FreshInv(c, FillTxFrame(c, t, skb, full, small).tx)
  {
    hide FillLoop, Conclude, NewNtb, Built, NonEmpty, Bare, LikeNew, Harmless, Reserved, DelayedHolds;
    var first := SwapSkb(t, skb);
    var got := Obtain(c, t, first, full, small);
    ObtainFresh(c, t, first, full, small);
    ObtainSize(c, t, first, full, small);
    if got.ntb.Some? {
      var l := LoopStart(got.tx, got.ntb.value, first, SwapRem(t, skb), skb.None?);
      FillLoopFits(c, got.tx.currSize, l);
      LoopFresh(c, got.tx.currSize, l);
      ConcludeFresh(c, got.tx, FillLoop(c, got.tx.currSize, l));
    }
  }

  lemma StepFresh(c: Cfg, s: Sys, op: Op)
    requires c.Valid() && Sanitised(c) && Harmless(c) && TxInv(c, s.tx) && LossInv(c, s.tx) && FreshInv(c, s.tx)
    requires ValidOp(c, op)
    ensures FreshInv(c, Step(c, s, op).tx)
  {
    hide FillTxFrame, PaddedTxMax, NewMinTxPkt, TxInv, Harmless, LikeNew;
    match op
    case Submit(sig, data, full, small) => FillFresh(c, s.tx, Some(NewPkt(s, sig, data)), full, small);
    case BhRuns(full, small) => FillFresh(c, s.tx, None, full, small);
    case UpdateTxMax(newTx, running, full, small) =>
      FillFresh(c, s.tx, None, full, small);
      FillLoss(c, s.tx, None, full, small);
      FillCounted(c, s.tx, None, full, small);
    case _ =>
  }

  lemma {:induction false} RunFresh(c: Cfg, newTx: nat, interval: nat, ops: seq<Op>)
    requires c.Valid() && Sanitised(c) && Harmless(c) && ValidOps(c, ops)
    ensures FreshInv(c, Run(c, newTx, interval, ops).tx)
  {
    hide Harmless;
    if ops == [] {
      ZeroSig(c.MaxNdp());
      hide PaddedTxMax, NewMinTxPkt, DelayedSig;
    } else {
      var before := ops[..|ops| - 1];
      RunFresh(c, newTx, interval, before);
      BlocksAlwaysSound(c, newTx, interval, before);
      OnlyTwoLossSites(c, newTx, interval, before);
      StepFresh(c, Run(c, newTx, interval, before), ops[|ops| - 1]);
    }
  }

  /** No new NTB in a buffer of this size takes the frame. */
  ghost predicate NeverFits(c: Cfg, cap: nat, pkt: Pkt)
    requires c.Usable()
  {
    forall seqno: nat :: !Takes(c, cap, NewNtb(c.fmt, seqno), Zeros(c.MaxNdp()), pkt)
  }

  /** That is a matter of the threshold alone. */
  lemma NeverFitsExactly(c: Cfg, cap: nat, pkt: Pkt)
    requires c.Valid() && pkt.sig > 0
    ensures NeverFits(c, cap, pkt) <==> Threshold(c, c.fmt.NthLen()) + |pkt.data| > cap
  {
    hide Takes, NewNtb, AlignUp;
    forall seqno: nat
      ensures Takes(c, cap, NewNtb(c.fmt, seqno), Zeros(c.MaxNdp()), pkt)
              <==> Threshold(c, c.fmt.NthLen()) + |pkt.data| <= cap
    {
      NewTakes(c, cap, seqno, pkt);
    }
    assert Takes(c, cap, NewNtb(c.fmt, 0), Zeros(c.MaxNdp()), pkt)
           <==> Threshold(c, c.fmt.NthLen()) + |pkt.data| <= cap;
  }

  lemma NewIsBare(c: Cfg, seqno: nat)
    ensures Bare(c, NewNtb(c.fmt, seqno), Zeros(c.MaxNdp()))
  {
    hide DelayedSig;
    ZeroSig(c.MaxNdp());
  }

  lemma NewTakes(c: Cfg, cap: nat, seqno: nat, pkt: Pkt)
    requires c.Valid() && pkt.sig > 0
    ensures Takes(c, cap, NewNtb(c.fmt, seqno), Zeros(c.MaxNdp()), pkt)
            <==> Threshold(c, c.fmt.NthLen()) + |pkt.data| <= cap
  {
    hide NewNtb, AlignUp, Prepare, Bare;
    if c.fmt.NthLen() <= cap {
      NewIsBare(c, seqno);
      TakesExactly(c, cap, NewNtb(c.fmt, seqno), Zeros(c.MaxNdp()), pkt);
    }
  }

  /**
   * With such parameters a drop for want of room means what it says: in every call of every run,
   * the frame would not fit a new NTB in a buffer of that size either.
   */
  lemma DropsAreHonest(c: Cfg, newTx: nat, interval: nat, ops: seq<Op>, skb: Option<Pkt>, full: bool, small: bool)
    requires c.Valid() && Sanitised(c) && Harmless(c) && ValidOps(c, ops) && (skb.Some? ==> ValidPkt(c, skb.value))
    ensures var t := Run(c, newTx, interval, ops).tx;
            forall d | d in FillTxFrame(c, t, skb, full, small).drops ::
              d.reason == NoRoom ==> NeverFits(c, BufferSize(c, t, skb, full, small), d.pkt)
  {
    hide Run;
    var t := Run(c, newTx, interval, ops).tx;
    RunFresh(c, newTx, interval, ops);
    BlocksAlwaysSound(c, newTx, interval, ops);
    OnlyTwoLossSites(c, newTx, interval, ops);
    CallIsHonest(c, t, skb, full, small);
  }

  lemma CallIsHonest(c: Cfg, t: Tx, skb: Option<Pkt>, full: bool, small: bool)
    requires c.Valid() && Sanitised(c) && TxInv(c, t) && LossInv(c, t) && FreshInv(c, t)
    requires skb.Some? ==> ValidPkt(c, skb.value)
    ensures forall d | d in FillTxFrame(c, t, skb, full, small).drops ::
              d.reason == NoRoom ==> NeverFits(c, BufferSize(c, t, skb, full, small), d.pkt)
  {
    hide FillTxFrame, Built, NonEmpty, Bare, LikeNew, Reserved, Takes, Threshold, DelayedHolds, NewNtb;
    CallDropsExactly(c, t, skb, full, small);
    var first := SwapSkb(t, skb);
    ObtainFresh(c, t, first, full, small);
    var entered := Entered(c, t, skb, full, small);
    if entered.Some? && FirstRefused(c, BufferSize(c, t, skb, full, small), entered.value) {
      var l := entered.value;
      LikeNewTakes(c, BufferSize(c, t, skb, full, small), l.ntb, l.delayed, NextSkb(l).value);
      NeverFitsExactly(c, BufferSize(c, t, skb, full, small), NextSkb(l).value);
    }
  }

  // ----- small buffers -----

  /**
   * In every run, what a small buffer is good for: the frame it is started for, the remaining one
   * or else the new one, is dropped if and only if it would be in a buffer of the smallest size.
   * The buffer may be as long as the frame, but then header and table do not fit.
   */
  lemma SmallBufferDrops(c: Cfg, newTx: nat, interval: nat, ops: seq<Op>, op: Op)
    requires c.Valid() && Sanitised(c) && ValidOps(c, ops) && ValidOp(c, op) && op.Submit?
    requires NcmBackoff.GetsSmall(c, Run(c, newTx, interval, ops), op)
    requires Run(c, newTx, interval, ops).tx.delayed == Zeros(c.MaxNdp())
    ensures var s := Run(c, newTx, interval, ops);
            var first := if s.tx.rem.Some? then s.tx.rem.value else NewPkt(s, op.sig, op.data);
            Step(c, s, op).drops
            == s.drops + (if Threshold(c, c.fmt.NthLen()) + |first.data| > c.minOut then [Drop(first, NoRoom)] else [])
  {
    hide Run;
    hide FillTxFrame;
    var s := Run(c, newTx, interval, ops);
    BlocksAlwaysSound(c, newTx, interval, ops);
    OnlyTwoLossSites(c, newTx, interval, ops);
    CallInSmall(c, s.tx, NewPkt(s, op.sig, op.data), op.full);
  }

  lemma CallInSmall(c: Cfg, t: Tx, pkt: Pkt, full: bool)
    requires c.Valid() && Sanitised(c) && TxInv(c, t) && LossInv(c, t) && pkt.sig > 0
    requires t.curr.None? && t.delayed == Zeros(c.MaxNdp()) && (t.lowVal != 0 || (!full && t.txMax != c.minOut))
    ensures var first := if t.rem.Some? then t.rem.value else pkt;
            FillTxFrame(c, t, Some(pkt), full, true).drops
            == (if Threshold(c, c.fmt.NthLen()) + |first.data| > c.minOut then [Drop(first, NoRoom)] else [])
  {
    hide Takes, FillTxFrame, Built, NonEmpty, NewNtb, Threshold;
    var first := if t.rem.Some? then t.rem.value else pkt;
    CallDropsExactly(c, t, Some(pkt), full, true);
    NewTakes(c, BufferSize(c, t, Some(pkt), full, true), t.seqno, first);
    ThresholdCounts(c, c.fmt.NthLen());
  }

  lemma ThresholdCounts(c: Cfg, len: nat)
    requires c.Usable()
    ensures Threshold(c, len) >= len
  {
    hide AlignUp;
  }

  // ----- a refusal that harms the next frame -----

  /** A context that holds nothing. */
  ghost predicate Idle(c: Cfg, t: Tx) {
    && t.curr.None? && t.rem.None? && t.lowVal == 0
    && t.delayed == Zeros(c.MaxNdp()) && c.fmt.NthLen() <= t.txMax
  }

  /** A context whose NTB without frames has refused one. */
  ghost predicate Refusing(c: Cfg, t: Tx, cap: nat, kept: Lookup) {
    && t.curr == Some(kept.ntb) && t.delayed == kept.delayed && t.currSize == cap
    && t.rem.None? && t.frameNum == 0 && kept.ntb.placed == []
  }

  lemma FirstIsRefused(c: Cfg, t: Tx, pkt: Pkt)
    requires c.Valid() && Sanitised(c) && Idle(c, t)
    requires !Takes(c, t.txMax, NewNtb(c.fmt, t.seqno), t.delayed, pkt)
    ensures var f := FillTxFrame(c, t, Some(pkt), true, true);
            && f.drops == [Drop(pkt, NoRoom)] && f.out.None?
            && Refusing(c, f.tx, t.txMax, Prepare(c, t.txMax, NewNtb(c.fmt, t.seqno), t.delayed, pkt))
  {
    hide FillLoop, Prepare, NewNtb, Finish, Fits;
    var l := LoopStart(t.(currSize := t.txMax, frameNum := 0), NewNtb(c.fmt, t.seqno), None, Some(pkt), false);
    LoopDropsExactly(c, t.txMax, l);
  }

  lemma NextIsRefused(c: Cfg, t: Tx, cap: nat, kept: Lookup, pkt: Pkt)
    requires c.Valid() && Sanitised(c) && Refusing(c, t, cap, kept)
    requires !Takes(c, cap, kept.ntb, kept.delayed, pkt)
    ensures FillTxFrame(c, t, Some(pkt), true, true).drops == [Drop(pkt, NoRoom)]
  {
    hide FillLoop, Prepare, Finish, Fits;
    var l := LoopStart(t, kept.ntb, None, Some(pkt), false);
    LoopDropsExactly(c, cap, l);
  }

  /** Two frames for an idle context: the second fits a new NTB, but not the one that refused the first. */
  lemma TwoFrames(c: Cfg, cap: nat, seqno: nat) returns (p: Pkt, q: Pkt)
    requires c.Valid() && !Harmless(c) && !Hopeless(c, cap, c.fmt.NthLen())
    ensures 0 < p.sig < 0x1_0000_0000 && 0 < q.sig < 0x1_0000_0000 && |p.data| <= cap && |q.data| <= cap
    ensures !Takes(c, cap, NewNtb(c.fmt, seqno), Zeros(c.MaxNdp()), p) && !NeverFits(c, cap, q)
    ensures var kept := Prepare(c, cap, NewNtb(c.fmt, seqno), Zeros(c.MaxNdp()), p);
            !Takes(c, cap, kept.ntb, kept.delayed, q)
  {
    hide Takes, Prepare, Bare, NewNtb;
    var ntb := NewNtb(c.fmt, seqno);
    var len := c.fmt.NthLen();
    NewIsBare(c, seqno);
    p := Pkt(0, 1, Zeros(cap - Threshold(c, len) + 1));
    TakesExactly(c, cap, ntb, Zeros(c.MaxNdp()), p);
    RefusedOpens(c, cap, p);
    q := RefusalShows(c, cap, ntb, Zeros(c.MaxNdp()), p);
    TakesExactly(c, cap, ntb, Zeros(c.MaxNdp()), q);
  }

  lemma RefusedOpens(c: Cfg, cap: nat, pkt: Pkt)
    requires c.Usable() && !Harmless(c) && !Hopeless(c, cap, c.fmt.NthLen())
    requires |pkt.data| == cap - Threshold(c, c.fmt.NthLen()) + 1
    ensures Opens(c, cap, c.fmt.NthLen(), pkt) || !PadsNothing(c, c.fmt.NthLen())
  {
    hide AlignUp;
  }

  lemma TakesSame(c: Cfg, cap: nat, ntb: Ntb, delayed: seq<Byte>, p: Pkt, q: Pkt)
    requires c.Usable() && p.sig == q.sig && p.data == q.data
    ensures Takes(c, cap, ntb, delayed, p) == Takes(c, cap, ntb, delayed, q)
    ensures Prepare(c, cap, ntb, delayed, p) == Prepare(c, cap, ntb, delayed, q)
  {
    hide GetNdp, AlignTail;
  }

  lemma FirstSubmit(c: Cfg, s: Sys, p: Pkt)
    requires c.Valid() && Sanitised(c) && Idle(c, s.tx)
    requires !Takes(c, s.tx.txMax, NewNtb(c.fmt, s.tx.seqno), s.tx.delayed, p)
    ensures var s' := Step(c, s, Submit(p.sig, p.data, true, true));
            && s'.drops == s.drops + [Drop(p.(id := |s.submitted|), NoRoom)]
            && |s'.submitted| == |s.submitted| + 1
            && Refusing(c, s'.tx, s.tx.txMax, Prepare(c, s.tx.txMax, NewNtb(c.fmt, s.tx.seqno), s.tx.delayed, p))
  {
    hide FillTxFrame, Takes, Prepare, NewNtb;
    var p' := NewPkt(s, p.sig, p.data);
    TakesSame(c, s.tx.txMax, NewNtb(c.fmt, s.tx.seqno), s.tx.delayed, p, p');
    FirstIsRefused(c, s.tx, p');
  }

  lemma SecondSubmit(c: Cfg, s: Sys, cap: nat, kept: Lookup, q: Pkt)
    requires c.Valid() && Sanitised(c) && Refusing(c, s.tx, cap, kept) && !Takes(c, cap, kept.ntb, kept.delayed, q)
    ensures Step(c, s, Submit(q.sig, q.data, true, true)).drops == s.drops + [Drop(q.(id := |s.submitted|), NoRoom)]
  {
    hide FillTxFrame, Takes, Prepare;
    var q' := NewPkt(s, q.sig, q.data);
    TakesSame(c, cap, kept.ntb, kept.delayed, q, q');
    NextIsRefused(c, s.tx, cap, kept, q');
  }

  lemma SubmitTwice(c: Cfg, s: Sys, p: Pkt, q: Pkt)
    requires c.Valid() && Sanitised(c) && Idle(c, s.tx)
    requires !Takes(c, s.tx.txMax, NewNtb(c.fmt, s.tx.seqno), s.tx.delayed, p)
    requires var kept := Prepare(c, s.tx.txMax, NewNtb(c.fmt, s.tx.seqno), s.tx.delayed, p);
             !Takes(c, s.tx.txMax, kept.ntb, kept.delayed, q)
    ensures var n := |s.submitted|;
            Step(c, Step(c, s, Submit(p.sig, p.data, true, true)), Submit(q.sig, q.data, true, true)).drops
            == s.drops + [Drop(p.(id := n), NoRoom), Drop(q.(id := n + 1), NoRoom)]
  {
    hide Step, Takes, Prepare, NewNtb, Refusing, Idle;
    var kept := Prepare(c, s.tx.txMax, NewNtb(c.fmt, s.tx.seqno), s.tx.delayed, p);
    FirstSubmit(c, s, p);
    SecondSubmit(c, Step(c, s, Submit(p.sig, p.data, true, true)), s.tx.txMax, kept, q);
  }

  /**
   * Otherwise, for every tx_max that can carry anything, there are two frames such that the
   * second is dropped although a new NTB of that size takes it.
   */
  lemma RefusalHarmsNext(c: Cfg, newTx: nat, interval: nat) returns (p: Pkt, q: Pkt)
    requires c.Valid() && Sanitised(c) && !Harmless(c)
    requires !Hopeless(c, PaddedTxMax(c, newTx), c.fmt.NthLen())
    ensures var ops := [Submit(p.sig, p.data, true, true), Submit(q.sig, q.data, true, true)];
            && ValidOps(c, ops)
            && Run(c, newTx, interval, ops).drops == [Drop(p, NoRoom), Drop(q, NoRoom)]
    ensures !NeverFits(c, PaddedTxMax(c, newTx), q)
  {
    hide Takes, Prepare, NewNtb, NeverFits, Hopeless, Harmless, PaddedTxMax, NewMinTxPkt, Step;
    TxMaxBounds(c, newTx);
    var s := Init(c, newTx, interval);
    var a, b := TwoFrames(c, PaddedTxMax(c, newTx), 0);
    p, q := a.(id := 0), b.(id := 1);
    SubmitTwice(c, s, a, b);
    RunTwice(c, newTx, interval, Submit(p.sig, p.data, true, true), Submit(q.sig, q.data, true, true));
    NeverFitsSame(c, PaddedTxMax(c, newTx), b, q);
  }

  lemma NeverFitsSame(c: Cfg, cap: nat, p: Pkt, q: Pkt)
    requires c.Usable() && p.sig == q.sig && p.data == q.data
    ensures NeverFits(c, cap, p) == NeverFits(c, cap, q)
  {
    hide Takes, NewNtb;
    forall seqno: nat
      ensures Takes(c, cap, NewNtb(c.fmt, seqno), Zeros(c.MaxNdp()), p)
              == Takes(c, cap, NewNtb(c.fmt, seqno), Zeros(c.MaxNdp()), q)
    {
      TakesSame(c, cap, NewNtb(c.fmt, seqno), Zeros(c.MaxNdp()), p, q);
    }
  }

  lemma RunTwice(c: Cfg, newTx: nat, interval: nat, a: Op, b: Op)
    requires c.Usable()
    ensures Run(c, newTx, interval, [a, b]) == Step(c, Step(c, Init(c, newTx, interval), a), b)
  {
    hide Step, Init;
    assert [a, b][..1] == [a] && [a][..0] == [];
    assert Run(c, newTx, interval, [a]) == Step(c, Run(c, newTx, interval, []), a);
  }

  // ----- exactly -----

  /** What a call drops for want of room would not fit a new NTB in a buffer of that size either. */
  ghost predicate Honest(c: Cfg, t: Tx, skb: Option<Pkt>, full: bool, small: bool)
    requires c.Usable()
  {
    forall d | d in FillTxFrame(c, t, skb, full, small).drops ::
      d.reason == NoRoom ==> NeverFits(c, BufferSize(c, t, skb, full, small), d.pkt)
  }

  /** Every call of every run with this tx_max is honest, tx_max updates included. */
  ghost predicate AlwaysHonest(c: Cfg, newTx: nat)
    requires c.Usable()
  {
    forall interval: nat, ops: seq<Op>, skb: Option<Pkt>, full: bool, small: bool
      | ValidOps(c, ops) && (skb.Some? ==> ValidPkt(c, skb.value)) ::
      Honest(c, Run(c, newTx, interval, ops).tx, skb, full, small)
  }

  lemma SomeoneIsHarmed(c: Cfg, newTx: nat) returns (ops: seq<Op>, q: Pkt)
    requires c.Valid() && Sanitised(c) && !Harmless(c)
    requires !Hopeless(c, PaddedTxMax(c, newTx), c.fmt.NthLen())
    ensures ValidOps(c, ops) && ValidPkt(c, q)
    ensures !Honest(c, Run(c, newTx, 0, ops).tx, Some(q), true, true)
  {
    hide Takes, Prepare, NewNtb, NeverFits, Hopeless, Harmless, PaddedTxMax, NewMinTxPkt, Step, FillTxFrame;
    TxMaxBounds(c, newTx);
    var s := Init(c, newTx, 0);
    var p;
    p, q := TwoFrames(c, PaddedTxMax(c, newTx), 0);
    ops := [Submit(p.sig, p.data, true, true)];
    assert ops[..0] == [] && Run(c, newTx, 0, []) == s;
    assert Run(c, newTx, 0, ops) == Step(c, s, ops[0]);
    var t := Run(c, newTx, 0, ops).tx;
    FirstSubmit(c, s, p);
    var kept := Prepare(c, s.tx.txMax, NewNtb(c.fmt, s.tx.seqno), s.tx.delayed, p);
    NextIsRefused(c, t, s.tx.txMax, kept, q);
    assert BufferSize(c, t, Some(q), true, true) == s.tx.txMax;
    assert Drop(q, NoRoom) in FillTxFrame(c, t, Some(q), true, true).drops;
  }

  /**
   * A drop for want of room always means that the frame does not fit a new NTB, if and only if
   * refusals change nothing; provided that tx_max can carry anything at all.
   */
  lemma HonestExactly(c: Cfg, newTx: nat)
    requires c.Valid() && Sanitised(c) && !Hopeless(c, PaddedTxMax(c, newTx), c.fmt.NthLen())
    ensures AlwaysHonest(c, newTx) <==> Harmless(c)
  {
    hide Run, Harmless, Hopeless, FillTxFrame, NeverFits, PaddedTxMax, BufferSize;
    if Harmless(c) {
      forall interval: nat, ops: seq<Op>, skb: Option<Pkt>, full: bool, small: bool
        | ValidOps(c, ops) && (skb.Some? ==> ValidPkt(c, skb.value))
        ensures Honest(c, Run(c, newTx, interval, ops).tx, skb, full, small)
      {
        DropsAreHonest(c, newTx, interval, ops, skb, full, small);
      }
    } else {
      var ops, q := SomeoneIsHarmed(c, newTx);
    }
  }
}
