/**
 * Alignment: every frame starts at the offset modulo tx_modulus that the device asked for, and
 * every inline table at a multiple of tx_ndp_modulus.
 */
module NcmAlign {
  import opened Bytes
  import opened Options
  import opened NcmFormat
  import opened NcmTx
  import opened NcmSystem
  import opened NcmSizes

  lemma ModAdd(a: nat, r: nat, m: nat)
    requires m > 0 && a % m == 0
    ensures (a + r) % m == r % m
  {
    assert a == m * (a / m);
    assert r == m * (r / m) + r % m;
    assert a + r == m * (a / m + r / m) + r % m;
    ModUnique(a + r, m, a / m + r / m, r % m);
  }

  /** Padding that is not cut short by the end of the buffer aligns. */
  lemma PadAligns(len: nat, modulus: nat, remainder: nat, max: nat)
    requires modulus > 0 && len <= max
    ensures var to := len + AlignPad(len, modulus, remainder, max);
            to < max ==> to % modulus == remainder % modulus
  {
    AlignUpAligned(len, modulus);
    ModAdd(AlignUp(len, modulus), remainder, modulus);
  }

  ghost predicate FramesAligned(c: Cfg, placed: seq<Entry>)
    requires c.Usable()
  {
    forall k | 0 <= k < |placed| :: placed[k].off % c.modulus == c.remainder % c.modulus
  }

  ghost predicate TablesAligned(c: Cfg, ndps: seq<NdpRef>)
    requires c.Usable()
  {
    !c.toEnd ==> forall j | 0 <= j < |ndps| :: ndps[j].off % c.ndpModulus == 0
  }

  /** A new table starts where the padding ends, with room for the table and the frame behind it. */
  lemma NewTableWhere(c: Cfg, cap: nat, ntb: Ntb, delayed: seq<Byte>, sig: nat, reserve: nat)
    requires c.Valid() && !c.toEnd
    ensures var ndps := GetNdp(c, cap, ntb, delayed, sig, reserve).ntb.ndps;
            var to := |ntb.bytes| + AlignPad(|ntb.bytes|, c.ndpModulus, 0, cap);
            ndps == ntb.ndps || (ndps == ntb.ndps + [NdpRef(to, sig)] && to + reserve + c.MaxNdp() <= cap)
  {
    hide OpenNdp, Patch, LinkAt, AlignPad, FindNdp;
  }

  lemma TablesAlignedAppend(c: Cfg, ndps: seq<NdpRef>, ndp: NdpRef)
    requires c.Usable() && TablesAligned(c, ndps) && ndp.off % c.ndpModulus == 0
    ensures TablesAligned(c, ndps + [ndp])
  {
  }

  lemma PadAlignsTable(c: Cfg, len: nat, cap: nat)
    requires c.Usable() && len <= cap
    ensures var to := len + AlignPad(len, c.ndpModulus, 0, cap);
            to < cap ==> to % c.ndpModulus == 0
  {
    hide AlignUp;
    AlignUpAligned(len, c.ndpModulus);
  }

  lemma NewTableAligned(c: Cfg, cap: nat, ntb: Ntb, delayed: seq<Byte>, sig: nat, reserve: nat)
    requires c.Valid() && TablesAligned(c, ntb.ndps) && |ntb.bytes| <= cap && !c.toEnd && reserve > 0
    ensures TablesAligned(c, GetNdp(c, cap, ntb, delayed, sig, reserve).ntb.ndps)
  {
    hide GetNdp, AlignPad, TablesAligned;
    var to := |ntb.bytes| + AlignPad(|ntb.bytes|, c.ndpModulus, 0, cap);
    NewTableWhere(c, cap, ntb, delayed, sig, reserve);
    PadAlignsTable(c, |ntb.bytes|, cap);
    if GetNdp(c, cap, ntb, delayed, sig, reserve).ntb.ndps != ntb.ndps {
      TablesAlignedAppend(c, ntb.ndps, NdpRef(to, sig));
    }
  }

  ghost predicate NtbAligned(c: Cfg, ntb: Ntb)
    requires c.Usable()
  {
    FramesAligned(c, ntb.placed) && TablesAligned(c, ntb.ndps)
  }

  lemma FrameAligned(c: Cfg, cap: nat, ntb: Ntb, delayed: seq<Byte>, pkt: Pkt)
    requires c.Valid() && |ntb.bytes| <= cap && pkt.data != []
    ensures var look := Prepare(c, cap, ntb, delayed, pkt);
            Fits(c, cap, look, pkt) ==> |look.ntb.bytes| % c.modulus == c.remainder % c.modulus
  {
    hide GetNdp, AlignPad;
    var look := GetNdp(c, cap, ntb, delayed, pkt.sig, |pkt.data| + c.modulus + c.remainder);
    var len := |look.ntb.bytes|;
    PadAligns(len, c.modulus, c.remainder, cap);
    assert |Prepare(c, cap, ntb, delayed, pkt).ntb.bytes| == len + AlignPad(len, c.modulus, c.remainder, cap);
    hide Prepare;
  }

  lemma PrepareAligned(c: Cfg, cap: nat, ntb: Ntb, delayed: seq<Byte>, pkt: Pkt)
    requires c.Valid() && NtbAligned(c, ntb) && |ntb.bytes| <= cap
    ensures NtbAligned(c, Prepare(c, cap, ntb, delayed, pkt).ntb)
  {
    hide GetNdp, AlignTail;
    if !c.toEnd {
      NewTableAligned(c, cap, ntb, delayed, pkt.sig, |pkt.data| + c.modulus + c.remainder);
    }
  }

  lemma IterateAligned(c: Cfg, cap: nat, l: Loop, pkt: Pkt)
    requires c.Valid() && NtbAligned(c, l.ntb) && |l.ntb.bytes| <= cap && pkt.data != []
    ensures var l' := Iterate(c, cap, l, pkt).0;
            NtbAligned(c, l'.ntb) && |l'.ntb.bytes| <= cap
  {
    hide Prepare, TablesAligned, AddFrame;
    FrameAligned(c, cap, l.ntb, l.delayed, pkt);
    PrepareAligned(c, cap, l.ntb, l.delayed, pkt);
  }

  ghost predicate NonEmptyFrames(l: Loop) {
    && (l.skb.Some? ==> l.skb.value.data != [])
    && (l.rem.Some? ==> l.rem.value.data != [])
  }

  lemma IterateFrames(c: Cfg, cap: nat, l: Loop, pkt: Pkt)
    requires c.Usable() && NonEmptyFrames(l) && NextSkb(l) == Some(pkt)
    ensures var (l', more) := Iterate(c, cap, l, pkt);
            && NonEmptyFrames(l')
            && (more ==> l'.n == l.n + 1)
  {
    hide Prepare, Fits, AddFrame;
  }

  lemma {:induction false} FillLoopAligned(c: Cfg, cap: nat, l: Loop)
    requires c.Valid() && NtbAligned(c, l.ntb) && |l.ntb.bytes| <= cap && NonEmptyFrames(l)
    ensures var l' := FillLoop(c, cap, l);
            NtbAligned(c, l'.ntb) && NonEmptyFrames(l')
    decreases c.maxDatagrams - l.n
  {
    hide Iterate, NtbAligned;
    if l.n < c.maxDatagrams && NextSkb(l).Some? {
      var pkt := NextSkb(l).value;
      IterateAligned(c, cap, l, pkt);
      IterateFrames(c, cap, l, pkt);
      var (l', more) := Iterate(c, cap, l, pkt);
      if more {
        FillLoopAligned(c, cap, l');
      }
    }
  }

  ghost predicate AlignInv(c: Cfg, t: Tx)
    requires c.Usable()
  {
    && (t.curr.Some? ==> NtbAligned(c, t.curr.value))
    && (t.rem.Some? ==> t.rem.value.data != [])
  }

  lemma ConcludeAligned(c: Cfg, t: Tx, l: Loop)
    requires c.Valid() && NtbAligned(c, l.ntb) && (l.rem.Some? ==> l.rem.value.data != [])
    ensures var f := Conclude(c, t, l);
            AlignInv(c, f.tx) && (f.out.Some? ==> NtbAligned(c, f.out.value.ntb))
  {
    hide TailPad, FramesAligned;
  }

  lemma FillAligned(c: Cfg, t: Tx, skb: Option<Pkt>, full: bool, small: bool)
    requires c.Valid() && SizeInv(c, t) && AlignInv(c, t) && (skb.Some? ==> skb.value.data != [])
    ensures var f := FillTxFrame(c, t, skb, full, small);
            AlignInv(c, f.tx) && (f.out.Some? ==> NtbAligned(c, f.out.value.ntb))
  {
    hide NewNtb, FillLoop, Conclude;
    var first := SwapSkb(t, skb);
    var got := Obtain(c, t, first, full, small);
    ObtainSize(c, t, first, full, small);
    if got.ntb.Some? {
      var l := LoopStart(got.tx, got.ntb.value, first, SwapRem(t, skb), skb.None?);
      FillLoopAligned(c, got.tx.currSize, l);
      ConcludeAligned(c, got.tx, FillLoop(c, got.tx.currSize, l));
    }
  }

  ghost predicate BlocksAligned(c: Cfg, blocks: seq<Block>)
    requires c.Usable()
  {
    forall b | b in blocks :: NtbAligned(c, b.ntb)
  }

  lemma RecordAligned(c: Cfg, s: Sys, f: Filled)
    requires c.Usable() && BlocksAligned(c, s.blocks) && (f.out.Some? ==> NtbAligned(c, f.out.value.ntb))
    ensures BlocksAligned(c, Record(s, f).blocks)
  {
    hide NtbAligned;
  }

  lemma StepAligned(c: Cfg, s: Sys, op: Op)
    requires c.Valid() && SizeInv(c, s.tx) && AlignInv(c, s.tx) && BlocksAligned(c, s.blocks)
    requires op.Submit? ==> op.data != []
    ensures AlignInv(c, Step(c, s, op).tx) && BlocksAligned(c, Step(c, s, op).blocks)
  {
    hide FillTxFrame, PaddedTxMax, NewMinTxPkt, NtbAligned, BlocksAligned, SizeInv;
    match op
    case Submit(sig, data, full, small) =>
      var pkt := NewPkt(s, sig, data);
      FillAligned(c, s.tx, Some(pkt), full, small);
      RecordAligned(c, s.(submitted := s.submitted + [pkt]), FillTxFrame(c, s.tx, Some(pkt), full, small));
    case BhRuns(full, small) =>
      FillAligned(c, s.tx, None, full, small);
      RecordAligned(c, s.(bh := false), FillTxFrame(c, s.tx, None, full, small));
    case UpdateTxMax(newTx, running, full, small) =>
      FillAligned(c, s.tx, None, full, small);
      RecordAligned(c, s, FillTxFrame(c, s.tx, None, full, small));
    case _ =>
  }

  /** Over every run of non-empty frames, all frames and inline tables that are sent are aligned. */
  lemma {:induction false} AlwaysAligned(c: Cfg, newTx: nat, interval: nat, ops: seq<Op>)
    requires c.Valid() && (forall i | 0 <= i < |ops| :: ops[i].Submit? ==> ops[i].data != [])
    ensures var s := Run(c, newTx, interval, ops);
            AlignInv(c, s.tx) && BlocksAligned(c, s.blocks)
  {
    if ops == [] {
      hide PaddedTxMax, NewMinTxPkt;
    } else {
      AlwaysAligned(c, newTx, interval, ops[..|ops| - 1]);
      BlocksFitAlways(c, newTx, interval, ops[..|ops| - 1]);
      StepAligned(c, Run(c, newTx, interval, ops[..|ops| - 1]), ops[|ops| - 1]);
    }
  }
}
