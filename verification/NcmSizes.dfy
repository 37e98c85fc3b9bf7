/**
 * Sizes: nothing is written past the end of the buffer, a table that is moved to the end
 * always fits, and no transfer needs a zero-length packet to end it.
 */
module NcmSizes {
  import opened Bytes
  import opened Options
  import opened NcmFormat
  import opened NcmTx
  import opened NcmSystem
  import opened NcmFifo

  // ----- remainders -----

  lemma {:induction false} MultipleMod(m: nat, k: nat)
    requires m > 0
    ensures (m * k) % m == 0
  {
    if k > 0 {
      MultipleMod(m, k - 1);
      assert m * k == m * (k - 1) + m;
      ModStep(m * (k - 1), m);
    }
  }

  lemma MultipleGrows(m: nat, d: int)
    ensures d == 0 || m * d >= m || m * d <= -(m as int)
  {
    if d > 0 {
      assert m * (d - 1) >= 0;
    } else if d < 0 {
      assert m * (-d - 1) >= 0;
    }
  }

  lemma ModUnique(a: nat, m: nat, q: nat, r: nat)
    requires a == m * q + r && r < m
    ensures a % m == r
  {
    assert a == m * (a / m) + a % m;
    assert m * (q - a / m) == a % m - r;
    MultipleGrows(m, q - a / m);
  }

  lemma ModStep(a: nat, m: nat)
    requires m > 0
    ensures (a + m) % m == a % m
  {
    assert a == m * (a / m) + a % m;
    ModUnique(a + m, m, a / m + 1, a % m);
  }

  lemma AlignUpAligned(len: nat, m: nat)
    requires m > 0
    ensures AlignUp(len, m) % m == 0
  {
    if len % m != 0 {
      assert len == m * (len / m) + len % m;
      assert AlignUp(len, m) == m * (len / m + 1);
      MultipleMod(m, len / m + 1);
    }
  }

  lemma NextNotMultiple(len: nat, m: nat)
    requires m > 1 && len % m == 0
    ensures (len + 1) % m != 0
  {
    ModUnique(len + 1, m, len / m, 1);
  }

  // ----- the reserve for a table at the end -----

  /** Room for the delayed table and its alignment is kept free behind every accepted frame. */
  ghost predicate Reserved(c: Cfg, cap: nat, ntb: Ntb) {
    c.toEnd && ntb.placed != [] ==> |ntb.bytes| + c.EndReserve() <= cap
  }

  /** Room for the table alone; this survives the padding in front of a frame that was rejected. */
  ghost predicate Appendable(c: Cfg, cap: nat, ntb: Ntb) {
    c.toEnd && ntb.placed != [] ==> |ntb.bytes| + c.MaxNdp() <= cap
  }

  lemma PrepareGrowth(c: Cfg, cap: nat, ntb: Ntb, delayed: seq<Byte>, pkt: Pkt)
    requires c.Valid() && c.toEnd && ntb.ndps == []
    ensures var r := Prepare(c, cap, ntb, delayed, pkt);
            |r.ntb.bytes| <= |ntb.bytes| + c.modulus - 1 + c.remainder && r.ntb.ndps == []
  {
  }

  lemma IterateFits(c: Cfg, cap: nat, l: Loop, pkt: Pkt)
    requires c.Valid() && |l.ntb.placed| == l.n && |l.ntb.bytes| <= cap && Reserved(c, cap, l.ntb)
    requires c.toEnd ==> l.ntb.ndps == []
    ensures var (l', more) := Iterate(c, cap, l, pkt);
            && |l'.ntb.bytes| <= cap
            && |l'.delayed| == |l.delayed|
            && (c.toEnd ==> l'.ntb.ndps == [])
            && Appendable(c, cap, l'.ntb)
            && (more || !l'.ready ==> Reserved(c, cap, l'.ntb))
            && (l.ready ==> l'.ready)
  {
    hide Prepare;
    if c.toEnd {
      PrepareGrowth(c, cap, l.ntb, l.delayed, pkt);
    }
  }

  lemma IterateSteps(c: Cfg, cap: nat, l: Loop, pkt: Pkt)
    requires c.Valid() && |l.ntb.placed| == l.n
    ensures var (l', more) := Iterate(c, cap, l, pkt);
            more ==> |l'.ntb.placed| == l'.n == l.n + 1
  {
    hide Prepare, Fits, AddFrame;
  }

  lemma {:induction false} FillLoopFits(c: Cfg, cap: nat, l: Loop)
    requires c.Valid() && |l.ntb.placed| == l.n && |l.ntb.bytes| <= cap && Reserved(c, cap, l.ntb)
    requires c.toEnd ==> l.ntb.ndps == []
    ensures var l' := FillLoop(c, cap, l);
            && |l'.ntb.bytes| <= cap
            && |l'.delayed| == |l.delayed|
            && (c.toEnd ==> l'.ntb.ndps == [])
            && Appendable(c, cap, l'.ntb)
            && (!l'.ready ==> Reserved(c, cap, l'.ntb))
    decreases c.maxDatagrams - l.n
  {
    hide Iterate;
    if l.n < c.maxDatagrams && NextSkb(l).Some? {
      var pkt := NextSkb(l).value;
      var (l', more) := Iterate(c, cap, l, pkt);
      IterateFits(c, cap, l, pkt);
      IterateSteps(c, cap, l, pkt);
      if more {
        FillLoopFits(c, cap, l');
      }
    }
  }

  // ----- what is sent -----

  /** Where the table goes when it is moved to the end: aligned, unless the buffer ends first. */
  lemma EndNdpOffset(c: Cfg, cap: nat, ntb: Ntb, delayed: seq<Byte>)
    requires c.Valid() && |ntb.bytes| + c.MaxNdp() <= cap
    ensures var r := MoveNdp(c, cap, ntb, delayed);
            var off := r.ndps[0].off;
            && off + c.MaxNdp() <= cap
            && |r.bytes| == off + |delayed|
            && (off % c.ndpModulus == 0
                <==> AlignUp(|ntb.bytes|, c.ndpModulus) + c.MaxNdp() <= cap || (cap - c.MaxNdp()) % c.ndpModulus == 0)
    ensures Reserved(c, cap, ntb) && c.toEnd && ntb.placed != [] ==>
              MoveNdp(c, cap, ntb, delayed).ndps[0].off % c.ndpModulus == 0
  {
    AlignUpAligned(|ntb.bytes|, c.ndpModulus);
  }

  /** The length of a transfer is a multiple of the packet size only if a full buffer has that size. */
  lemma FinishSize(c: Cfg, cap: nat, minTxPkt: nat, ntb: Ntb, delayed: seq<Byte>)
    requires c.Valid() && |ntb.bytes| <= cap
    requires c.toEnd ==> |ntb.bytes| + c.MaxNdp() <= cap && |delayed| == c.MaxNdp()
    ensures var len := |Finish(c, cap, minTxPkt, ntb, delayed).bytes|;
            && |ntb.bytes| <= len <= cap
            && (c.maxPacket > 1 ==> (len % c.maxPacket == 0 <==> len == cap && cap % c.maxPacket == 0))
  {
    var moved := if c.toEnd then MoveNdp(c, cap, ntb, delayed) else ntb;
    if c.toEnd {
      EndNdpOffset(c, cap, ntb, delayed);
    }
    hide MoveNdp;
    var len := |moved.bytes|;
    if c.maxPacket > 1 && len % c.maxPacket == 0 {
      NextNotMultiple(len, c.maxPacket);
    }
  }

  // ----- runs -----

  ghost predicate SizeInv(c: Cfg, t: Tx) {
    && |t.delayed| == c.MaxNdp()
    && c.fmt.NthLen() <= t.txMax <= c.maxTx + 1
    && Counted(t)
    && (t.curr.Some? ==>
          && |t.curr.value.bytes| <= t.currSize
          && Reserved(c, t.currSize, t.curr.value)
          && (c.toEnd ==> t.curr.value.ndps == []))
  }

  ghost predicate BlockFits(c: Cfg, b: Block) {
    && |b.ntb.bytes| <= b.size
    && (c.maxPacket > 1 && |b.ntb.bytes| % c.maxPacket == 0 ==> |b.ntb.bytes| == b.size)
    && (c.toEnd ==> |b.ntb.ndps| == 1 && b.ntb.ndps[0].off + c.MaxNdp() <= b.size)
  }

  lemma ObtainSize(c: Cfg, t: Tx, skb: Option<Pkt>, full: bool, small: bool)
    requires c.Valid() && SizeInv(c, t)
    ensures var got := Obtain(c, t, skb, full, small);
            && (got.ntb.Some? ==>
                  && |got.ntb.value.bytes| <= got.tx.currSize
                  && Reserved(c, got.tx.currSize, got.ntb.value)
                  && (c.toEnd ==> got.ntb.value.ndps == [])
                  && |got.ntb.value.placed| == got.tx.frameNum)
            && got.tx.txMax == t.txMax && got.tx.delayed == t.delayed
            && got.tx.curr == t.curr
  {
    hide NewNtb;
  }

  lemma ConcludeSize(c: Cfg, t: Tx, l: Loop)
    requires c.Valid() && c.fmt.NthLen() <= t.txMax <= c.maxTx + 1
    requires |l.ntb.bytes| <= t.currSize && |l.delayed| == c.MaxNdp()
    requires c.toEnd ==> l.ntb.ndps == []
    requires Appendable(c, t.currSize, l.ntb)
    requires !l.ready ==> Reserved(c, t.currSize, l.ntb)
    requires |l.ntb.placed| == l.n || (l.ready && l.n >= c.dptMax && |l.ntb.placed| == l.n + 1)
    ensures var f := Conclude(c, t, l);
            SizeInv(c, f.tx) && (f.out.Some? ==> BlockFits(c, f.out.value))
  {
    hide Finish;
    if Conclude(c, t, l).out.Some? {
      FinishSize(c, t.currSize, t.minTxPkt, l.ntb, l.delayed);
      FinishNdps(c, t.currSize, t.minTxPkt, l.ntb, l.delayed);
    }
  }

  lemma FinishNdps(c: Cfg, cap: nat, minTxPkt: nat, ntb: Ntb, delayed: seq<Byte>)
    requires c.Valid() && (c.toEnd ==> |ntb.bytes| + c.MaxNdp() <= cap)
    ensures var r := Finish(c, cap, minTxPkt, ntb, delayed);
            && r.placed == ntb.placed
            && (c.toEnd ==> r.ndps == MoveNdp(c, cap, ntb, delayed).ndps && r.ndps[0].off + c.MaxNdp() <= cap)
            && (!c.toEnd ==> r.ndps == ntb.ndps)
  {
    if c.toEnd {
      EndNdpOffset(c, cap, ntb, delayed);
    }
  }

  lemma FillSize(c: Cfg, t: Tx, skb: Option<Pkt>, full: bool, small: bool)
    requires c.Valid() && SizeInv(c, t)
    ensures var f := FillTxFrame(c, t, skb, full, small);
            SizeInv(c, f.tx) && (f.out.Some? ==> BlockFits(c, f.out.value))
  {
    var first := SwapSkb(t, skb);
    var got := Obtain(c, t, first, full, small);
    ObtainSize(c, t, first, full, small);
    hide Obtain, FillLoop, Conclude;
    if got.ntb.Some? {
      var l := LoopStart(got.tx, got.ntb.value, first, SwapRem(t, skb), skb.None?);
      FillLoopFits(c, got.tx.currSize, l);
      FillLoopCounted(c, got.tx.currSize, l);
      ConcludeSize(c, got.tx, FillLoop(c, got.tx.currSize, l));
    }
  }

  lemma TxMaxBounds(c: Cfg, newTx: nat)
    requires c.Valid()
    ensures c.fmt.NthLen() <= PaddedTxMax(c, newTx) <= c.maxTx + 1
  {
  }

  /**
   * A sanitised tx_max respects the device's limit, has room for the largest datagram when the
   * limit allows it, and is one that the sysfs attribute would accept.
   */
  lemma TxMaxRange(c: Cfg, newTx: nat)
    requires c.Valid()
    ensures var r := CheckTxMax(c, newTx);
            var least := c.maxDatagramSize + c.MaxNdp() + c.fmt.NthLen();
            && r <= c.maxTx
            && (c.ntbOutMaxSize >= c.minOut ==> r <= c.ntbOutMaxSize)
            && (least <= c.maxTx && (c.ntbOutMaxSize == 0 || least <= c.ntbOutMaxSize) ==> least <= r)
            && CheckTxMax(c, r) == r
            && (least <= newTx <= c.maxTx && (c.ntbOutMaxSize == 0 || newTx <= c.ntbOutMaxSize) ==> r == newTx)
  {
  }

  ghost predicate BlocksFit(c: Cfg, blocks: seq<Block>) {
    forall b | b in blocks :: BlockFits(c, b)
  }

  lemma StepSize(c: Cfg, s: Sys, op: Op)
    requires c.Valid() && SizeInv(c, s.tx) && BlocksFit(c, s.blocks)
    ensures SizeInv(c, Step(c, s, op).tx) && BlocksFit(c, Step(c, s, op).blocks)
  {
    match op
    case Submit(sig, data, full, small) =>
      FillSize(c, s.tx, Some(NewPkt(s, sig, data)), full, small);
      hide FillTxFrame, BlockFits;
    case BhRuns(full, small) =>
      FillSize(c, s.tx, None, full, small);
      hide FillTxFrame, BlockFits;
    case UpdateTxMax(newTx, running, full, small) =>
      FillSize(c, s.tx, None, full, small);
      TxMaxBounds(c, newTx);
      hide FillTxFrame, BlockFits, PaddedTxMax, NewMinTxPkt;
    case _ =>
  }

  /**
   * Over every run, an NTB fits the buffer it was built in, so does the table that was moved to
   * its end, and its length is a multiple of the packet size only if it fills the buffer.
   */
  lemma {:induction false} BlocksFitAlways(c: Cfg, newTx: nat, interval: nat, ops: seq<Op>)
    requires c.Valid()
    ensures var s := Run(c, newTx, interval, ops);
            SizeInv(c, s.tx) && BlocksFit(c, s.blocks)
  {
    if ops == [] {
      TxMaxBounds(c, newTx);
    } else {
      BlocksFitAlways(c, newTx, interval, ops[..|ops| - 1]);
      StepSize(c, Run(c, newTx, interval, ops[..|ops| - 1]), ops[|ops| - 1]);
    }
  }

  // ----- full-size buffers -----

  /** A buffer size after which no zero-length packet is needed, and one that the device takes. */
  predicate GoodSize(c: Cfg, size: nat)
    requires c.Usable()
  {
    && (size % c.maxPacket != 0 || size == c.ntbOutMaxSize)
    && (c.minOut <= c.ntbOutMaxSize ==> size <= c.ntbOutMaxSize)
  }

  /** Every full-size allocation of the run succeeds. */
  predicate FullAlloc(op: Op) {
    match op
    case Submit(_, _, full, _) => full
    case BhRuns(full, _) => full
    case UpdateTxMax(_, _, full, _) => full
    case _ => true
  }

  ghost predicate GoodSizes(c: Cfg, s: Sys)
    requires c.Usable()
  {
    && s.tx.lowVal == 0
    && GoodSize(c, s.tx.txMax)
    && (s.tx.curr.Some? ==> GoodSize(c, s.tx.currSize))
    && (forall b | b in s.blocks :: GoodSize(c, b.size))
  }

  lemma PaddedIsGood(c: Cfg, newTx: nat)
    requires c.Valid() && c.maxPacket > 1
    ensures GoodSize(c, PaddedTxMax(c, newTx))
  {
    var val := CheckTxMax(c, newTx);
    if val % c.maxPacket == 0 {
      NextNotMultiple(val, c.maxPacket);
    }
  }

  lemma FillGood(c: Cfg, t: Tx, skb: Option<Pkt>, small: bool)
    requires c.Valid() && t.lowVal == 0 && GoodSize(c, t.txMax) && (t.curr.Some? ==> GoodSize(c, t.currSize))
    ensures var f := FillTxFrame(c, t, skb, true, small);
            && f.tx.lowVal == 0 && f.tx.txMax == t.txMax
            && (f.tx.curr.Some? ==> GoodSize(c, f.tx.currSize))
            && (f.out.Some? ==> GoodSize(c, f.out.value.size))
  {
    hide FillLoop, Finish, NewNtb;
  }

  lemma RecordGood(c: Cfg, s: Sys, f: Filled)
    requires c.Valid() && (forall b | b in s.blocks :: GoodSize(c, b.size))
    requires f.tx.lowVal == 0 && GoodSize(c, f.tx.txMax) && (f.tx.curr.Some? ==> GoodSize(c, f.tx.currSize))
    requires f.out.Some? ==> GoodSize(c, f.out.value.size)
    ensures GoodSizes(c, Record(s, f))
  {
    hide GoodSize;
  }

  lemma StepGood(c: Cfg, s: Sys, op: Op)
    requires c.Valid() && c.maxPacket > 1 && GoodSizes(c, s) && FullAlloc(op)
    ensures GoodSizes(c, Step(c, s, op))
  {
    hide FillTxFrame, GoodSize, PaddedTxMax, NewMinTxPkt, Record;
    match op
    case Submit(sig, data, full, small) =>
      var pkt := NewPkt(s, sig, data);
      FillGood(c, s.tx, Some(pkt), small);
      RecordGood(c, s.(submitted := s.submitted + [pkt]), FillTxFrame(c, s.tx, Some(pkt), full, small));
    case BhRuns(full, small) =>
      FillGood(c, s.tx, None, small);
      RecordGood(c, s.(bh := false), FillTxFrame(c, s.tx, None, full, small));
    case UpdateTxMax(newTx, running, full, small) =>
      FillGood(c, s.tx, None, small);
      RecordGood(c, s, FillTxFrame(c, s.tx, None, full, small));
      PaddedIsGood(c, newTx);
    case _ =>
  }

  lemma {:induction false} RunGood(c: Cfg, newTx: nat, interval: nat, ops: seq<Op>)
    requires c.Valid() && c.maxPacket > 1 && (forall op | op in ops :: FullAlloc(op))
    ensures GoodSizes(c, Run(c, newTx, interval, ops))
  {
    if ops == [] {
      PaddedIsGood(c, newTx);
    } else {
      var last := ops[|ops| - 1];
      assert last in ops;
      RunGood(c, newTx, interval, ops[..|ops| - 1]);
      StepGood(c, Run(c, newTx, interval, ops[..|ops| - 1]), last);
    }
  }

  /**
   * Transfer termination: while full-size buffers can be had, and across any number of tx_max
   * updates, no transfer is a multiple of the packet size, except one of exactly dwNtbOutMaxSize,
   * and none is longer than that, if it is a size the driver can do with.
   */
  lemma TransferTermination(c: Cfg, newTx: nat, interval: nat, ops: seq<Op>, b: Block)
    requires c.Valid() && c.maxPacket > 1 && (forall op | op in ops :: FullAlloc(op))
    requires b in Run(c, newTx, interval, ops).blocks
    ensures |b.ntb.bytes| <= b.size
    ensures |b.ntb.bytes| % c.maxPacket != 0 || |b.ntb.bytes| == c.ntbOutMaxSize
    ensures c.minOut <= c.ntbOutMaxSize ==> |b.ntb.bytes| <= c.ntbOutMaxSize
  {
    BlocksFitAlways(c, newTx, interval, ops);
    RunGood(c, newTx, interval, ops);
  }
}
