/**
 * How much padding an NTB gets: three USB packets at most, as the driver intends, unless its
 * buffer is too large for min_tx_pkt, which is clamped in 16 bits and changes with tx_max while
 * NTBs keep their buffers.
 */
module NcmPadding {
  import opened Bytes
  import opened Options
  import opened NcmFormat
  import opened NcmTx
  import opened NcmSystem
  import opened NcmFifo
  import opened NcmLoss
  import opened NcmBackoff
  import opened NcmSizes
  import opened NcmRefusal
  import opened NcmFirst

  // ----- the blocks of a run -----

  /** The frame that a step submits. */
  function Skb(s: Sys, op: Op): Option<Pkt> {
    if op.Submit? then Some(NewPkt(s, op.sig, op.data)) else None
  }

  /** The NTB that the call of a step fills, before the padding. */
  function Contents(c: Cfg, size: nat, l: Loop): nat
    requires c.Usable()
  {
    var l' := FillLoop(c, size, l);
    if c.toEnd then |MoveNdp(c, size, l'.ntb, l'.delayed).bytes| else |l'.ntb.bytes|
  }

  /** The length of what the call of a step puts together; 0 if there is none. */
  function ContentsOf(c: Cfg, s: Sys, op: Op): nat
    requires c.Usable()
  {
    var call := CallOf(c, s, op);
    if call.None? then 0
    else
      var entered := Entered(c, s.tx, Skb(s, op), call.value.full, call.value.small);
      if entered.None? then 0
      else Contents(c, BufferSize(c, s.tx, Skb(s, op), call.value.full, call.value.small), entered.value)
  }

  /** The size of the buffer that the call of a step works in. */
  function SizeOf(c: Cfg, s: Sys, op: Op): nat
    requires c.Usable()
  {
    var call := CallOf(c, s, op);
    if call.None? then 0 else BufferSize(c, s.tx, Skb(s, op), call.value.full, call.value.small)
  }

  /** If a step sends a block, at most three packets of it are behind its contents. */
  predicate PadsLittle(c: Cfg, s: Sys, op: Op)
    requires c.Usable()
  {
    var blocks := Step(c, s, op).blocks;
    |blocks| > |s.blocks| ==> |blocks[|s.blocks|].ntb.bytes| <= ContentsOf(c, s, op) + 3 * c.maxPacket
  }

  /** What a call sends is its contents and the padding. */
  lemma CallPads(c: Cfg, t: Tx, skb: Option<Pkt>, full: bool, small: bool)
    requires c.Usable() && Entered(c, t, skb, full, small).Some?
    ensures var size := BufferSize(c, t, skb, full, small);
            var out := FillTxFrame(c, t, skb, full, small).out;
            var len := Contents(c, size, Entered(c, t, skb, full, small).value);
            out.Some? ==> out.value.size == size && |out.value.ntb.bytes| == len + TailPad(c, size, t.minTxPkt, len)
  {
    hide NewNtb, FillLoop, MoveNdp, TailPad;
  }

  lemma RecordSends(s: Sys, f: Filled)
    ensures |Record(s, f).blocks| > |s.blocks| <==> f.out.Some?
    ensures f.out.Some? ==> Record(s, f).blocks[|s.blocks|] == f.out.value
  {
  }

  /** The block that a step sends is the contents of its call and the padding. */
  lemma StepPads(c: Cfg, s: Sys, op: Op)
    requires c.Usable()
    ensures var blocks := Step(c, s, op).blocks;
            var len := ContentsOf(c, s, op);
            |blocks| > |s.blocks| ==>
              && CallOf(c, s, op).Some?
              && blocks[|s.blocks|].size == SizeOf(c, s, op)
              && |blocks[|s.blocks|].ntb.bytes| == len + TailPad(c, SizeOf(c, s, op), s.tx.minTxPkt, len)
  {
    hide FillTxFrame, PaddedTxMax, NewMinTxPkt, Entered, BufferSize, Contents, TailPad, Record;
    var call := CallOf(c, s, op);
    if call.Some? {
      var f := FillTxFrame(c, s.tx, Skb(s, op), call.value.full, call.value.small);
      RecordSends(s, f);
      RecordSends(s.(bh := false), f);
      if op.Submit? {
        RecordSends(s.(submitted := s.submitted + [NewPkt(s, op.sig, op.data)]), f);
      }
      NoBufferNoBlock(c, s.tx, Skb(s, op), call.value.full, call.value.small);
      if Entered(c, s.tx, Skb(s, op), call.value.full, call.value.small).Some? {
        CallPads(c, s.tx, Skb(s, op), call.value.full, call.value.small);
      }
    }
  }

  lemma NoBufferNoBlock(c: Cfg, t: Tx, skb: Option<Pkt>, full: bool, small: bool)
    requires c.Usable()
    ensures Entered(c, t, skb, full, small).None? ==> FillTxFrame(c, t, skb, full, small).out.None?
  {
    hide NewNtb, FillLoop, Conclude;
  }

  /** A call leaves the limits alone. */
  lemma FillLimits(c: Cfg, t: Tx, skb: Option<Pkt>, full: bool, small: bool)
    requires c.Usable()
    ensures var t' := FillTxFrame(c, t, skb, full, small).tx;
            t'.txMax == t.txMax && t'.minTxPkt == t.minTxPkt && t'.interval == t.interval
  {
    hide NewNtb, FillLoop, Finish;
  }

  lemma StepLimits(c: Cfg, s: Sys, op: Op)
    requires c.Usable() && s.tx.minTxPkt == NewMinTxPkt(c, s.tx.txMax) && !op.SetMinTxPkt?
    ensures Step(c, s, op).tx.minTxPkt == NewMinTxPkt(c, Step(c, s, op).tx.txMax)
  {
    hide FillTxFrame, PaddedTxMax, NewMinTxPkt;
    match op
    case Submit(sig, data, full, small) => FillLimits(c, s.tx, Some(NewPkt(s, sig, data)), full, small);
    case BhRuns(full, small) => FillLimits(c, s.tx, None, full, small);
    case _ =>
  }

  lemma {:induction false} RunLimits(c: Cfg, newTx: nat, interval: nat, ops: seq<Op>)
    requires c.Usable() && forall i | 0 <= i < |ops| :: !ops[i].SetMinTxPkt?
    ensures var t := Run(c, newTx, interval, ops).tx;
            t.minTxPkt == NewMinTxPkt(c, t.txMax)
  {
    hide Step, NewMinTxPkt, PaddedTxMax;
    if ops != [] {
      RunLimits(c, newTx, interval, ops[..|ops| - 1]);
      StepLimits(c, Run(c, newTx, interval, ops[..|ops| - 1]), ops[|ops| - 1]);
    }
  }

  // ----- contents that are padded -----

  /** The length of an NTB of `len` bytes with the table at its end, if it goes there. */
  function Moved(c: Cfg, size: nat, len: nat): nat
    requires c.Usable()
  {
    if c.toEnd then len + AlignPad(len, c.ndpModulus, 0, size - c.MaxNdp()) + c.MaxNdp() else len
  }

  lemma ContentsMoved(c: Cfg, size: nat, l: Loop)
    requires c.Usable() && |FillLoop(c, size, l).delayed| == c.MaxNdp()
    ensures Contents(c, size, l) == Moved(c, size, |FillLoop(c, size, l).ntb.bytes|)
  {
    hide FillLoop, AlignPad;
  }

  /** The shortest NTB before its table is moved whose contents exceed `limit`. */
  function ShortestOver(c: Cfg, limit: nat): nat
    requires c.Usable()
  {
    var behind := if c.toEnd then c.MaxNdp() else 0;
    Max(FirstAt(c, c.fmt.NthLen()), if limit + 1 < behind then 0 else limit + 1 - behind)
  }

  /** The least contents of an NTB with frames that exceed `limit`. */
  function LeastOver(c: Cfg, limit: nat): (r: nat)
    requires c.Usable()
    ensures r > limit
  {
    if c.toEnd then AlignUp(ShortestOver(c, limit), c.ndpModulus) + c.MaxNdp() else ShortestOver(c, limit)
  }

  lemma MovedOver(c: Cfg, size: nat, limit: nat, len: nat)
    requires c.Valid() && len >= Min(FirstAt(c, c.fmt.NthLen()), size) && len <= size
    requires c.toEnd ==> len + c.MaxNdp() <= size
    ensures Moved(c, size, len) > limit ==> Moved(c, size, len) >= Min(LeastOver(c, limit), size)
  {
    hide FirstAt;
    if c.toEnd {
      AlignUpAligned(len, c.ndpModulus);
      if AlignUp(len, c.ndpModulus) >= ShortestOver(c, limit) {
        AlignUpMonotone(ShortestOver(c, limit), AlignUp(len, c.ndpModulus), c.ndpModulus);
      }
      hide AlignUp;
    }
  }

  /** The contents of an NTB that a call sends are padded only from the least ones on. */
  lemma CallOver(c: Cfg, t: Tx, skb: Option<Pkt>, full: bool, small: bool, limit: nat)
    requires c.Valid() && SizeInv(c, t) && FloorInv(c, t) && FillTxFrame(c, t, skb, full, small).out.Some?
    ensures var size := BufferSize(c, t, skb, full, small);
            && Entered(c, t, skb, full, small).Some?
            && var len := Contents(c, size, Entered(c, t, skb, full, small).value);
               len > limit ==> len >= Min(LeastOver(c, limit), size)
  {
    hide FillTxFrame, Obtain, FillLoop, Contents, FirstAt;
    hide Moved, LeastOver;
    NoBufferNoBlock(c, t, skb, full, small);
    FillFloor(c, t, skb, full, small);
    ObtainSize(c, t, SwapSkb(t, skb), full, small);
    var size := BufferSize(c, t, skb, full, small);
    var l := Entered(c, t, skb, full, small).value;
    SentHasFrames(c, t, skb, full, small);
    FillLoopFloor(c, size, l);
    FillLoopFits(c, size, l);
    ContentsMoved(c, size, l);
    MovedOver(c, size, limit, |FillLoop(c, size, l).ntb.bytes|);
  }

  lemma SentHasFrames(c: Cfg, t: Tx, skb: Option<Pkt>, full: bool, small: bool)
    requires c.Valid() && Counted(t) && Entered(c, t, skb, full, small).Some?
    requires FillTxFrame(c, t, skb, full, small).out.Some?
    ensures FillLoop(c, BufferSize(c, t, skb, full, small), Entered(c, t, skb, full, small).value).ntb.placed != []
  {
    hide FillLoop, Finish, NewNtb;
    FillLoopCounted(c, BufferSize(c, t, skb, full, small), Entered(c, t, skb, full, small).value);
  }

  /** A buffer of `size` is not too large for the limit that goes with `txMax`. */
  predicate PadsFew(c: Cfg, size: nat, txMax: nat)
    requires c.Usable()
  {
    c.sendZlp || size <= LeastOver(c, NewMinTxPkt(c, txMax)) + 3 * c.maxPacket
  }

  lemma PadFew(c: Cfg, size: nat, limit: nat, len: nat)
    requires c.Usable() && (len > limit ==> len >= Min(LeastOver(c, limit), size))
    requires c.sendZlp || size <= LeastOver(c, limit) + 3 * c.maxPacket
    ensures TailPad(c, size, limit, len) <= 3 * c.maxPacket
  {
    hide LeastOver;
  }

  lemma NoCallNoBlock(c: Cfg, s: Sys, op: Op)
    requires c.Usable() && CallOf(c, s, op).None?
    ensures Step(c, s, op).blocks == s.blocks
  {
    hide FillTxFrame, PaddedTxMax, NewMinTxPkt;
  }

  lemma StepOver(c: Cfg, s: Sys, op: Op)
    requires c.Valid() && SizeInv(c, s.tx) && FloorInv(c, s.tx) && |Step(c, s, op).blocks| > |s.blocks|
    ensures var len := ContentsOf(c, s, op);
            len > s.tx.minTxPkt ==> len >= Min(LeastOver(c, s.tx.minTxPkt), SizeOf(c, s, op))
  {
    hide FillTxFrame, PaddedTxMax, NewMinTxPkt, Entered, BufferSize, Contents, LeastOver, Record, SizeInv, FloorInv;
    var call := CallOf(c, s, op);
    if call.None? {
      NoCallNoBlock(c, s, op);
    } else {
      var f := FillTxFrame(c, s.tx, Skb(s, op), call.value.full, call.value.small);
      RecordSends(s, f);
      RecordSends(s.(bh := false), f);
      if op.Submit? {
        RecordSends(s.(submitted := s.submitted + [NewPkt(s, op.sig, op.data)]), f);
      }
      CallOver(c, s.tx, Skb(s, op), call.value.full, call.value.small, s.tx.minTxPkt);
    }
  }

  ghost predicate NoSetMin(ops: seq<Op>) {
    forall i | 0 <= i < |ops| :: !ops[i].SetMinTxPkt?
  }

  /**
   * In every run in which min_tx_pkt is not set by hand, updates of tx_max and small buffers
   * included, a block has at most three packets of padding if its buffer is not too large for
   * the tx_max of the moment.
   */
  lemma BlocksPadLittle(c: Cfg, newTx: nat, interval: nat, ops: seq<Op>, op: Op)
    requires c.Valid() && NoSetMin(ops)
    requires var s := Run(c, newTx, interval, ops);
             PadsFew(c, SizeOf(c, s, op), s.tx.txMax)
    ensures PadsLittle(c, Run(c, newTx, interval, ops), op)
  {
    hide Run, Step, SizeOf, ContentsOf, TailPad, NewMinTxPkt, LeastOver, SizeInv, FloorInv;
    var s := Run(c, newTx, interval, ops);
    RunLimits(c, newTx, interval, ops);
    RunFloor(c, newTx, interval, ops);
    BlocksFitAlways(c, newTx, interval, ops);
    StepPads(c, s, op);
    var blocks := Step(c, s, op).blocks;
    if |blocks| > |s.blocks| {
      StepOver(c, s, op);
      PadFew(c, SizeOf(c, s, op), s.tx.minTxPkt, ContentsOf(c, s, op));
    }
  }

  // ----- a buffer that is too large -----

  /** Alignment takes no more than three packets. */
  predicate FineAlignment(c: Cfg) {
    c.modulus + c.remainder <= 3 * c.maxPacket + 1 && c.ndpModulus <= 3 * c.maxPacket + 1
  }

  /** The length of the frame that makes an NTB just long enough to be padded. */
  function ShortLength(c: Cfg, limit: nat): nat
    requires c.Usable()
  {
    ShortestOver(c, limit) - FirstAt(c, c.fmt.NthLen())
  }

  lemma ShortFits(c: Cfg, size: nat, limit: nat)
    requires c.Valid() && FineAlignment(c) && size > LeastOver(c, limit) + 3 * c.maxPacket
    ensures Threshold(c, c.fmt.NthLen()) + ShortLength(c, limit) <= size
  {
    hide AlignUp;
  }

  lemma ShortIsPadded(c: Cfg, size: nat, limit: nat)
    requires c.Valid() && !c.sendZlp && size > LeastOver(c, limit) + 3 * c.maxPacket
    ensures var len := Moved(c, size, FirstAt(c, c.fmt.NthLen()) + ShortLength(c, limit));
            len == LeastOver(c, limit) && TailPad(c, size, limit, len) > 3 * c.maxPacket
  {
    hide AlignUp, FirstAt;
  }

  /** A run of one step: the frame goes out at once, in a full-size or a small buffer. */
  lemma ShortFrameAlone(c: Cfg, newTx: nat, full: bool, size: nat)
    requires c.Valid() && Sanitised(c) && FineAlignment(c) && !PadsFew(c, size, PaddedTxMax(c, newTx))
    requires if full then size == PaddedTxMax(c, newTx) else size == c.minOut && PaddedTxMax(c, newTx) != c.minOut
    ensures var s := Run(c, newTx, 0, []);
            var op := Submit(1, Zeros(ShortLength(c, s.tx.minTxPkt)), full, true);
            && s.tx.txMax == PaddedTxMax(c, newTx) && SizeOf(c, s, op) == size
            && ValidOp(c, op) && !PadsLittle(c, s, op)
  {
    hide FillLoop, Contents, NewMinTxPkt, PaddedTxMax, FillTxFrame, LeastOver, Moved, TailPad, Threshold, ShortLength;
    hide Step, FirstAt, Entered, BufferSize;
    TxMaxBounds(c, newTx);
    var s := Run(c, newTx, 0, []);
    var limit := s.tx.minTxPkt;
    var op := Submit(1, Zeros(ShortLength(c, limit)), full, true);
    var pkt := NewPkt(s, op.sig, op.data);
    ShortFits(c, size, limit);
    ShortIsPadded(c, size, limit);
    InitStarts(c, newTx, 0, full, size);
    FirstCall(c, s.tx, pkt, full, size);
    FirstLoop(c, s.tx, pkt, full, size);
    EnteredDelayed(c, s.tx, Some(pkt), full, true);
    ContentsMoved(c, size, Entered(c, s.tx, Some(pkt), full, true).value);
    SubmitSends(c, s, op);
    StepPads(c, s, op);
  }

  lemma SubmitSends(c: Cfg, s: Sys, op: Op)
    requires c.Usable() && op.Submit?
    requires FillTxFrame(c, s.tx, Some(NewPkt(s, op.sig, op.data)), op.full, op.small).out.Some?
    ensures |Step(c, s, op).blocks| == |s.blocks| + 1
  {
    hide FillTxFrame;
  }

  lemma EnteredDelayed(c: Cfg, t: Tx, skb: Option<Pkt>, full: bool, small: bool)
    requires c.Valid() && SizeInv(c, t) && Entered(c, t, skb, full, small).Some?
    ensures var size := BufferSize(c, t, skb, full, small);
            |FillLoop(c, size, Entered(c, t, skb, full, small).value).delayed| == c.MaxNdp()
  {
    hide FillLoop, Obtain;
    ObtainSize(c, t, SwapSkb(t, skb), full, small);
    FillLoopFits(c, BufferSize(c, t, skb, full, small), Entered(c, t, skb, full, small).value);
  }

  /** A flush of an NTB with one frame, when the tasklet has nothing to count down. */
  lemma WaitingIsSent(c: Cfg, s: Sys, size: nat, len: nat)
    requires c.Valid() && Sanitised(c) && Waits(c, s.tx, size, len) && |s.tx.delayed| == c.MaxNdp()
    requires s.bh && s.tx.pending == 0
    ensures var op := BhRuns(true, true);
            && |Step(c, s, op).blocks| == |s.blocks| + 1
            && SizeOf(c, s, op) == size && ContentsOf(c, s, op) == Moved(c, size, len)
  {
    var l := Entered(c, s.tx, None, true, true).value;
    assert l == LoopStart(s.tx, s.tx.curr.value, None, None, true);
    assert FillLoop(c, size, l) == l;
    ContentsMoved(c, size, l);
    hide FillLoop, Finish, Moved, Contents;
  }

  /** tx_max changes while an NTB waits, coalescing is switched off, and the timer expires. */
  function Lowering(c: Cfg, sig: nat, data: seq<Byte>, newTx: nat, running: bool): seq<Op> {
    [Submit(sig, data, true, true), UpdateTxMax(newTx, running, true, true), SetInterval(0), TimerFires]
  }

  lemma FourSteps(c: Cfg, newTx: nat, interval: nat, a: Op, b: Op, d: Op, e: Op)
    requires c.Usable()
    ensures Run(c, newTx, interval, [a, b, d, e])
            == Step(c, Step(c, Step(c, Step(c, Init(c, newTx, interval), a), b), d), e)
  {
    hide Step, Init;
    RunTwice(c, newTx, interval, a, b);
    assert [a, b, d][..2] == [a, b] && [a, b, d, e][..3] == [a, b, d];
    assert Run(c, newTx, interval, [a, b, d]) == Step(c, Run(c, newTx, interval, [a, b]), d);
  }

  /** The frame waits with the timer running. */
  lemma FirstWaits(c: Cfg, s: Sys, data: seq<Byte>, size: nat)
    requires c.Valid() && Sanitised(c) && StartsIn(c, s.tx, true, size) && c.maxDatagrams > 1 && s.tx.interval > 0
    requires Threshold(c, c.fmt.NthLen()) + |data| <= size
    ensures var s' := Step(c, s, Submit(1, data, true, true));
            && Waits(c, s'.tx, size, FirstAt(c, c.fmt.NthLen()) + |data|)
            && s'.timer && s'.tx.txMax == s.tx.txMax && s'.blocks == s.blocks
  {
    hide FillTxFrame, FirstAt, Threshold;
    FirstCall(c, s.tx, NewPkt(s, 1, data), true, size);
  }

  /** The rest of that run leaves the NTB and its buffer alone. */
  lemma ThenLowered(c: Cfg, s: Sys, newTx: nat, running: bool)
    requires c.Usable() && s.timer && (running ==> PaddedTxMax(c, newTx) <= s.tx.txMax)
    ensures var s' := Step(c, Step(c, Step(c, s, UpdateTxMax(newTx, running, true, true)), SetInterval(0)), TimerFires);
            && s'.tx == s.tx.(txMax := PaddedTxMax(c, newTx), minTxPkt := NewMinTxPkt(c, PaddedTxMax(c, newTx)),
                              interval := 0, pending := 0)
            && s'.bh && s'.blocks == s.blocks
  {
    hide FillTxFrame, PaddedTxMax, NewMinTxPkt;
  }

  /**
   * A run in which tx_max is changed while an NTB waits: the NTB keeps its buffer and is padded
   * to the whole of it, by the limit that goes with the new tx_max. When tx_max gets smaller this
   * happens on a running device.
   */
  lemma LoweredLimit(c: Cfg, newTx: nat, later: nat)
    requires c.Valid() && Sanitised(c) && FineAlignment(c) && c.maxDatagrams > 1
    requires !PadsFew(c, PaddedTxMax(c, newTx), PaddedTxMax(c, later))
    ensures var size := PaddedTxMax(c, newTx);
            var txMax := PaddedTxMax(c, later);
            var ops := Lowering(c, 1, Zeros(ShortLength(c, NewMinTxPkt(c, txMax))), later, txMax <= size);
            var s := Run(c, newTx, 1, ops);
            && ValidOps(c, ops) && ValidOp(c, BhRuns(true, true)) && NoSetMin(ops)
            && s.tx.txMax == txMax && SizeOf(c, s, BhRuns(true, true)) == size
            && !PadsLittle(c, s, BhRuns(true, true))
  {
    hide NewMinTxPkt, PaddedTxMax, LeastOver, Moved, TailPad, Threshold, ShortLength, Step, FirstAt, Contents, SizeOf;
    hide ContentsOf;
    hide Run;
    TxMaxBounds(c, newTx);
    var size := PaddedTxMax(c, newTx);
    var limit := NewMinTxPkt(c, PaddedTxMax(c, later));
    var data := Zeros(ShortLength(c, limit));
    var running := PaddedTxMax(c, later) <= size;
    var ops := Lowering(c, 1, data, later, running);
    ShortFits(c, size, limit);
    ShortIsPadded(c, size, limit);
    FourSteps(c, newTx, 1, ops[0], ops[1], ops[2], ops[3]);
    var s1 := Step(c, Init(c, newTx, 1), ops[0]);
    InitStarts(c, newTx, 1, true, size);
    FirstWaits(c, Init(c, newTx, 1), data, size);
    ThenLowered(c, s1, later, running);
    var s := Run(c, newTx, 1, ops);
    BlocksFitAlways(c, newTx, 1, ops);
    WaitingIsSent(c, s, size, FirstAt(c, c.fmt.NthLen()) + |data|);
    StepPads(c, s, BhRuns(true, true));
  }

  // ----- exactly -----

  /**
   * Every block that is sent from a buffer of `size` while tx_max is `txMax`, in every run in
   * which min_tx_pkt is not set by hand, has at most three packets of padding.
   */
  ghost predicate NeverMoreThanThree(c: Cfg, size: nat, txMax: nat)
    requires c.Usable()
  {
    forall newTx: nat, interval: nat, ops: seq<Op>, op: Op
      | && NoSetMin(ops) && ValidOps(c, ops) && ValidOp(c, op)
        && Run(c, newTx, interval, ops).tx.txMax == txMax
        && SizeOf(c, Run(c, newTx, interval, ops), op) == size ::
      PadsLittle(c, Run(c, newTx, interval, ops), op)
  }

  /**
   * The promise holds for a buffer and a tx_max if and only if zero-length packets are sent
   * anyway, or the buffer exceeds the least contents that are padded by at most three packets.
   * The buffer is full-size, small, or from before tx_max was changed.
   */
  lemma ThreePacketsExactly(c: Cfg, newTx: nat, later: nat, size: nat)
    requires c.Valid() && Sanitised(c) && FineAlignment(c)
    requires || size == PaddedTxMax(c, later) || size == c.minOut
             || (size == PaddedTxMax(c, newTx) && c.maxDatagrams > 1)
    ensures NeverMoreThanThree(c, size, PaddedTxMax(c, later)) <==> PadsFew(c, size, PaddedTxMax(c, later))
  {
    hide PadsLittle, Run, PaddedTxMax, NewMinTxPkt, SizeOf, PadsFew, Lowering, FineAlignment, ShortLength;
    var txMax := PaddedTxMax(c, later);
    if PadsFew(c, size, txMax) {
      forall newTx: nat, interval: nat, ops: seq<Op>, op: Op
        | && NoSetMin(ops) && ValidOps(c, ops) && ValidOp(c, op)
          && Run(c, newTx, interval, ops).tx.txMax == txMax
          && SizeOf(c, Run(c, newTx, interval, ops), op) == size
        ensures PadsLittle(c, Run(c, newTx, interval, ops), op)
      {
        BlocksPadLittle(c, newTx, interval, ops, op);
      }
    } else if size == txMax {
      ShortFrameAlone(c, later, true, size);
    } else if size == c.minOut {
      ShortFrameAlone(c, later, false, size);
    } else {
      LoweredLimit(c, newTx, later);
    }
  }

  /** Header, table, alignment and three packets leave 2^16 bytes with room for an Ethernet header. */
  predicate Roomy(c: Cfg)
    requires c.Usable()
  {
    Threshold(c, c.fmt.NthLen()) + c.ndpModulus + 3 * c.maxPacket + ETH_HLEN < 0x1_0000
  }

  /** A buffer as large as tx_max is not too large if and only if tx_max fits the 16 bits of the clamp. */
  lemma OwnBufferExactly(c: Cfg, txMax: nat)
    requires c.Valid() && Roomy(c)
    ensures PadsFew(c, txMax, txMax) <==> c.sendZlp || txMax < 0x1_0000
  {
    if txMax < 0x1_0000 {
      assert 3 * c.maxPacket < 0x1_0000;
      LimitIsHigh(c, txMax);
      hide LeastOver, NewMinTxPkt;
    } else {
      var limit := NewMinTxPkt(c, txMax);
      assert limit <= txMax % 0x1_0000 <= txMax - 0x1_0000;
      LeastIsNear(c, limit);
      hide LeastOver, NewMinTxPkt;
    }
  }

  lemma LeastIsNear(c: Cfg, limit: nat)
    requires c.Valid()
    ensures LeastOver(c, limit) <= limit + 1 + Threshold(c, c.fmt.NthLen()) + c.ndpModulus
  {
    hide AlignUp;
  }

  /** In 16 bits the limit is at most three packets below tx_max, however small tx_max is. */
  lemma LimitIsHigh(c: Cfg, txMax: nat)
    requires c.Usable() && 3 * c.maxPacket < 0x1_0000 && txMax < 0x1_0000
    ensures txMax - 3 * c.maxPacket <= NewMinTxPkt(c, txMax) <= txMax
  {
    if txMax < 3 * c.maxPacket {
      assert (txMax - 3 * c.maxPacket) % 0x1_0000 == txMax - 3 * c.maxPacket + 0x1_0000;
    }
  }

  /**
   * What min_tx_pkt is for a tx_max below 2^16: three packets less, but not below
   * CDC_NCM_MIN_TX_PKT, nor above tx_max; where three packets exceed tx_max, the difference wraps.
   */
  predicate RightLimit(c: Cfg, txMax: nat, limit: nat) {
    if txMax >= 3 * c.maxPacket + c.minTxPktFloor then limit + 3 * c.maxPacket == txMax
    else if txMax >= 3 * c.maxPacket then limit == Min(c.minTxPktFloor, txMax)
    else 3 * c.maxPacket <= 0x1_0000 ==> limit == txMax
  }

  lemma LimitIsRight(c: Cfg, txMax: nat)
    requires txMax < 0x1_0000 && c.minTxPktFloor < 0x1_0000
    ensures RightLimit(c, txMax, NewMinTxPkt(c, txMax))
  {
  }

  /** Every update sets it, and it stays until the next update or until it is set by hand. */
  lemma LimitValue(c: Cfg, newTx: nat, interval: nat, ops: seq<Op>)
    requires c.Usable() && NoSetMin(ops) && c.minTxPktFloor < 0x1_0000
    ensures var t := Run(c, newTx, interval, ops).tx;
            t.txMax < 0x1_0000 ==> RightLimit(c, t.txMax, t.minTxPkt)
    ensures forall s: Sys, later: nat, running: bool, full: bool, small: bool ::
              var t := Step(c, s, UpdateTxMax(later, running, full, small)).tx;
              t.txMax < 0x1_0000 ==> RightLimit(c, t.txMax, t.minTxPkt)
  {
    hide NewMinTxPkt, PaddedTxMax, FillTxFrame, Run, RightLimit;
    RunLimits(c, newTx, interval, ops);
    var t := Run(c, newTx, interval, ops).tx;
    if t.txMax < 0x1_0000 {
      LimitIsRight(c, t.txMax);
    }
    forall s: Sys, later: nat, running: bool, full: bool, small: bool
      ensures var t := Step(c, s, UpdateTxMax(later, running, full, small)).tx;
              t.txMax < 0x1_0000 ==> RightLimit(c, t.txMax, t.minTxPkt)
    {
      var val := PaddedTxMax(c, later);
      assert Step(c, s, UpdateTxMax(later, running, full, small)).tx.txMax == val;
      if val < 0x1_0000 {
        LimitIsRight(c, val);
      }
    }
  }

  /**
   * A reader of the condition may take the limit plus one for the least contents: that is what
   * they are when the table is not moved and the limit covers header, table and alignment.
   */
  lemma LeastIsLimit(c: Cfg, limit: nat)
    requires c.Usable() && !c.toEnd && FirstAt(c, c.fmt.NthLen()) <= limit + 1
    ensures LeastOver(c, limit) == limit + 1
  {
  }

  // ----- the limits of a run -----

  /** What the driver was told last. */
  datatype Limits = Limits(txMax: nat, minTxPkt: nat, interval: nat)

  function LastLimits(c: Cfg, newTx: nat, interval: nat, ops: seq<Op>): Limits
    requires c.Usable()
  {
    if ops == [] then Limits(PaddedTxMax(c, newTx), NewMinTxPkt(c, PaddedTxMax(c, newTx)), interval)
    else
      var before := LastLimits(c, newTx, interval, ops[..|ops| - 1]);
      match ops[|ops| - 1]
      case UpdateTxMax(newer, _, _, _) =>
        before.(txMax := PaddedTxMax(c, newer), minTxPkt := NewMinTxPkt(c, PaddedTxMax(c, newer)))
      case SetMinTxPkt(size) => before.(minTxPkt := size)
      case SetInterval(newer) => before.(interval := newer)
      case _ => before
  }

  /** In every run the limits are those set last; an update of tx_max replaces a min_tx_pkt set by hand. */
  lemma {:induction false} LimitsAreLast(c: Cfg, newTx: nat, interval: nat, ops: seq<Op>)
    requires c.Usable()
    ensures var t := Run(c, newTx, interval, ops).tx;
            Limits(t.txMax, t.minTxPkt, t.interval) == LastLimits(c, newTx, interval, ops)
  {
    hide FillTxFrame, PaddedTxMax, NewMinTxPkt;
    if ops != [] {
      LimitsAreLast(c, newTx, interval, ops[..|ops| - 1]);
      var s := Run(c, newTx, interval, ops[..|ops| - 1]);
      match ops[|ops| - 1]
      case Submit(sig, data, full, small) => FillLimits(c, s.tx, Some(NewPkt(s, sig, data)), full, small);
      case BhRuns(full, small) => FillLimits(c, s.tx, None, full, small);
      case UpdateTxMax(_, _, full, small) => FillLimits(c, s.tx, None, full, small);
      case _ =>
    }
  }
}
