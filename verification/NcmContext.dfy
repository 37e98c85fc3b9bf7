/**
 * The driver's transmit context: fields that change from call to call and buffers that are
 * filled in place. Every entry point is proved to be a step of NcmSystem.
 */
module NcmContext {
  import opened Bytes
  import opened Options
  import opened NcmFormat
  import opened NcmTx
  import opened NcmSystem
  import opened NcmFifo
  import opened NcmLayout
  import opened NcmEncode
  import opened NcmSizes
  import opened NcmBlocks
  import opened NcmBuffer
  import opened NcmWriter

  class Context {
    const c: Cfg
    const delayed: Buffer      // delayed_ndp16 or delayed_ndp32
    var curr: Buffer?          // tx_curr_skb
    var rem: Option<Pkt>       // tx_rem_skb and tx_rem_sign
    var currSize: nat          // tx_curr_size
    var frameNum: nat          // tx_curr_frame_num
    var seqno: nat             // tx_seq
    var lowVal: nat            // tx_low_mem_val
    var lowMax: nat            // tx_low_mem_max_cnt
    var pending: nat           // tx_timer_pending
    var txMax: nat             // tx_max
    var minTxPkt: nat          // min_tx_pkt
    var interval: nat          // timer_interval
    var timer: bool            // hrtimer_active
    var bh: bool               // the tasklet is scheduled
    var dropped: nat           // stats.tx_dropped
    var count: nat             // numbers the frames
    ghost var sys: Sys         // the run so far

    ghost function Buffers(): set<object>
      reads `curr
    {
      {delayed, delayed.data} + (if curr == null then {} else {curr, curr.data})
    }

    ghost function Repr(): set<object>
      reads `curr
    {
      {this} + Buffers()
    }

    /** The fields that are plain values. */
    ghost predicate Fields(t: Tx)
      reads `rem, `currSize, `frameNum, `seqno, `lowVal, `lowMax, `pending, `txMax, `minTxPkt, `interval
    {
      && rem == t.rem && currSize == t.currSize && frameNum == t.frameNum && seqno == t.seqno
      && lowVal == t.lowVal && lowMax == t.lowMax && pending == t.pending
      && txMax == t.txMax && minTxPkt == t.minTxPkt && interval == t.interval
    }

    /** The context represents the transmit state `t`. */
    ghost predicate Rep(t: Tx)
      reads `curr, Buffers()
      reads `rem, `currSize, `frameNum, `seqno, `lowVal, `lowMax, `pending, `txMax, `minTxPkt, `interval
    {
      && Fields(t)
      && delayed.Valid() && delayed.len == c.MaxNdp() && delayed.Contents() == t.delayed
      && (curr == null <==> t.curr.None?)
      && (curr != null ==> curr.data.Length == currSize && Holds(curr, delayed, t.curr.value, t.delayed))
    }

    ghost predicate Valid()
      reads Repr()
    {
      && c.Valid()
      && Rep(sys.tx)
      && TxInv(c, sys.tx)
      && timer == sys.timer && bh == sys.bh
      && dropped == |sys.drops| && count == |sys.submitted|
    }

    /** The buffer holds the NTB, and the context has let go of it. */
    ghost predicate HandedOver(out: Buffer?, block: Option<Block>)
      reads `curr, out, if out == null then {} else {out.data}
    {
      && (out == null <==> block.None?)
      && (out != null ==>
            && out.Valid() && out !in Repr() && out.data !in Repr()
            && out.Contents() == block.value.ntb.bytes
            && out.data.Length == block.value.size)
    }

    constructor (c: Cfg, newTx: nat, interval: nat)
      requires c.Valid()
      ensures Valid() && fresh(Repr())
      ensures this.c == c && sys == Init(c, newTx, interval)
    {
      this.c := c;
      delayed := new Buffer(c.MaxNdp());
      curr, rem := null, None;
      currSize, frameNum, seqno, lowVal, lowMax, pending := 0, 0, 0, 0, 0, 0;
      txMax := PaddedTxMax(c, newTx);
      minTxPkt := NewMinTxPkt(c, PaddedTxMax(c, newTx));
      this.interval := interval;
      timer, bh, dropped, count := false, false, 0, 0;
      sys := Init(c, newTx, interval);
      new;
      hide Buffer.Contents, PaddedTxMax, NewMinTxPkt, DelayedHolds;
      delayed.PutZero(c.MaxNdp());
      assert delayed.Contents() == Zeros(c.MaxNdp());
      BlocksAlwaysSound(c, newTx, interval, []);
    }

    /** A full-size buffer, or a small one while memory is short. */
    method Allocate(skb: Option<Pkt>, full: bool, small: bool, ghost t: Tx) returns (buf: Buffer?)
      requires Fields(t) && t.curr.None?
      modifies `currSize, `lowVal, `lowMax
      ensures var got := NcmTx.Obtain(c, t, skb, full, small);
              && (buf == null <==> got.ntb.None?)
              && currSize == got.tx.currSize && lowVal == got.tx.lowVal && lowMax == got.tx.lowMax
      ensures buf != null ==>
                && fresh(buf) && fresh(buf.data) && buf.Valid() && buf.len == 0
                && buf.data.Length == currSize
    {
      hide NewNtb;
      buf := null;
      if lowVal == 0 {
        currSize := txMax;
        if full {
          buf := new Buffer(currSize);
        } else {
          if currSize == c.minOut {
            return;
          }
          lowMax := Min(lowMax + 1, LOW_MEM_MAX_CNT);
          lowVal := lowMax;
        }
      }
      if buf == null {
        currSize := if skb.Some? then Max(|skb.value.data|, c.minOut) else c.minOut;
        if !small {
          return;
        }
        buf := new Buffer(currSize);
        lowVal := lowVal - 1;
      }
    }

    /** Resumes the NTB in progress or allocates one. */
    method Obtain(skb: Option<Pkt>, full: bool, small: bool, ghost t: Tx) returns (buf: Buffer?)
      requires c.Valid() && Rep(t) && c.fmt.NthLen() <= txMax
      modifies `currSize, `frameNum, `seqno, `lowVal, `lowMax
      ensures var got := NcmTx.Obtain(c, t, skb, full, small);
              && Rep(got.tx) && Fields(got.tx) && delayed.Valid() && delayed.len == c.MaxNdp()
              && (buf == null <==> got.ntb.None?)
              && (buf != null ==> buf.data.Length == currSize && Holds(buf, delayed, got.ntb.value, got.tx.delayed))
      ensures buf != null ==> buf == curr || (curr == null && fresh(buf) && fresh(buf.data))
    {
      hide Buffer.Contents, NewNtb;
      buf := curr;
      if buf != null {
        return;
      }
      buf := Allocate(skb, full, small, t);
      if buf != null {
        FillHeader(c.fmt, buf, seqno);
        seqno := (seqno + 1) % 0x1_0000;
        frameNum := 0;
      }
    }

    /** The variables of the loop, the fields it works on and the buffers represent `l`. */
    ghost predicate LoopRep(buf: Buffer, l: Loop, skb: Option<Pkt>, n: nat, ready: bool, before: nat)
      reads this, buf, buf.data, delayed, delayed.data
    {
      && buf.data.Length == currSize && c.fmt.Addressable(currSize)
      && delayed.Valid() && delayed.len == c.MaxNdp()
      && Holds(buf, delayed, l.ntb, l.delayed)
      && skb == l.skb && rem == l.rem && n == l.n && ready == l.ready && dropped == before + |l.drops|
    }

    /** The loop that puts frames into the NTB. */
    method Fill(buf: Buffer, first: Option<Pkt>, sendNow: bool, ghost l0: Loop)
      returns (n: nat, skb: Option<Pkt>, ready: bool, ghost l: Loop)
      requires c.Valid() && LoopRep(buf, l0, first, frameNum, sendNow, dropped)
      requires LoopBuilt(c, currSize, l0) && |l0.ntb.placed| == l0.n
      modifies `rem, `dropped, buf, buf.data, delayed.data
      ensures l == FillLoop(c, currSize, l0)
      ensures LoopRep(buf, l, skb, n, ready, old(dropped))
    {
      hide LoopBuilt, Iterate, Holds;
      n, skb, ready, l := frameNum, first, sendNow, l0;
      while n < c.maxDatagrams
        invariant LoopRep(buf, l, skb, n, ready, old(dropped))
        invariant LoopBuilt(c, currSize, l) && |l.ntb.placed| == l.n
        invariant FillLoop(c, currSize, l) == FillLoop(c, currSize, l0)
        decreases c.maxDatagrams - n
      {
        if skb.None? {
          skb, rem := rem, None;
          if skb.None? {
            break;
          }
        }
        ghost var pkt := skb.value;
        ghost var next := Iterate(c, currSize, l, pkt);
        IterateBuilt(c, currSize, l, pkt);
        IterateCounts(c, currSize, l, pkt);
        var more;
        n, skb, ready, more := OneFrame(buf, skb.value, n, ready, l, old(dropped));
        l := next.0;
        if !more {
          break;
        }
      }
    }

    /** One iteration for `pkt`, which was taken from the caller or from the remaining frame. */
    method OneFrame(buf: Buffer, pkt: Pkt, n: nat, ready: bool, ghost l: Loop, ghost before: nat)
      returns (n': nat, skb: Option<Pkt>, ready': bool, more: bool)
      requires c.Valid() && NextSkb(l) == Some(pkt) && n < c.maxDatagrams
      requires LoopRep(buf, l.(skb := Some(pkt), rem := NextRem(l)), Some(pkt), n, ready, before)
      requires LoopBuilt(c, currSize, l) && |l.ntb.placed| == l.n
      modifies `rem, `dropped, buf, buf.data, delayed.data
      ensures more == Iterate(c, currSize, l, pkt).1
      ensures LoopRep(buf, Iterate(c, currSize, l, pkt).0, skb, n', ready', before)
    {
      hide Built, Prepare, Fits, AddFrame, Buffer.Contents, Sub, ValidPkt;
      n', skb, ready' := n, None, ready;
      var fits, k := TryFrame(c, currSize, buf, delayed, pkt, l.ntb);
      if !fits {
        more := false;
        if n == 0 {
          dropped := dropped + 1;
        } else {
          if rem.Some? {
            dropped := dropped + 1;
          }
          rem := Some(pkt);
          ready' := true;
        }
      } else if k >= c.dptMax {
        more := false;
        ready' := true;
      } else {
        more := true;
        n' := n + 1;
      }
    }

    // ----- after the loop -----

    /** The loop that starts from `l0` leaves an NTB to which the delayed table can be appended. */
    static lemma LoopLeaves(c: Cfg, cap: nat, l0: Loop)
      requires c.Valid() && LoopBuilt(c, cap, l0) && |l0.ntb.placed| == l0.n <= c.maxDatagrams
      requires Reserved(c, cap, l0.ntb) && c.fmt.Addressable(cap)
      ensures var l := FillLoop(c, cap, l0);
              && |l.ntb.bytes| <= cap && c.fmt.NthLen() <= |l.ntb.bytes|
              && (c.toEnd && l.n > 0 ==> |l.ntb.bytes| + c.MaxNdp() <= cap)
    {
      hide FillLoop, Iterate, DelayedHolds;
      FillLoopFits(c, cap, l0);
      FillLoopBuilt(c, cap, l0);
      FillLoopCounted(c, cap, l0);
      hide Payloads, Tables, Apart, Signatures, Ordered, FirstAt;
    }

    /** Keeps the NTB for the next call. */
    method Keep(buf: Buffer, ghost t: Tx, ghost ntb: Ntb)
      requires Fields(t) && buf.data.Length == currSize
      requires delayed.Valid() && delayed.len == c.MaxNdp() && Holds(buf, delayed, ntb, t.delayed)
      modifies `curr
      ensures Rep(t.(curr := Some(ntb))) && curr == buf
    {
      hide Buffer.Contents, Buffer.Valid;
      curr := buf;
    }

    /** Completes the NTB and lets go of it. */
    method Send(buf: Buffer, ghost t: Tx, ghost ntb: Ntb) returns (out: Buffer)
      requires c.Usable() && Fields(t) && buf.data.Length == currSize
      requires delayed.Valid() && delayed.len == c.MaxNdp() && Holds(buf, delayed, ntb, t.delayed)
      requires c.fmt.NthLen() <= |ntb.bytes| && (c.toEnd ==> |ntb.bytes| + c.MaxNdp() <= currSize)
      modifies `curr, buf, buf.data, delayed.data
      ensures Rep(t.(curr := None, delayed := if c.toEnd then Zeros(|t.delayed|) else t.delayed))
      ensures out == buf && curr == null
      ensures HandedOver(out, Some(Block(Finish(c, currSize, t.minTxPkt, ntb, t.delayed), currSize)))
    {
      hide Buffer.Contents, Finish;
      FinishBuffer(c, currSize, minTxPkt, buf, delayed, ntb);
      curr, out := null, buf;
    }

    /** Waits for more frames or sends. */
    method Conclude(buf: Buffer, n: nat, skb: Option<Pkt>, ready: bool, ghost t: Tx, ghost l: Loop, ghost before: nat)
      returns (out: Buffer?, startTimer: bool)
      requires c.Usable() && Fields(t.(rem := l.rem)) && LoopRep(buf, l, skb, n, ready, before)
      requires c.fmt.NthLen() <= |l.ntb.bytes|
      requires c.toEnd && l.n > 0 ==> |l.ntb.bytes| + c.MaxNdp() <= currSize
      modifies `curr, `frameNum, `pending, `dropped, buf, buf.data, delayed.data
      ensures var f := NcmTx.Conclude(c, t, l);
              && Rep(f.tx) && startTimer == f.startTimer && dropped == before + |f.drops|
              && HandedOver(out, f.out)
      ensures {curr, out} == {null, buf}
    {
      hide Buffer.Contents, Buffer.Valid, Finish, Rep, Holds;
      out, startTimer := null, false;
      if skb.Some? {
        dropped := dropped + 1;
      }
      frameNum := n;
      ghost var t1 := t.(rem := l.rem, delayed := l.delayed, frameNum := l.n);
      if n == 0 {
        Keep(buf, t1, l.ntb);
      } else if n < c.maxDatagrams && !ready && interval > 0 {
        if n < c.restartCnt {
          pending := c.pendingCnt;
        }
        startTimer := true;
        Keep(buf, t1.(pending := pending), l.ntb);
      } else {
        out := Send(buf, t1, l.ntb);
      }
    }

    /** What the loop needs from the NTB it continues. */
    static lemma LoopReady(c: Cfg, t: Tx, skb: Option<Pkt>, full: bool, small: bool)
      requires c.Valid() && TxInv(c, t) && (skb.Some? ==> ValidPkt(c, skb.value))
      ensures var first := SwapSkb(t, skb);
              var got := NcmTx.Obtain(c, t, first, full, small);
              got.ntb.Some? ==>
                var l := LoopStart(got.tx, got.ntb.value, first, SwapRem(t, skb), skb.None?);
                && c.fmt.Addressable(got.tx.currSize) && Reserved(c, got.tx.currSize, l.ntb)
                && LoopBuilt(c, got.tx.currSize, l) && |l.ntb.placed| == l.n <= c.maxDatagrams
    {
      var first := SwapSkb(t, skb);
      ObtainBuilt(c, t, first, full, small);
      ObtainSize(c, t, first, full, small);
      hide NcmTx.Obtain, Built, NonEmpty, DelayedHolds;
    }

    /** The remaining frame plays no part in obtaining a buffer. */
    static lemma ObtainSwaps(c: Cfg, t: Tx, skb: Option<Pkt>, rem: Option<Pkt>, full: bool, small: bool)
      requires TxInv(c, t)
      ensures var got := NcmTx.Obtain(c, t, skb, full, small);
              NcmTx.Obtain(c, t.(rem := rem), skb, full, small) == got.(tx := got.tx.(rem := rem))
      ensures c.fmt.NthLen() <= t.txMax
    {
      hide NewNtb, Built, NonEmpty, DelayedHolds;
    }

    /** Fills the NTB and then waits or sends. */
    method Pack(buf: Buffer, first: Option<Pkt>, sendNow: bool, ghost t: Tx, ghost l0: Loop)
      returns (out: Buffer?, startTimer: bool)
      requires c.Valid() && LoopRep(buf, l0, first, frameNum, sendNow, dropped) && l0.drops == []
      requires LoopBuilt(c, currSize, l0) && |l0.ntb.placed| == l0.n <= c.maxDatagrams && Reserved(c, currSize, l0.ntb)
      requires Fields(t.(rem := rem))
      modifies `curr, `rem, `frameNum, `pending, `dropped, buf, buf.data, delayed.data
      ensures var f := NcmTx.Conclude(c, t, FillLoop(c, currSize, l0));
              && Rep(f.tx) && startTimer == f.startTimer && dropped == old(dropped) + |f.drops|
              && HandedOver(out, f.out)
      ensures {curr, out} == {null, buf}
    {
      hide NcmTx.Conclude, FillLoop, LoopBuilt, Reserved, Rep, HandedOver, Holds;
      LoopLeaves(c, currSize, l0);
      var n, dangling, ready, l := Fill(buf, first, sendNow, l0);
      out, startTimer := Conclude(buf, n, dangling, ready, t, l, old(dropped));
    }

    /** A remaining frame gets priority. */
    method Swap(skb: Option<Pkt>, ghost t: Tx) returns (first: Option<Pkt>)
      requires Rep(t)
      modifies `rem
      ensures first == SwapSkb(t, skb) && rem == SwapRem(t, skb)
      ensures Rep(t.(rem := rem)) && Fields(t.(rem := rem))
    {
      first := skb;
      if skb.Some? {
        first, rem := rem, skb;
      }
    }

    /** Without a buffer the frame is lost. */
    method AllocFailed(first: Option<Pkt>, ghost t: Tx)
      requires Rep(t)
      modifies `dropped
      ensures Rep(t) && dropped == old(dropped) + (if first.Some? then 1 else 0)
      ensures HandedOver(null, None)
    {
      if first.Some? {
        dropped := dropped + 1;
      }
    }

    /** cdc_ncm_fill_tx_frame */
    method FillTxFrame(skb: Option<Pkt>, full: bool, small: bool, ghost t: Tx)
      returns (out: Buffer?, startTimer: bool, ghost f: Filled)
      requires c.Valid() && Rep(t) && TxInv(c, t) && (skb.Some? ==> ValidPkt(c, skb.value))
      modifies `curr, `rem, `currSize, `frameNum, `seqno, `lowVal, `lowMax, `pending, `dropped
      modifies Buffers()
      ensures f == NcmTx.FillTxFrame(c, t, skb, full, small)
      ensures Rep(f.tx) && TxInv(c, f.tx) && startTimer == f.startTimer && dropped == old(dropped) + |f.drops|
      ensures HandedOver(out, f.out) && fresh(Repr() - old(Repr()))
    {
      hide Buffer.Contents, Buffer.Valid, Holds, Rep, HandedOver, NcmTx.Obtain, NcmTx.Conclude;
      hide FillLoop, LoopBuilt, TxInv, Reserved, ValidPkt;
      f := NcmTx.FillTxFrame(c, t, skb, full, small);
      FillSound(c, t, skb, full, small);
      LoopReady(c, t, skb, full, small);
      out, startTimer := null, false;
      var first := Swap(skb, t);
      ghost var got := NcmTx.Obtain(c, t, first, full, small);
      ghost var rest := rem;
      ObtainSwaps(c, t, first, rest, full, small);
      var buf := Obtain(first, full, small, t.(rem := rest));
      if buf == null {
        AllocFailed(first, f.tx);
        return;
      }
      out, startTimer := Pack(buf, first, skb.None?, got.tx, LoopStart(got.tx, got.ntb.value, first, rest, skb.None?));
    }

    // ----- entry points -----

    /** The block that a step has handed to usbnet, if any. */
    static ghost function NewBlock(s: Sys, s': Sys): Option<Block> {
      if |s'.blocks| == |s.blocks| + 1 then Some(s'.blocks[|s.blocks|]) else None
    }

    /** Sends or keeps a frame, or sends what there is; `s` is the run with the frame already in it. */
    method Transmit(skb: Option<Pkt>, full: bool, small: bool, ghost s: Sys) returns (out: Buffer?)
      requires c.Valid() && Rep(s.tx) && TxInv(c, s.tx) && (skb.Some? ==> ValidPkt(c, skb.value))
      requires timer == s.timer && bh == s.bh && dropped == |s.drops| && count == |s.submitted|
      modifies `curr, `rem, `currSize, `frameNum, `seqno, `lowVal, `lowMax, `pending, `dropped, `timer, `sys
      modifies Buffers()
      ensures Valid() && fresh(Repr() - old(Repr()))
      ensures sys == Record(s, NcmTx.FillTxFrame(c, s.tx, skb, full, small))
      ensures HandedOver(out, NewBlock(s, sys))
    {
      hide TxInv, HandedOver, Rep, NcmTx.FillTxFrame, ValidPkt;
      var startTimer;
      ghost var f;
      out, startTimer, f := FillTxFrame(skb, full, small, s.tx);
      timer := timer || startTimer;
      sys := Record(s, f);
    }

    /** cdc_ncm_tx_fixup with a frame */
    method Submit(sig: nat, data: seq<Byte>, full: bool, small: bool) returns (out: Buffer?)
      requires Valid() && ValidOp(c, Op.Submit(sig, data, full, small))
      modifies Repr()
      ensures Valid() && fresh(Repr() - old(Repr()))
      ensures sys == Step(c, old(sys), Op.Submit(sig, data, full, small))
      ensures HandedOver(out, NewBlock(old(sys), sys))
    {
      hide TxInv, Rep, HandedOver, Holds, Buffer.Contents, Buffer.Valid, NcmTx.FillTxFrame;
      var pkt := Pkt(count, sig, data);
      count := count + 1;
      out := Transmit(Some(pkt), full, small, sys.(submitted := sys.submitted + [pkt]));
    }

    /** cdc_ncm_tx_timer_cb */
    method TimerFires()
      requires Valid()
      modifies `timer, `bh, `sys
      ensures Valid() && sys == Step(c, old(sys), Op.TimerFires)
    {
      hide TxInv, Holds, Buffer.Contents, Buffer.Valid;
      if timer {
        timer, bh := false, true;
      }
      sys := Step(c, sys, Op.TimerFires);
    }

    /** cdc_ncm_txpath_bh */
    method BhRuns(full: bool, small: bool) returns (out: Buffer?)
      requires Valid()
      modifies Repr()
      ensures Valid() && fresh(Repr() - old(Repr()))
      ensures sys == Step(c, old(sys), Op.BhRuns(full, small))
      ensures HandedOver(out, NewBlock(old(sys), sys))
    {
      hide TxInv, Rep, Buffer.Contents, Buffer.Valid, NcmTx.FillTxFrame;
      out := null;
      if !bh {
        return;
      }
      FieldsOf(sys.tx);
      if pending != 0 {
        CountDown();
      } else {
        ghost var s := sys.(bh := false);
        bh := false;
        out := Transmit(None, full, small, s);
      }
    }

    /** Restarts the timer while the count lasts. */
    method CountDown()
      requires Valid() && bh && pending != 0
      modifies `bh, `pending, `timer, `sys
      ensures Valid()
      ensures sys == old(sys).(bh := false, timer := true, tx := old(sys).tx.(pending := old(pending) - 1))
    {
      hide TxInv, Holds, Buffer.Contents, Buffer.Valid;
      TimerKeeps(c, sys.tx, pending - 1, interval, minTxPkt);
      bh, timer, pending := false, true, pending - 1;
      sys := sys.(bh := false, timer := true, tx := sys.tx.(pending := pending));
    }

    method NoBuffer() returns (out: Buffer?)
      ensures HandedOver(out, None)
    {
      out := null;
    }

    /** Frees the NTB in progress. */
    method Discard(ghost t: Tx)
      requires Rep(t)
      modifies `curr
      ensures Rep(t.(curr := None)) && curr == null
    {
      hide Buffer.Contents, Buffer.Valid;
      curr := null;
    }

    lemma FieldsOf(t: Tx)
      requires Rep(t)
      ensures Fields(t)
    {
    }

    /** The last part of an update. */
    method SetLimits(val: nat, ghost t: Tx, ghost s: Sys)
      requires Rep(t) && s.tx == t.(txMax := val, minTxPkt := NewMinTxPkt(c, val))
      modifies `txMax, `minTxPkt, `sys
      ensures Rep(s.tx) && sys == s
    {
      hide Buffer.Contents, Buffer.Valid, NewMinTxPkt;
      txMax := val;
      minTxPkt := NewMinTxPkt(c, val);
      sys := s;
    }

    /** Sends what there is and frees an NTB that is left. */
    method Renew(full: bool, small: bool) returns (out: Buffer?)
      requires Valid()
      modifies `curr, `rem, `currSize, `frameNum, `seqno, `lowVal, `lowMax, `pending, `dropped, `timer, `sys
      modifies Buffers()
      ensures sys == Flush(c, old(sys), full, small)
      ensures Rep(sys.tx.(curr := None)) && curr == null && HandedOver(out, NewBlock(old(sys), sys))
      ensures timer == sys.timer && bh == sys.bh && dropped == |sys.drops| && count == |sys.submitted|
    {
      hide TxInv, Rep, Buffer.Contents, Buffer.Valid, NcmTx.FillTxFrame;
      out := Transmit(None, full, small, sys);
      Discard(sys.tx);
    }

    /** What an update of tx_max does to the run. */
    static lemma UpdateShape(c: Cfg, s: Sys, newTx: nat, running: bool, full: bool, small: bool)
      requires c.Usable()
      ensures var s' := UpdateStep(c, s, newTx, running, full, small);
              var val := PaddedTxMax(c, newTx);
              var flushes := running && val > s.tx.txMax;
              var base := if flushes then Flush(c, s, full, small) else s;
              var tx := if flushes then base.tx.(curr := None) else base.tx;
              && s'.tx == tx.(txMax := val, minTxPkt := NewMinTxPkt(c, val))
              && s'.timer == base.timer && s'.bh == base.bh && s'.blocks == base.blocks
              && s'.drops == base.drops && s'.submitted == base.submitted
    {
      hide NcmTx.FillTxFrame, PaddedTxMax, NewMinTxPkt;
    }

    static lemma UpdateInv(c: Cfg, s: Sys, newTx: nat, running: bool, full: bool, small: bool)
      requires c.Valid() && TxInv(c, s.tx)
      ensures TxInv(c, UpdateStep(c, s, newTx, running, full, small).tx)
    {
      hide TxInv, NcmTx.FillTxFrame, PaddedTxMax, NewMinTxPkt;
      UpdateSound(c, s.(blocks := []), newTx, running, full, small);
    }

    /** The transmit half of cdc_ncm_update_rxtx_max */
    method UpdateTxMax(newTx: nat, running: bool, full: bool, small: bool) returns (out: Buffer?)
      requires Valid()
      modifies Repr()
      ensures Valid() && fresh(Repr() - old(Repr()))
      ensures sys == Step(c, old(sys), Op.UpdateTxMax(newTx, running, full, small))
      ensures HandedOver(out, NewBlock(old(sys), sys))
    {
      hide TxInv, Rep, HandedOver, UpdateStep, Flush, PaddedTxMax, NewMinTxPkt;
      ghost var s := sys;
      UpdateShape(c, s, newTx, running, full, small);
      var val := PaddedTxMax(c, newTx);
      UpdateInv(c, s, newTx, running, full, small);
      FieldsOf(s.tx);
      ghost var s' := UpdateStep(c, s, newTx, running, full, small);
      if running && val > txMax {
        out := Renew(full, small);
        SetLimits(val, sys.tx.(curr := None), s');
      } else {
        out := NoBuffer();
        SetLimits(val, s.tx, s');
      }
    }

    /** timer_interval, as the sysfs attribute sets it */
    method SetInterval(interval: nat)
      requires Valid()
      modifies `interval, `pending, `sys
      ensures Valid() && sys == Step(c, old(sys), Op.SetInterval(interval))
    {
      hide TxInv, Holds, Buffer.Contents, Buffer.Valid;
      TimerKeeps(c, sys.tx, if interval == 0 then 0 else pending, interval, minTxPkt);
      this.interval := interval;
      if interval == 0 {
        pending := 0;
      }
      sys := Step(c, sys, Op.SetInterval(interval));
    }

    /** min_tx_pkt, as the sysfs attribute sets it */
    method SetMinTxPkt(size: nat)
      requires Valid()
      modifies `minTxPkt, `sys
      ensures Valid() && sys == Step(c, old(sys), Op.SetMinTxPkt(size))
    {
      hide TxInv, Holds, Buffer.Contents, Buffer.Valid;
      TimerKeeps(c, sys.tx, pending, interval, size);
      minTxPkt := size;
      sys := Step(c, sys, Op.SetMinTxPkt(size));
    }
  }
}
