/**
 * When an NTB keeps collecting frames and when it is sent: for every submission of every run, from
 * the state before it.
 */
module NcmCoalesce {
  import opened Bytes
  import opened Options
  import opened NcmFormat
  import opened NcmTx
  import opened NcmSystem
  import opened NcmFifo
  import opened NcmLoss
  import opened NcmLayout
  import opened NcmEncode
  import opened NcmBlocks
  import opened NcmRefusal

  // ----- one call -----

  lemma {:induction false} LoopGrows(c: Cfg, cap: nat, l: Loop)
    requires c.Usable()
    ensures l.ntb.placed <= FillLoop(c, cap, l).ntb.placed
    decreases c.maxDatagrams - l.n
  {
    if l.n < c.maxDatagrams && NextSkb(l).Some? {
      var pkt := NextSkb(l).value;
      var (l', more) := Iterate(c, cap, l, pkt);
      hide Prepare, Fits;
      if more {
        LoopGrows(c, cap, l');
      }
    }
  }

  /** Nothing but a refusal behind other frames makes a submission ready to send. */
  lemma {:induction false} ReadyIsRefused(c: Cfg, cap: nat, l: Loop)
    requires c.Workable() && Sanitised(c) && LoopInv(c, l) && !l.ready
    ensures FillLoop(c, cap, l).ready ==> FillLoop(c, cap, l).rem.Some?
    decreases c.maxDatagrams - l.n
  {
    hide Prepare, Fits, AddFrame;
    if l.n < c.maxDatagrams && NextSkb(l).Some? {
      var pkt := NextSkb(l).value;
      var (l', more) := Iterate(c, cap, l, pkt);
      IterateShape(c, cap, l, pkt, l', more);
      if more {
        ReadyIsRefused(c, cap, l');
      }
    }
  }

  /** The frames that wait in an NTB. */
  function Waiting(t: Tx): seq<Entry> {
    if t.curr.Some? then t.curr.value.placed else []
  }

  /** The frames that a step sent, or that wait after it. */
  function Collected(s: Sys, s': Sys): seq<Entry> {
    if |s'.blocks| > |s.blocks| then s'.blocks[|s.blocks|].ntb.placed else Waiting(s'.tx)
  }

  /** There is an NTB, or a buffer for one. */
  predicate GetsBuffer(c: Cfg, t: Tx, full: bool, small: bool) {
    || t.curr.Some?
    || (t.lowVal == 0 && full)
    || (small && (t.lowVal != 0 || t.txMax != c.minOut))
  }

  /** What a submission comes to: it keeps collecting, unless there is a reason to send. */
  ghost predicate Collects(c: Cfg, s: Sys, s': Sys) {
    var sent := |s'.blocks| > |s.blocks|;
    var all := Collected(s, s');
    && Waiting(s.tx) <= all
    && (sent <==> all != [] && (s.tx.interval == 0 || s'.tx.rem.Some? || |all| == c.maxDatagrams))
    && (if sent then s'.tx.curr.None? && |s'.blocks| == |s.blocks| + 1 else s'.tx.curr.Some? && s'.blocks == s.blocks)
    && (if sent || all == [] then s'.timer == s.timer && s'.tx.pending == s.tx.pending
        else s'.timer && s'.tx.pending == (if |all| < c.restartCnt then c.pendingCnt else s.tx.pending))
  }

  lemma CallCollects(c: Cfg, t: Tx, pkt: Pkt, full: bool, small: bool)
    requires c.Workable() && Sanitised(c) && LossInv(c, t) && GetsBuffer(c, t, full, small)
    ensures var f := FillTxFrame(c, t, Some(pkt), full, small);
            var all := if f.out.Some? then f.out.value.ntb.placed else Waiting(f.tx);
            && Waiting(t) <= all
            && (f.out.Some? <==> all != [] && (t.interval == 0 || f.tx.rem.Some? || |all| == c.maxDatagrams))
            && (if f.out.Some? then f.tx.curr.None? else f.tx.curr.Some?)
            && (f.startTimer <==> f.out.None? && all != [])
            && f.tx.pending == (if f.out.None? && all != [] && |all| < c.restartCnt then c.pendingCnt else t.pending)
  {
    hide FillLoop, Finish, NewNtb;
    var l := Entered(c, t, Some(pkt), full, small).value;
    var cap := BufferSize(c, t, Some(pkt), full, small);
    FillLoopLoss(c, cap, l);
    ReadyIsRefused(c, cap, l);
    LoopGrows(c, cap, l);
  }

  lemma StepCollects(c: Cfg, s: Sys, op: Op)
    requires c.Workable() && Sanitised(c) && LossInv(c, s.tx) && op.Submit? && GetsBuffer(c, s.tx, op.full, op.small)
    ensures Collects(c, s, Step(c, s, op))
  {
    hide FillTxFrame, GetsBuffer;
    CallCollects(c, s.tx, NewPkt(s, op.sig, op.data), op.full, op.small);
  }

  /**
   * For every run and every submission that has a buffer: an NTB is sent if and only if it holds
   * a frame and coalescing is off, or the frame in hand was refused behind others, or
   * tx_max_datagrams frames are in it. Otherwise the old frames and the new ones wait, the timer
   * is started, and the tasklet is to put off sending as long as there are few frames.
   */
  lemma SubmitCollects(c: Cfg, newTx: nat, interval: nat, ops: seq<Op>, op: Op)
    requires c.Workable() && Sanitised(c)
    requires op.Submit? && GetsBuffer(c, Run(c, newTx, interval, ops).tx, op.full, op.small)
    ensures var s := Run(c, newTx, interval, ops);
            Collects(c, s, Step(c, s, op))
  {
    hide Run, Step, Collects, LoopsComplete;
    OnlyTwoLossSites(c, newTx, interval, ops);
    StepCollects(c, Run(c, newTx, interval, ops), op);
  }

  // ----- room behind other frames -----

  /** The frame fits behind `len` bytes, with its alignment and what is kept free for a table at the end. */
  predicate Place(c: Cfg, size: nat, len: nat, pkt: Pkt)
    requires c.Usable()
  {
    Min(AlignUp(len, c.modulus) + c.remainder, size) + |pkt.data| + c.EndReserve() <= size
  }

  ghost predicate HasSignature(placed: seq<Entry>, sig: nat) {
    exists k :: 0 <= k < |placed| && placed[k].pkt.sig == sig
  }

  /**
   * A frame has room behind others if it fits and shares its signature with one of them; behind
   * others without its signature only if there is room for one more table, and none that goes to
   * the end.
   */
  ghost predicate RoomBehind(c: Cfg, size: nat, len: nat, placed: seq<Entry>, pkt: Pkt)
    requires c.Usable()
  {
    if HasSignature(placed, pkt.sig) then Place(c, size, len, pkt)
    else !c.toEnd && AlignUp(len, c.ndpModulus) + c.MaxNdp() + |pkt.data| + c.modulus + c.remainder <= size
  }

  lemma TableThere(c: Cfg, ntb: Ntb, delayed: seq<Byte>, sig: nat)
    requires Built(c, ntb, delayed) && !c.toEnd && NonEmpty(ntb.ndps, ntb.placed)
    ensures HasSignature(ntb.placed, sig) <==> FindNdp(ntb.ndps, sig, 0) < |ntb.ndps|
  {
    hide HeaderAt, FirstAt, Payloads, Tables, Ordered, Apart;
    var j := FindNdp(ntb.ndps, sig, 0);
    if j < |ntb.ndps| && !HasSignature(ntb.placed, sig) {
      SubNone(ntb.placed, sig);
    }
  }

  lemma TakesInline(c: Cfg, size: nat, ntb: Ntb, delayed: seq<Byte>, pkt: Pkt)
    requires c.Valid() && !c.toEnd && |ntb.bytes| <= size && Built(c, ntb, delayed) && NonEmpty(ntb.ndps, ntb.placed)
    ensures Takes(c, size, ntb, delayed, pkt) <==> RoomBehind(c, size, |ntb.bytes|, ntb.placed, pkt)
  {
    hide Built, NonEmpty, HasSignature, AlignUp, OpenNdp, Patch, LinkAt;
    TableThere(c, ntb, delayed, pkt.sig);
  }

  lemma TakesEnd(c: Cfg, size: nat, ntb: Ntb, delayed: seq<Byte>, pkt: Pkt)
    requires c.Valid() && c.toEnd && |ntb.bytes| <= size && Built(c, ntb, delayed) && ntb.placed != []
    ensures Takes(c, size, ntb, delayed, pkt) <==> RoomBehind(c, size, |ntb.bytes|, ntb.placed, pkt)
  {
    assert HasSignature(ntb.placed, pkt.sig) <==> DelayedSig(delayed) == pkt.sig by {
      assert ntb.placed[0].pkt.sig == DelayedSig(delayed);
    }
    assert DelayedSig(delayed) != 0;
    hide Built, HasSignature, AlignUp, OpenNdp, Patch, DelayedSig;
  }

  /** What the loop does with one frame, behind others. */
  lemma OneMore(c: Cfg, cap: nat, l: Loop, pkt: Pkt)
    requires c.Workable() && Sanitised(c) && LoopInv(c, l) && 0 < l.n < c.maxDatagrams && !l.ready
    requires l.skb.None? && l.rem == Some(pkt)
    ensures var l' := FillLoop(c, cap, l);
            if Takes(c, cap, l.ntb, l.delayed, pkt) then
              && l'.rem.None? && |l'.ntb.placed| == |l.ntb.placed| + 1
              && l'.ntb.placed[|l.ntb.placed|].pkt == pkt
            else l'.rem == Some(pkt) && l'.ntb.placed == l.ntb.placed
  {
    hide Prepare, Fits;
    var (l', more) := Iterate(c, cap, l, pkt);
    IterateShape(c, cap, l, pkt, l', more);
    if more {
      assert NextSkb(l').None?;
      assert FillLoop(c, cap, l') == l';
    }
  }

  /** A frame that comes while others wait: it joins them, or they go and it remains. */
  ghost predicate Joins(c: Cfg, s: Sys, s': Sys, pkt: Pkt)
    requires c.Usable() && s.tx.curr.Some?
  {
    var ntb := s.tx.curr.value;
    var n := |ntb.placed|;
    var all := Collected(s, s');
    var sent := |s'.blocks| > |s.blocks|;
    if RoomBehind(c, s.tx.currSize, |ntb.bytes|, ntb.placed, pkt) then
      && |all| == n + 1 && ntb.placed <= all && all[n].pkt == pkt && s'.tx.rem.None?
      && (sent <==> s.tx.interval == 0 || n + 1 == c.maxDatagrams)
    else sent && all == ntb.placed && s'.tx.rem == Some(pkt)
  }

  lemma StepJoins(c: Cfg, s: Sys, op: Op)
    requires c.Valid() && Sanitised(c) && TxInv(c, s.tx) && LossInv(c, s.tx)
    requires op.Submit? && s.tx.curr.Some? && s.tx.frameNum > 0
    ensures Joins(c, s, Step(c, s, op), NewPkt(s, op.sig, op.data))
  {
    hide FillTxFrame, TxInv, LossInv, Built, NonEmpty, RoomBehind, Takes, Collects;
    var pkt := NewPkt(s, op.sig, op.data);
    var t := s.tx;
    var ntb := t.curr.value;
    StepCollects(c, s, op);
    TakesBehind(c, t, pkt);
    CallJoins(c, t, pkt, op.full, op.small);
  }

  lemma TakesBehind(c: Cfg, t: Tx, pkt: Pkt)
    requires c.Valid() && TxInv(c, t) && LossInv(c, t) && t.curr.Some? && t.frameNum > 0
    ensures var ntb := t.curr.value;
            Takes(c, t.currSize, ntb, t.delayed, pkt) <==>
              RoomBehind(c, t.currSize, |ntb.bytes|, ntb.placed, pkt)
  {
    hide Built, NonEmpty, RoomBehind, Takes;
    var ntb := t.curr.value;
    if c.toEnd {
      TakesEnd(c, t.currSize, ntb, t.delayed, pkt);
    } else {
      TakesInline(c, t.currSize, ntb, t.delayed, pkt);
    }
  }

  lemma CallJoins(c: Cfg, t: Tx, pkt: Pkt, full: bool, small: bool)
    requires c.Workable() && Sanitised(c) && LossInv(c, t) && t.curr.Some? && t.frameNum > 0
    ensures var ntb := t.curr.value;
            var n := |ntb.placed|;
            var f := FillTxFrame(c, t, Some(pkt), full, small);
            var all := if f.out.Some? then f.out.value.ntb.placed else Waiting(f.tx);
            if Takes(c, t.currSize, ntb, t.delayed, pkt) then
              && |all| == n + 1 && ntb.placed <= all && all[n].pkt == pkt && f.tx.rem.None?
              && (f.out.Some? <==> t.interval == 0 || n + 1 == c.maxDatagrams)
            else f.out.Some? && all == ntb.placed && f.tx.rem == Some(pkt)
  {
    hide FillLoop, Finish, Takes;
    var l := LoopStart(t, t.curr.value, None, Some(pkt), false);
    OneMore(c, t.currSize, l, pkt);
    CallCollects(c, t, pkt, full, small);
  }

  /**
   * For every run in which frames wait, and every frame that comes then: if there is room behind
   * the others it joins them, and they are sent if and only if coalescing is off or they are
   * tx_max_datagrams now; if there is none, the others are sent and the new one remains.
   */
  lemma FrameJoins(c: Cfg, newTx: nat, interval: nat, ops: seq<Op>, op: Op)
    requires c.Valid() && Sanitised(c) && ValidOps(c, ops) && op.Submit?
    requires var t := Run(c, newTx, interval, ops).tx;
             t.curr.Some? && t.frameNum > 0
    ensures var s := Run(c, newTx, interval, ops);
            Joins(c, s, Step(c, s, op), NewPkt(s, op.sig, op.data))
  {
    hide Run, Step, Joins, LoopsComplete, TxInv;
    BlocksAlwaysSound(c, newTx, interval, ops);
    OnlyTwoLossSites(c, newTx, interval, ops);
    StepJoins(c, Run(c, newTx, interval, ops), op);
  }
}
