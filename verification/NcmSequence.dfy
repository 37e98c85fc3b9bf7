/**
 * Sequence numbers: a receiver that gets every NTB in order never sees a gap, unless the
 * driver itself threw away an NTB it had numbered.
 */
module NcmSequence {
  import opened Options
  import opened NcmFormat
  import opened NcmTx
  import opened NcmSystem
  import opened NcmFifo
  import opened NcmLoss
  import opened NcmRefusal
  import opened NcmFirst
  import opened NcmRx

  /** The number of NTBs that were started. */
  function Started(s: Sys): nat {
    |s.blocks| + s.discarded + (if s.tx.curr.Some? then 1 else 0)
  }

  /** Block `i` carries number `i`, shifted by the NTBs discarded before it. */
  ghost predicate Numbered(blocks: seq<Block>, skips: seq<nat>, discarded: nat) {
    && |skips| == |blocks|
    && forall i | 0 <= i < |blocks| :: skips[i] <= discarded && blocks[i].ntb.seqno == (i + skips[i]) % 0x1_0000
  }

  ghost predicate SeqInv(s: Sys) {
    && s.tx.seqno == Started(s) % 0x1_0000
    && (s.tx.curr.Some? ==> s.tx.curr.value.seqno == (Started(s) - 1) % 0x1_0000)
    && Numbered(s.blocks, s.skips, s.discarded)
  }

  lemma NumberedAppend(blocks: seq<Block>, skips: seq<nat>, discarded: nat, b: Block)
    requires Numbered(blocks, skips, discarded) && b.ntb.seqno == (|blocks| + discarded) % 0x1_0000
    ensures Numbered(blocks + [b], skips + [discarded], discarded)
  {
  }

  lemma {:induction false} FillLoopSeq(c: Cfg, cap: nat, l: Loop)
    requires c.Usable()
    ensures FillLoop(c, cap, l).ntb.seqno == l.ntb.seqno
    decreases c.maxDatagrams - l.n
  {
    if l.n < c.maxDatagrams && NextSkb(l).Some? {
      var pkt := NextSkb(l).value;
      IterateSeq(c, cap, l, pkt);
      hide Iterate;
      if Iterate(c, cap, l, pkt).1 {
        FillLoopSeq(c, cap, Iterate(c, cap, l, pkt).0);
      }
    }
  }

  lemma IterateSeq(c: Cfg, cap: nat, l: Loop, pkt: Pkt)
    requires c.Usable()
    ensures Iterate(c, cap, l, pkt).0.ntb.seqno == l.ntb.seqno
    ensures Iterate(c, cap, l, pkt).1 ==> Iterate(c, cap, l, pkt).0.n == l.n + 1
  {
    hide Prepare, Fits, AddFrame;
  }

  /** The NTB a call leaves behind or sends. */
  function Result(f: Filled): Option<Ntb> {
    if f.out.Some? then Some(f.out.value.ntb) else f.tx.curr
  }

  /** A call goes on with the NTB in progress, or starts one and numbers it with tx_seq. */
  ghost predicate KeepsNumbers(t: Tx, f: Filled) {
    && !(f.out.Some? && f.tx.curr.Some?)
    && match (t.curr, Result(f))
       case (Some(ntb), Some(r)) => r.seqno == ntb.seqno && f.tx.seqno == t.seqno
       case (Some(ntb), None) => false
       case (None, Some(r)) => r.seqno == t.seqno && f.tx.seqno == (t.seqno + 1) % 0x1_0000
       case (None, None) => f.tx.seqno == t.seqno
  }

  lemma FillSeq(c: Cfg, t: Tx, skb: Option<Pkt>, full: bool, small: bool)
    requires c.Usable()
    ensures KeepsNumbers(t, FillTxFrame(c, t, skb, full, small))
  {
    hide FillLoop, NewNtb, Finish;
    var first := SwapSkb(t, skb);
    var got := Obtain(c, t, first, full, small);
    if got.ntb.Some? {
      FillLoopSeq(c, got.tx.currSize, LoopStart(got.tx, got.ntb.value, first, SwapRem(t, skb), skb.None?));
    }
  }

  lemma RecordNumbers(s: Sys, f: Filled)
    requires SeqInv(s) && KeepsNumbers(s.tx, f)
    ensures SeqInv(Record(s, f))
  {
    hide Numbered;
    if f.out.Some? {
      NumberedAppend(s.blocks, s.skips, s.discarded, f.out.value);
    } else {
      assert s.blocks + [] == s.blocks && s.skips + [] == s.skips;
    }
  }

  lemma RecordSeq(c: Cfg, s: Sys, skb: Option<Pkt>, full: bool, small: bool)
    requires c.Usable() && SeqInv(s)
    ensures SeqInv(Record(s, FillTxFrame(c, s.tx, skb, full, small)))
  {
    FillSeq(c, s.tx, skb, full, small);
    RecordNumbers(s, FillTxFrame(c, s.tx, skb, full, small));
  }

  lemma UpdateSeq(c: Cfg, s: Sys, newTx: nat, running: bool, full: bool, small: bool)
    requires c.Usable() && SeqInv(s)
    ensures SeqInv(UpdateStep(c, s, newTx, running, full, small))
  {
    hide FillTxFrame, PaddedTxMax, NewMinTxPkt, Record;
    RecordSeq(c, s, None, full, small);
  }

  lemma StepSeq(c: Cfg, s: Sys, op: Op)
    requires c.Usable() && SeqInv(s)
    ensures SeqInv(Step(c, s, op))
  {
    hide FillTxFrame, PaddedTxMax, NewMinTxPkt, UpdateStep, Record, Numbered;
    match op
    case Submit(sig, data, full, small) =>
      var pkt := NewPkt(s, sig, data);
      RecordSeq(c, s.(submitted := s.submitted + [pkt]), Some(pkt), full, small);
    case BhRuns(full, small) => RecordSeq(c, s.(bh := false), None, full, small);
    case UpdateTxMax(newTx, running, full, small) => UpdateSeq(c, s, newTx, running, full, small);
    case _ =>
  }

  lemma {:induction false} RunSeq(c: Cfg, newTx: nat, interval: nat, ops: seq<Op>)
    requires c.Usable()
    ensures SeqInv(Run(c, newTx, interval, ops))
  {
    hide Step, PaddedTxMax, NewMinTxPkt;
    if ops != [] {
      RunSeq(c, newTx, interval, ops[..|ops| - 1]);
      StepSeq(c, Run(c, newTx, interval, ops[..|ops| - 1]), ops[|ops| - 1]);
    }
  }

  /** rx_seq when block `i` arrives: the number of the block before, or 0 at the start. */
  function Previous(blocks: seq<Block>, i: nat): nat
    requires i < |blocks|
  {
    if i == 0 then 0 else blocks[i - 1].ntb.seqno
  }

  /** How many NTBs were discarded between block `i` and the one before. */
  function Skipped(s: Sys, i: nat): int
    requires i < |s.skips|
  {
    var now: int := s.skips[i];
    var before: int := if i == 0 then 0 else s.skips[i - 1];
    now - before
  }

  /** The receiver complains unless the number follows on, modulo 2^16; two zeros are let pass. */
  lemma GlitchIff(prev: nat, curr: nat)
    requires prev < 0x1_0000 && curr < 0x1_0000
    ensures Glitch(prev, curr) <==> curr != (prev + 1) % 0x1_0000 && !(prev == 0 && curr == 0)
  {
  }

  lemma GapIff(a: nat, b: nat, k: int)
    requires b == a + 1 + k
    ensures var prev := a % 0x1_0000;
            Glitch(prev, b % 0x1_0000) <==> k % 0x1_0000 != 0 && !(prev == 0 && k % 0x1_0000 == 0xFFFF)
  {
  }

  lemma GlitchAt(s: Sys, i: nat)
    requires SeqInv(s) && 0 < i < |s.blocks|
    ensures Glitch(Previous(s.blocks, i), s.blocks[i].ntb.seqno)
            <==> Skipped(s, i) % 0x1_0000 != 0
                 && !(Previous(s.blocks, i) == 0 && Skipped(s, i) % 0x1_0000 == 0xFFFF)
  {
    hide Glitch;
    assert s.blocks[i - 1].ntb.seqno == (i - 1 + s.skips[i - 1]) % 0x1_0000;
    GapIff(i - 1 + s.skips[i - 1], i + s.skips[i], Skipped(s, i));
  }

  /** When the receiver complains about block `i`, after number `prev` and `skipped` discarded NTBs in between. */
  predicate Complains(i: nat, prev: nat, skipped: int) {
    var k := skipped % 0x1_0000;
    if i == 0 then k != 0 && k != 1 else k != 0 && !(prev == 0 && k == 0xFFFF)
  }

  lemma GlitchAtAny(s: Sys, i: nat)
    requires SeqInv(s) && i < |s.blocks|
    ensures Glitch(Previous(s.blocks, i), s.blocks[i].ntb.seqno)
            <==> Complains(i, Previous(s.blocks, i), Skipped(s, i))
  {
    if i > 0 {
      GlitchAt(s, i);
      hide Glitch;
    } else {
      assert s.blocks[0].ntb.seqno == (0 + s.skips[0]) % 0x1_0000;
    }
  }

  // ----- which steps discard -----

  /**
   * An update of tx_max discards an NTB: the device is running, the new value is larger, a buffer
   * is there or can be had, it holds no frame, and no frame remains that it takes.
   */
  predicate Discards(c: Cfg, s: Sys, op: Op)
    requires c.Usable()
  {
    && op.UpdateTxMax? && op.running
    && PaddedTxMax(c, op.newTx) > s.tx.txMax
    && var entered := Entered(c, s.tx, None, op.full, op.small);
       && entered.Some?
       && entered.value.n == 0
       && (s.tx.rem.None? || FirstRefused(c, BufferSize(c, s.tx, None, op.full, op.small), entered.value))
  }

  /** A flush leaves an NTB behind if and only if there is nothing to send. */
  lemma FlushLeaves(c: Cfg, t: Tx, full: bool, small: bool)
    requires c.Workable() && Sanitised(c) && LossInv(c, t)
    ensures var entered := Entered(c, t, None, full, small);
            FillTxFrame(c, t, None, full, small).tx.curr.Some?
            <==> && entered.Some? && entered.value.n == 0
                 && (t.rem.None? || FirstRefused(c, BufferSize(c, t, None, full, small), entered.value))
  {
    hide FillLoop, Finish, FirstRefused, NewNtb, Iterate;
    var entered := Entered(c, t, None, full, small);
    if entered.Some? {
      var cap := BufferSize(c, t, None, full, small);
      LoopDropsExactly(c, cap, entered.value);
      ReadyStays(c, cap, entered.value);
      if entered.value.n == 0 && FirstRefused(c, cap, entered.value) {
        RefusedStays(c, cap, entered.value);
      }
      if entered.value.n > 0 {
        LaterFramesStay(c, cap, entered.value);
      }
    }
  }

  lemma RefusedStays(c: Cfg, cap: nat, l: Loop)
    requires c.Usable() && FirstRefused(c, cap, l)
    ensures Iterate(c, cap, l, NextSkb(l).value).0.n == 0
  {
    hide Prepare, Fits, AddFrame;
  }

  lemma StepDiscards(c: Cfg, s: Sys, op: Op)
    requires c.Workable() && Sanitised(c) && LossInv(c, s.tx)
    ensures Step(c, s, op).discarded == s.discarded + (if Discards(c, s, op) then 1 else 0)
  {
    hide FillTxFrame, PaddedTxMax, NewMinTxPkt, Entered, BufferSize, FirstRefused;
    if op.UpdateTxMax? {
      FlushLeaves(c, s.tx, op.full, op.small);
    }
  }

  /** The number of steps of a run that discard. */
  function Discarding(c: Cfg, newTx: nat, interval: nat, ops: seq<Op>): nat
    requires c.Usable()
  {
    if ops == [] then 0
    else
      var before := ops[..|ops| - 1];
      Discarding(c, newTx, interval, before)
      + (if Discards(c, Run(c, newTx, interval, before), ops[|ops| - 1]) then 1 else 0)
  }

  lemma {:induction false} DiscardedIs(c: Cfg, newTx: nat, interval: nat, ops: seq<Op>)
    requires c.Workable() && Sanitised(c)
    ensures Run(c, newTx, interval, ops).discarded == Discarding(c, newTx, interval, ops)
  {
    hide Discards, PaddedTxMax, NewMinTxPkt, Step;
    if ops != [] {
      var before := ops[..|ops| - 1];
      DiscardedIs(c, newTx, interval, before);
      OnlyTwoLossSites(c, newTx, interval, before);
      StepDiscards(c, Run(c, newTx, interval, before), ops[|ops| - 1]);
    }
  }

  /** A step sends at most one block and notes how many were discarded until then. */
  lemma StepSkips(c: Cfg, s: Sys, op: Op)
    requires c.Usable()
    ensures var s' := Step(c, s, op);
            || (s'.blocks == s.blocks && s'.skips == s.skips)
            || (|s'.blocks| == |s.blocks| + 1 && s'.skips == s.skips + [s.discarded])
  {
    hide FillTxFrame, PaddedTxMax, NewMinTxPkt;
  }

  /** Step `k` of a run sends block `i`. */
  ghost predicate SentAt(c: Cfg, newTx: nat, interval: nat, ops: seq<Op>, i: nat, k: nat)
    requires c.Usable()
  {
    && k < |ops|
    && |Run(c, newTx, interval, ops[..k]).blocks| == i
    && |Run(c, newTx, interval, ops[..k + 1]).blocks| == i + 1
  }

  lemma RunOneMore(c: Cfg, newTx: nat, interval: nat, ops: seq<Op>, k: nat)
    requires c.Usable() && k < |ops|
    ensures Run(c, newTx, interval, ops[..k + 1]) == Step(c, Run(c, newTx, interval, ops[..k]), ops[k])
  {
    hide Step, Init;
    assert ops[..k + 1][..k] == ops[..k];
  }

  lemma {:induction false} SkipAt(c: Cfg, newTx: nat, interval: nat, ops: seq<Op>, i: nat, k: nat)
    requires c.Workable() && Sanitised(c) && SentAt(c, newTx, interval, ops, i, k)
    ensures i < |Run(c, newTx, interval, ops).skips|
    ensures Run(c, newTx, interval, ops).skips[i] == Discarding(c, newTx, interval, ops[..k])
    decreases |ops|
  {
    hide Run, Step, Discarding;
    var n := |ops| - 1;
    assert ops[..n + 1] == ops;
    RunSeq(c, newTx, interval, ops[..n]);
    RunOneMore(c, newTx, interval, ops, n);
    StepSkips(c, Run(c, newTx, interval, ops[..n]), ops[n]);
    if k == n {
      DiscardedIs(c, newTx, interval, ops[..k]);
    } else {
      assert ops[..n][..k] == ops[..k] && ops[..n][..k + 1] == ops[..k + 1];
      SkipAt(c, newTx, interval, ops[..n], i, k);
    }
  }

  /** The complaint about a block that step `k` sent, when step `j` sent the one before. */
  lemma GlitchBetween(c: Cfg, newTx: nat, interval: nat, ops: seq<Op>, i: nat, j: nat, k: nat)
    requires c.Workable() && Sanitised(c) && SentAt(c, newTx, interval, ops, i, k)
    requires i > 0 ==> SentAt(c, newTx, interval, ops, i - 1, j)
    ensures var blocks := Run(c, newTx, interval, ops).blocks;
            var before := if i == 0 then 0 else Discarding(c, newTx, interval, ops[..j]);
            && i < |blocks|
            && (Glitch(Previous(blocks, i), blocks[i].ntb.seqno)
                <==> Complains(i, Previous(blocks, i), Discarding(c, newTx, interval, ops[..k]) - before))
  {
    hide Run, Glitch, Discarding, Complains, Previous, SentAt;
    RunSeq(c, newTx, interval, ops);
    SkipAt(c, newTx, interval, ops, i, k);
    if i > 0 {
      SkipAt(c, newTx, interval, ops, i - 1, j);
    }
    GlitchAtAny(Run(c, newTx, interval, ops), i);
  }

  /** Every block of a run was sent at some step. */
  lemma {:induction false} SentSomewhere(c: Cfg, newTx: nat, interval: nat, ops: seq<Op>, i: nat) returns (k: nat)
    requires c.Usable() && i < |Run(c, newTx, interval, ops).blocks|
    ensures SentAt(c, newTx, interval, ops, i, k)
    decreases |ops|
  {
    hide Step, Init;
    var n := |ops| - 1;
    if ops == [] {
      NothingSent(c, newTx, interval);
    }
    assert ops[..n + 1] == ops;
    RunOneMore(c, newTx, interval, ops, n);
    StepSkips(c, Run(c, newTx, interval, ops[..n]), ops[n]);
    if i < |Run(c, newTx, interval, ops[..n]).blocks| {
      k := SentSomewhere(c, newTx, interval, ops[..n], i);
      assert ops[..n][..k] == ops[..k] && ops[..n][..k + 1] == ops[..k + 1];
    } else {
      k := n;
    }
  }

  lemma NothingSent(c: Cfg, newTx: nat, interval: nat)
    requires c.Usable()
    ensures Run(c, newTx, interval, []).blocks == []
  {
  }

  lemma {:induction false} BlocksGrow(c: Cfg, newTx: nat, interval: nat, ops: seq<Op>, j: nat, k: nat)
    requires c.Usable() && j <= k <= |ops|
    ensures |Run(c, newTx, interval, ops[..j]).blocks| <= |Run(c, newTx, interval, ops[..k]).blocks|
    decreases k
  {
    hide Run, Step;
    if j < k {
      BlocksGrow(c, newTx, interval, ops, j, k - 1);
      RunOneMore(c, newTx, interval, ops, k - 1);
      StepSkips(c, Run(c, newTx, interval, ops[..k - 1]), ops[k - 1]);
    }
  }

  lemma SentInOrder(c: Cfg, newTx: nat, interval: nat, ops: seq<Op>, i: nat, j: nat, k: nat)
    requires c.Usable() && 0 < i
    requires SentAt(c, newTx, interval, ops, i - 1, j) && SentAt(c, newTx, interval, ops, i, k)
    ensures j < k
  {
    hide Run;
    if k <= j {
      BlocksGrow(c, newTx, interval, ops, k + 1, j + 1);
    }
  }

  /**
   * Sequence agreement, exactly, for every block of a run: the receiver takes the glitch branch
   * for the first one if and only if more than one NTB was discarded before it (modulo 2^16); for
   * a later one, if and only if NTBs were discarded between the steps `j` and `k` that sent the
   * two, other than a multiple of 2^16 of them (or 2^16 - 1 of them after number 0). Discards
   * says which steps discard.
   */
  lemma GlitchExactly(c: Cfg, newTx: nat, interval: nat, ops: seq<Op>, i: nat) returns (j: nat, k: nat)
    requires c.Workable() && Sanitised(c) && i < |Run(c, newTx, interval, ops).blocks|
    ensures SentAt(c, newTx, interval, ops, i, k)
    ensures if i == 0 then j == 0 else j < k && SentAt(c, newTx, interval, ops, i - 1, j)
    ensures var blocks := Run(c, newTx, interval, ops).blocks;
            var between := Discarding(c, newTx, interval, ops[..k]) - Discarding(c, newTx, interval, ops[..j]);
            Glitch(Previous(blocks, i), blocks[i].ntb.seqno) <==> Complains(i, Previous(blocks, i), between)
  {
    hide Run, Glitch, Complains, Previous;
    k := SentSomewhere(c, newTx, interval, ops, i);
    j := 0;
    if i > 0 {
      j := SentSomewhere(c, newTx, interval, ops, i - 1);
      SentInOrder(c, newTx, interval, ops, i, j, k);
    }
    GlitchBetween(c, newTx, interval, ops, i, j, k);
  }

  lemma NoGlitchAt(s: Sys, i: nat)
    requires SeqInv(s) && i < |s.blocks| && s.discarded == 0
    ensures s.blocks[i].ntb.seqno == i % 0x1_0000
    ensures !Glitch(Previous(s.blocks, i), s.blocks[i].ntb.seqno)
  {
    if i > 0 {
      assert s.blocks[i - 1].ntb.seqno == (i - 1) % 0x1_0000;
      hide Glitch;
      GapIff(i - 1, i, 0);
    }
  }

  /** In a run in which no NTB is discarded the receiver never complains, through every wrap. */
  lemma SequenceAgreement(c: Cfg, newTx: nat, interval: nat, ops: seq<Op>, i: nat)
    requires c.Usable() && i < |Run(c, newTx, interval, ops).blocks|
    requires Run(c, newTx, interval, ops).discarded == 0
    ensures var s := Run(c, newTx, interval, ops);
            && s.blocks[i].ntb.seqno == i % 0x1_0000
            && !Glitch(Previous(s.blocks, i), s.blocks[i].ntb.seqno)
  {
    hide Run, Glitch, Previous;
    RunSeq(c, newTx, interval, ops);
    NoGlitchAt(Run(c, newTx, interval, ops), i);
  }

  /** Raising tx_max while nothing is pending throws a numbered NTB away: the next one has a gap in front of it. */
  lemma IdleUpdateDiscards(c: Cfg, s: Sys, newTx: nat, small: bool)
    requires c.Usable() && s.tx.lowVal == 0 && s.tx.curr.None? && s.tx.rem.None?
    requires PaddedTxMax(c, newTx) > s.tx.txMax
    ensures var s' := UpdateStep(c, s, newTx, true, true, small);
            && s'.discarded == s.discarded + 1
            && s'.tx.seqno == (s.tx.seqno + 1) % 0x1_0000
            && s'.blocks == s.blocks
  {
    hide PaddedTxMax, NewMinTxPkt, NewNtb;
  }

  // ----- a run in which the receiver complains -----

  const SHORT: Op := Submit(1, [], true, true)

  /** An idle context without coalescing. */
  ghost predicate Prompt(c: Cfg, s: Sys)
    requires c.Usable()
  {
    StartsIn(c, s.tx, true, s.tx.txMax) && s.tx.interval == 0 && !Hopeless(c, s.tx.txMax, c.fmt.NthLen())
  }

  lemma PromptSends(c: Cfg, s: Sys)
    requires c.Valid() && Sanitised(c) && Prompt(c, s)
    ensures var s' := Step(c, s, SHORT);
            && Prompt(c, s') && s'.tx.txMax == s.tx.txMax && s'.tx.seqno == (s.tx.seqno + 1) % 0x1_0000
            && |s'.blocks| == |s.blocks| + 1 && s.blocks <= s'.blocks
            && s'.blocks[|s.blocks|].ntb.seqno == s.tx.seqno
  {
    hide FillTxFrame, Threshold, DelayedSig;
    FirstCall(c, s.tx, NewPkt(s, 1, []), true, s.tx.txMax);
    FillSeq(c, s.tx, Some(NewPkt(s, 1, [])), true, true);
  }

  lemma PromptUpdates(c: Cfg, s: Sys, newer: nat)
    requires c.Valid() && Sanitised(c) && Prompt(c, s) && PaddedTxMax(c, newer) > s.tx.txMax
    ensures var s' := Step(c, s, UpdateTxMax(newer, true, true, true));
            && Prompt(c, s') && s'.tx.seqno == (s.tx.seqno + 1) % 0x1_0000
            && s'.blocks == s.blocks
  {
    hide PaddedTxMax, NewMinTxPkt, NewNtb, Threshold, DelayedSig;
    IdleUpdateDiscards(c, s, newer, true);
  }

  lemma ThreeSteps(c: Cfg, newTx: nat, interval: nat, a: Op, b: Op, d: Op)
    requires c.Usable()
    ensures Run(c, newTx, interval, [a, b, d]) == Step(c, Step(c, Step(c, Init(c, newTx, interval), a), b), d)
  {
    hide Step, Init;
    RunTwice(c, newTx, interval, a, b);
    assert [a, b, d][..2] == [a, b];
  }

  /** A frame, a larger tx_max and another frame: the receiver complains about the second NTB. */
  lemma GlitchHappens(c: Cfg, newTx: nat, newer: nat)
    requires c.Valid() && Sanitised(c) && !Hopeless(c, PaddedTxMax(c, newTx), c.fmt.NthLen())
    requires PaddedTxMax(c, newer) > PaddedTxMax(c, newTx)
    ensures var blocks := Run(c, newTx, 0, [SHORT, UpdateTxMax(newer, true, true, true), SHORT]).blocks;
            |blocks| == 2 && Glitch(Previous(blocks, 1), blocks[1].ntb.seqno)
  {
    hide Step, PaddedTxMax, NewMinTxPkt, Threshold, DelayedSig, Run;
    InitStarts(c, newTx, 0, true, PaddedTxMax(c, newTx));
    var s := Init(c, newTx, 0);
    var update := UpdateTxMax(newer, true, true, true);
    ThreeSteps(c, newTx, 0, SHORT, update, SHORT);
    PromptSends(c, s);
    PromptUpdates(c, Step(c, s, SHORT), newer);
    PromptSends(c, Step(c, Step(c, s, SHORT), update));
  }
}
