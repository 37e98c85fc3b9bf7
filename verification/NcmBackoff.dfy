/**
 * The back-off after failed allocations: after each full-size failure, the driver makes do
 * with a growing number of small buffers before it tries a full one again.
 */
module NcmBackoff {
  import opened Options
  import opened NcmFormat
  import opened NcmTx
  import opened NcmSystem

  // ----- the counters of a run -----

  ghost predicate BackoffInv(t: Tx) {
    t.lowVal <= t.lowMax <= LOW_MEM_MAX_CNT
  }

  lemma FillBackoff(c: Cfg, t: Tx, skb: Option<Pkt>, full: bool, small: bool)
    requires c.Usable() && BackoffInv(t)
    ensures BackoffInv(FillTxFrame(c, t, skb, full, small).tx)
  {
    hide FillLoop, Finish, NewNtb;
  }

  lemma StepBackoff(c: Cfg, s: Sys, op: Op)
    requires c.Usable() && BackoffInv(s.tx)
    ensures BackoffInv(Step(c, s, op).tx)
  {
    hide FillTxFrame, PaddedTxMax, NewMinTxPkt;
    match op
    case Submit(sig, data, full, small) => FillBackoff(c, s.tx, Some(NewPkt(s, sig, data)), full, small);
    case BhRuns(full, small) => FillBackoff(c, s.tx, None, full, small);
    case UpdateTxMax(newTx, running, full, small) => FillBackoff(c, s.tx, None, full, small);
    case _ =>
  }

  /** Over every run, 0 <= tx_low_mem_val <= tx_low_mem_max_cnt <= 10. */
  lemma {:induction false} BackoffBounds(c: Cfg, newTx: nat, interval: nat, ops: seq<Op>)
    requires c.Usable()
    ensures var t := Run(c, newTx, interval, ops).tx;
            t.lowVal <= t.lowMax <= 10
  {
    if ops == [] {
      hide PaddedTxMax, NewMinTxPkt;
    } else {
      BackoffBounds(c, newTx, interval, ops[..|ops| - 1]);
      StepBackoff(c, Run(c, newTx, interval, ops[..|ops| - 1]), ops[|ops| - 1]);
    }
  }

  // ----- the lengths of the back-off -----

  /** Which allocations would succeed, for a call of cdc_ncm_fill_tx_frame. */
  datatype Call = Call(full: bool, small: bool)

  /** The call that a step makes, if it makes one. */
  function CallOf(c: Cfg, s: Sys, op: Op): Option<Call>
    requires c.Usable()
  {
    match op
    case Submit(_, _, full, small) => Some(Call(full, small))
    case BhRuns(full, small) => if s.bh && s.tx.pending == 0 then Some(Call(full, small)) else None
    case UpdateTxMax(newTx, running, full, small) =>
      if running && PaddedTxMax(c, newTx) > s.tx.txMax then Some(Call(full, small)) else None
    case _ => None
  }

  /** The step has to start an NTB. */
  predicate Starts(c: Cfg, s: Sys, op: Op)
    requires c.Usable()
  {
    CallOf(c, s, op).Some? && s.tx.curr.None?
  }

  /** A full-size allocation is tried. */
  predicate TriesFull(c: Cfg, s: Sys, op: Op)
    requires c.Usable()
  {
    Starts(c, s, op) && s.tx.lowVal == 0
  }

  /** The full-size allocation fails and back-off begins. */
  predicate Enters(c: Cfg, s: Sys, op: Op)
    requires c.Usable()
  {
    TriesFull(c, s, op) && !CallOf(c, s, op).value.full && s.tx.txMax != c.minOut
  }

  /** An NTB is started in a small buffer. */
  predicate GetsSmall(c: Cfg, s: Sys, op: Op)
    requires c.Usable()
  {
    Starts(c, s, op) && (s.tx.lowVal != 0 || Enters(c, s, op)) && CallOf(c, s, op).value.small
  }

  /** How often back-off was entered in a run, and how many small buffers there were since then. */
  datatype Tally = Tally(entered: nat, smalls: nat)

  function Count(c: Cfg, s: Sys, op: Op, t: Tally): Tally
    requires c.Usable()
  {
    Tally(t.entered + (if Enters(c, s, op) then 1 else 0),
          (if Enters(c, s, op) then 0 else t.smalls) + (if GetsSmall(c, s, op) then 1 else 0))
  }

  function Tallied(c: Cfg, newTx: nat, interval: nat, ops: seq<Op>): Tally
    requires c.Usable()
  {
    if ops == [] then Tally(0, 0)
    else
      var before := ops[..|ops| - 1];
      Count(c, Run(c, newTx, interval, before), ops[|ops| - 1], Tallied(c, newTx, interval, before))
  }

  ghost predicate TallyInv(tx: Tx, t: Tally) {
    tx.lowMax == Min(t.entered, LOW_MEM_MAX_CNT) && t.smalls + tx.lowVal == tx.lowMax
  }

  /** What a call does to the counters. */
  lemma FillTally(c: Cfg, t: Tx, skb: Option<Pkt>, full: bool, small: bool)
    requires c.Usable() && t.lowVal <= t.lowMax <= LOW_MEM_MAX_CNT
    ensures var t' := FillTxFrame(c, t, skb, full, small).tx;
            var enters := t.curr.None? && t.lowVal == 0 && !full && t.txMax != c.minOut;
            var small := t.curr.None? && (t.lowVal != 0 || enters) && small;
            && t'.lowMax == (if enters then Min(t.lowMax + 1, LOW_MEM_MAX_CNT) else t.lowMax)
            && t'.lowVal + (if small then 1 else 0) == (if enters then t'.lowMax else t.lowVal)
  {
    hide FillLoop, Finish, NewNtb;
  }

  lemma StepTally(c: Cfg, s: Sys, op: Op, t: Tally)
    requires c.Usable() && TallyInv(s.tx, t)
    ensures TallyInv(Step(c, s, op).tx, Count(c, s, op, t))
  {
    hide FillTxFrame, PaddedTxMax, NewMinTxPkt;
    match op
    case Submit(sig, data, full, small) => FillTally(c, s.tx, Some(NewPkt(s, sig, data)), full, small);
    case BhRuns(full, small) => FillTally(c, s.tx, None, full, small);
    case UpdateTxMax(newTx, running, full, small) => FillTally(c, s.tx, None, full, small);
    case _ =>
  }

  lemma {:induction false} RunTally(c: Cfg, newTx: nat, interval: nat, ops: seq<Op>)
    requires c.Usable()
    ensures TallyInv(Run(c, newTx, interval, ops).tx, Tallied(c, newTx, interval, ops))
  {
    if ops == [] {
      hide PaddedTxMax, NewMinTxPkt;
    } else {
      var before := ops[..|ops| - 1];
      RunTally(c, newTx, interval, before);
      StepTally(c, Run(c, newTx, interval, before), ops[|ops| - 1], Tallied(c, newTx, interval, before));
    }
  }

  /**
   * Back-off lengths, over every run: when a step tries a full-size allocation after back-off was
   * entered k times, exactly min(k, 10) small buffers were used since the last time; and a step
   * that starts an NTB tries the full size as soon as that many were used.
   */
  lemma BackoffLengths(c: Cfg, newTx: nat, interval: nat, ops: seq<Op>, op: Op)
    requires c.Usable()
    ensures var s := Run(c, newTx, interval, ops);
            var t := Tallied(c, newTx, interval, ops);
            && t.smalls <= Min(t.entered, 10)
            && (Starts(c, s, op) ==> (TriesFull(c, s, op) <==> t.smalls == Min(t.entered, 10)))
  {
    hide Run, Tallied, CallOf;
    RunTally(c, newTx, interval, ops);
  }

  // ----- the size of a buffer -----

  lemma CallSizes(c: Cfg, t: Tx, skb: Option<Pkt>, full: bool, small: bool)
    requires c.Usable() && t.curr.None?
    ensures FillTxFrame(c, t, skb, full, small).tx.currSize
            == if t.lowVal == 0 && (full || t.txMax == c.minOut) then t.txMax
               else if skb.Some? && t.rem.Some? && |t.rem.value.data| > c.minOut then |t.rem.value.data|
               else c.minOut
  {
    hide FillLoop, Finish, NewNtb;
  }

  /**
   * In every state, the size of the buffer that a step asks for last: tx_max, or, for a small one,
   * the smallest size unless a frame that remained is longer. The new frame is not what counts.
   */
  lemma BufferSizes(c: Cfg, s: Sys, op: Op)
    requires c.Usable() && Starts(c, s, op)
    ensures Step(c, s, op).tx.currSize
            == if s.tx.lowVal == 0 && (CallOf(c, s, op).value.full || s.tx.txMax == c.minOut) then s.tx.txMax
               else if op.Submit? && s.tx.rem.Some? && |s.tx.rem.value.data| > c.minOut then |s.tx.rem.value.data|
               else c.minOut
  {
    hide FillTxFrame, PaddedTxMax, NewMinTxPkt;
    match op
    case Submit(sig, data, full, small) => CallSizes(c, s.tx, Some(NewPkt(s, sig, data)), full, small);
    case BhRuns(full, small) => CallSizes(c, s.tx, None, full, small);
    case UpdateTxMax(newTx, running, full, small) => CallSizes(c, s.tx, None, full, small);
    case _ =>
  }
}
