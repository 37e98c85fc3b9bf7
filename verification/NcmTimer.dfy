/**
 * No frame is stranded: while the driver holds frames, its timer runs or its tasklet is
 * scheduled, and the tasklet sends them after a bounded number of rounds.
 */
module NcmTimer {
  import opened Bytes
  import opened Options
  import opened NcmFormat
  import opened NcmTx
  import opened NcmSystem
  import opened NcmFifo
  import opened NcmLoss

  /** The NTB in progress holds a frame, or a frame remains. */
  predicate Holding(t: Tx) {
    (t.curr.Some? && t.frameNum > 0) || t.rem.Some?
  }

  predicate NotStranded(s: Sys) {
    Holding(s.tx) ==> s.timer || s.bh
  }

  /** No buffer can be had for the NTB that a call has to start. */
  predicate AllocFails(c: Cfg, t: Tx, skb: Option<Pkt>, full: bool, small: bool) {
    Obtain(c, t, SwapSkb(t, skb), full, small).ntb.None?
  }

  /** The two situations in which a failed allocation leaves a frame behind that nothing will send. */
  predicate Strands(c: Cfg, s: Sys, op: Op) {
    match op
    case Submit(sig, data, full, small) =>
      AllocFails(c, s.tx, Some(NewPkt(s, sig, data)), full, small) && !s.timer && !s.bh
    case BhRuns(full, small) =>
      s.bh && s.tx.pending == 0 && s.tx.rem.Some? && !s.timer && AllocFails(c, s.tx, None, full, small)
    case _ => false
  }

  // ----- one call -----

  ghost predicate FlushLoop(c: Cfg, l: Loop) {
    l.skb.None? && l.ready && (l.rem.Some? ==> l.n == 0 < c.maxDatagrams)
  }

  lemma {:induction false} FillLoopFlushes(c: Cfg, cap: nat, l: Loop)
    requires c.Workable() && FlushLoop(c, l)
    ensures var l' := FillLoop(c, cap, l);
            l'.rem.None? && l'.skb.None? && l'.ready
    decreases c.maxDatagrams - l.n
  {
    hide Iterate;
    if l.n < c.maxDatagrams && NextSkb(l).Some? {
      var pkt := NextSkb(l).value;
      var (l', more) := Iterate(c, cap, l, pkt);
      IterateShape(c, cap, l, pkt, l', more);
      if more {
        FillLoopFlushes(c, cap, l');
      }
    }
  }

  /** A flush that gets a buffer sends or drops whatever there is. */
  lemma FlushEmpties(c: Cfg, t: Tx, full: bool, small: bool)
    requires c.Workable() && Sanitised(c) && LossInv(c, t) && !AllocFails(c, t, None, full, small)
    ensures !Holding(FillTxFrame(c, t, None, full, small).tx)
  {
    hide NewNtb, FillLoop, Finish;
    var got := Obtain(c, t, None, full, small);
    FillLoopFlushes(c, got.tx.currSize, LoopStart(got.tx, got.ntb.value, None, t.rem, true));
  }

  lemma {:induction false} FillLoopRemains(c: Cfg, cap: nat, l: Loop)
    requires c.Workable() && l.skb.None? && l.n < c.maxDatagrams
    requires l.n == 0
    ensures FillLoop(c, cap, l).rem.None?
  {
    hide Iterate;
    if NextSkb(l).Some? {
      var pkt := NextSkb(l).value;
      var (l', more) := Iterate(c, cap, l, pkt);
      IterateShape(c, cap, l, pkt, l', more);
    }
  }

  /** A call that leaves something behind starts the timer, or something was held before. */
  lemma FillStartsTimer(c: Cfg, t: Tx, pkt: Pkt, full: bool, small: bool)
    requires c.Workable() && Sanitised(c) && LossInv(c, t)
    ensures var f := FillTxFrame(c, t, Some(pkt), full, small);
            && (!AllocFails(c, t, Some(pkt), full, small) && Holding(f.tx) ==> f.startTimer || Holding(t))
            && (AllocFails(c, t, Some(pkt), full, small) ==> Holding(f.tx) && !f.startTimer)
  {
    hide NewNtb, FillLoop, Finish;
    var first := SwapSkb(t, Some(pkt));
    var got := Obtain(c, t, first, full, small);
    if got.ntb.Some? {
      var l := LoopStart(got.tx, got.ntb.value, first, Some(pkt), false);
      if !Holding(t) {
        FillLoopRemains(c, got.tx.currSize, l);
      }
    }
  }

  lemma FailedFlushHolds(c: Cfg, t: Tx, full: bool, small: bool)
    requires c.Usable() && AllocFails(c, t, None, full, small)
    ensures var f := FillTxFrame(c, t, None, full, small);
            f.tx.rem == t.rem && f.tx.curr.None? && t.curr.None? && !f.startTimer
  {
  }

  // ----- steps -----

  /**
   * No stranded frame, exactly: a step keeps the timer or the tasklet busy while frames are
   * held, unless it is one of the two failed allocations.
   */
  lemma StepNotStranded(c: Cfg, s: Sys, op: Op)
    requires c.Workable() && Sanitised(c) && LossInv(c, s.tx) && NotStranded(s)
    ensures NotStranded(Step(c, s, op)) <==> !Strands(c, s, op)
  {
    hide FillTxFrame, PaddedTxMax, NewMinTxPkt, AllocFails;
    match op
    case Submit(sig, data, full, small) =>
      FillStartsTimer(c, s.tx, NewPkt(s, sig, data), full, small);
    case BhRuns(full, small) =>
      if AllocFails(c, s.tx, None, full, small) {
        FailedFlushHolds(c, s.tx, full, small);
      } else {
        FlushEmpties(c, s.tx, full, small);
      }
    case UpdateTxMax(newTx, running, full, small) =>
      if AllocFails(c, s.tx, None, full, small) {
        FailedFlushHolds(c, s.tx, full, small);
      } else {
        FlushEmpties(c, s.tx, full, small);
      }
    case _ =>
  }

  /** No step of the run strands a frame. */
  ghost predicate NeverStrands(c: Cfg, newTx: nat, interval: nat, ops: seq<Op>)
    requires c.Usable()
  {
    forall i | 0 <= i < |ops| :: !Strands(c, Run(c, newTx, interval, ops[..i]), ops[i])
  }

  /** Over every run without those failures, frames that are held will be looked after. */
  lemma {:induction false} NoStrandedFrame(c: Cfg, newTx: nat, interval: nat, ops: seq<Op>)
    requires c.Workable() && Sanitised(c) && NeverStrands(c, newTx, interval, ops)
    ensures NotStranded(Run(c, newTx, interval, ops))
  {
    if ops == [] {
      hide PaddedTxMax, NewMinTxPkt;
    } else {
      var n := |ops| - 1;
      var before := ops[..n];
      forall i | 0 <= i < |before|
        ensures !Strands(c, Run(c, newTx, interval, before[..i]), before[i])
      {
        assert before[..i] == ops[..i];
      }
      NoStrandedFrame(c, newTx, interval, before);
      OnlyTwoLossSites(c, newTx, interval, before);
      assert !Strands(c, Run(c, newTx, interval, ops[..n]), ops[n]);
      StepNotStranded(c, Run(c, newTx, interval, before), ops[n]);
    }
  }

  /** Such a run: both allocations fail for the first frame, and no later expiry of a timer will send it. */
  lemma StrandHappens(c: Cfg, newTx: nat, interval: nat, data: seq<Byte>)
    requires c.Usable()
    ensures var s := Run(c, newTx, interval, [Submit(1, data, false, false)]);
            s.tx.rem == Some(Pkt(0, 1, data)) && !NotStranded(s)
  {
    var ops := [Submit(1, data, false, false)];
    assert ops[..0] == [];
    assert Run(c, newTx, interval, ops) == Step(c, Init(c, newTx, interval), ops[0]);
    hide PaddedTxMax, NewMinTxPkt, Run;
  }

  predicate AllocsSucceed(op: Op) {
    match op
    case Submit(_, _, full, small) => full && small
    case BhRuns(full, small) => full && small
    case UpdateTxMax(_, _, full, small) => full && small
    case _ => true
  }

  /** A run without failed allocations never strands a frame. */
  lemma NoFailureNoStrand(c: Cfg, newTx: nat, interval: nat, ops: seq<Op>)
    requires c.Workable() && Sanitised(c) && forall i | 0 <= i < |ops| :: AllocsSucceed(ops[i])
    ensures NotStranded(Run(c, newTx, interval, ops))
  {
    hide Run;
    forall i | 0 <= i < |ops|
      ensures !Strands(c, Run(c, newTx, interval, ops[..i]), ops[i])
    {
      assert AllocsSucceed(ops[i]);
    }
    NoStrandedFrame(c, newTx, interval, ops);
  }

  // ----- how long it takes -----

  /** The timer expires, if it runs, and then the tasklet runs. */
  function Round(c: Cfg, s: Sys): Sys
    requires c.Usable()
  {
    Step(c, Step(c, s, TimerFires), BhRuns(true, true))
  }

  function Rounds(c: Cfg, s: Sys, k: nat): Sys
    requires c.Usable()
    decreases k
  {
    if k == 0 then s else Rounds(c, Round(c, s), k - 1)
  }

  lemma QuietRound(c: Cfg, s: Sys)
    requires c.Workable() && Sanitised(c) && LossInv(c, s.tx) && (s.timer || s.bh)
    ensures var s' := Round(c, s);
            if s.tx.pending == 0 then !Holding(s'.tx)
            else s'.timer && s'.tx == s.tx.(pending := s.tx.pending - 1)
  {
    hide FillTxFrame;
    if s.tx.pending == 0 {
      FlushEmpties(c, s.tx, true, true);
    }
  }

  /** While the timer is looked after, tx_timer_pending + 1 rounds of timer and tasklet empty the driver. */
  lemma {:induction false} RoundsDrain(c: Cfg, s: Sys)
    requires c.Workable() && Sanitised(c) && LossInv(c, s.tx) && (s.timer || s.bh)
    ensures !Holding(Rounds(c, s, s.tx.pending + 1).tx)
    decreases s.tx.pending
  {
    hide Round;
    QuietRound(c, s);
    var s' := Round(c, s);
    if s.tx.pending > 0 {
      RoundsDrain(c, s');
    } else {
      assert Rounds(c, s', 0) == s';
    }
  }

  /** The timer expires, or the tasklet runs and gets a buffer if it needs one. */
  predicate Ticks(op: Op) {
    op.TimerFires? || (op.BhRuns? && AllocsSucceed(op))
  }

  ghost predicate AllTick(ops: seq<Op>) {
    forall i | 0 <= i < |ops| :: Ticks(ops[i])
  }

  /** How often the tasklet runs because it was scheduled. */
  function TaskletRuns(c: Cfg, s: Sys, ops: seq<Op>): nat
    requires c.Usable()
    decreases |ops|
  {
    if ops == [] then 0
    else (if ops[0].BhRuns? && s.bh then 1 else 0) + TaskletRuns(c, Step(c, s, ops[0]), ops[1..])
  }

  /** A tick leaves an empty driver empty, counts down, or empties it. */
  lemma TickDrains(c: Cfg, s: Sys, op: Op)
    requires c.Workable() && Sanitised(c) && LossInv(c, s.tx) && Ticks(op)
    ensures var s' := Step(c, s, op);
            && LossInv(c, s'.tx)
            && (!Holding(s.tx) ==> !Holding(s'.tx))
            && (op.BhRuns? && s.bh ==> !Holding(s'.tx) || s'.tx.pending + 1 == s.tx.pending)
            && (!(op.BhRuns? && s.bh) ==> s'.tx == s.tx)
  {
    hide FillTxFrame;
    if op.BhRuns? {
      FlushEmpties(c, s.tx, op.full, op.small);
      FillLoss(c, s.tx, None, op.full, op.small);
    }
  }

  /**
   * With no new frames and enough memory, however the expiries of the timer and the runs of the
   * tasklet follow on each other: tx_timer_pending + 1 runs of the tasklet empty the driver.
   */
  lemma {:induction false} DrainsInTime(c: Cfg, s: Sys, ops: seq<Op>)
    requires c.Workable() && Sanitised(c) && LossInv(c, s.tx) && AllTick(ops)
    requires !Holding(s.tx) || TaskletRuns(c, s, ops) > s.tx.pending
    ensures !Holding(StepAll(c, s, ops).tx)
    decreases |ops|
  {
    hide Step, LossInv, Holding;
    if ops != [] {
      TickDrains(c, s, ops[0]);
      DrainsInTime(c, Step(c, s, ops[0]), ops[1..]);
    }
  }

  /** While there is something to count down, a tick only does that, and the timer is restarted. */
  lemma TickWaits(c: Cfg, s: Sys, op: Op)
    requires c.Usable() && Ticks(op) && (op.BhRuns? && s.bh ==> s.tx.pending > 0)
    ensures var s' := Step(c, s, op);
            && s'.blocks == s.blocks && s'.drops == s.drops
            && s'.tx == s.tx.(pending := s.tx.pending - (if op.BhRuns? && s.bh then 1 else 0))
            && (s.timer || s.bh ==> s'.timer || s'.bh)
  {
    hide FillTxFrame;
  }

  /**
   * Nor is anything sent before: with no new frames, the first tx_timer_pending runs of the
   * tasklet leave the NTB in progress as it is.
   */
  lemma {:induction false} NotTooSoon(c: Cfg, s: Sys, ops: seq<Op>)
    requires c.Usable() && AllTick(ops) && TaskletRuns(c, s, ops) <= s.tx.pending
    ensures var s' := StepAll(c, s, ops);
            && s'.blocks == s.blocks && s'.drops == s.drops
            && s'.tx == s.tx.(pending := s.tx.pending - TaskletRuns(c, s, ops))
            && (s.timer || s.bh ==> s'.timer || s'.bh)
    decreases |ops|
  {
    hide Step;
    if ops != [] {
      TickWaits(c, s, ops[0]);
      NotTooSoon(c, Step(c, s, ops[0]), ops[1..]);
    }
  }

  /** How often the tasklet can still put off sending the NTB in progress. */
  function Budget(c: Cfg, t: Tx): nat {
    t.pending + Refills(c.pendingCnt, if t.frameNum + 1 < c.restartCnt then c.restartCnt - 1 - t.frameNum else 0)
  }

  /** `k` settings of the pending count to `p`. */
  function Refills(p: nat, k: nat): nat {
    if k == 0 then 0 else p + Refills(p, k - 1)
  }

  /** A step that only adds frames to the NTB in progress, or puts off sending it. */
  ghost predicate Extends(c: Cfg, s: Sys, op: Op)
    requires c.Usable()
  {
    && (op.Submit? || op.TimerFires? || op.BhRuns?)
    && Step(c, s, op).blocks == s.blocks
    && s.tx.curr.Some? && s.tx.frameNum > 0
    && Step(c, s, op).tx.curr.Some? && Step(c, s, op).tx.frameNum > 0
  }

  /** The tasklet runs and restarts the timer. */
  predicate PutsOff(s: Sys, op: Op) {
    op.BhRuns? && s.bh && s.tx.pending > 0
  }

  lemma {:induction false} FillLoopProgress(c: Cfg, cap: nat, l: Loop)
    requires c.Workable() && l.n > 0 && l.skb.None? && l.rem.Some? && l.n < c.maxDatagrams
    ensures FillLoop(c, cap, l).n > l.n || FillLoop(c, cap, l).ready
  {
    hide Iterate;
    var pkt := l.rem.value;
    var (l', more) := Iterate(c, cap, l, pkt);
    IterateShape(c, cap, l, pkt, l', more);
    if more {
      NeverFewer(c, cap, l');
    }
  }

  lemma {:induction false} NeverFewer(c: Cfg, cap: nat, l: Loop)
    requires c.Workable()
    ensures FillLoop(c, cap, l).n >= l.n
    decreases c.maxDatagrams - l.n
  {
    hide Iterate;
    if l.n < c.maxDatagrams && NextSkb(l).Some? {
      var pkt := NextSkb(l).value;
      var (l', more) := Iterate(c, cap, l, pkt);
      IterateShape(c, cap, l, pkt, l', more);
      if more {
        NeverFewer(c, cap, l');
      }
    }
  }

  lemma SubmitBudget(c: Cfg, t: Tx, pkt: Pkt, full: bool, small: bool)
    requires c.Workable() && Sanitised(c) && LossInv(c, t) && t.curr.Some? && t.frameNum > 0
    ensures var f := FillTxFrame(c, t, Some(pkt), full, small);
            f.out.None? && f.tx.curr.Some? && f.tx.frameNum > 0 ==> Budget(c, f.tx) <= Budget(c, t)
  {
    hide FillLoop, Finish;
    var l := LoopStart(t, t.curr.value, None, Some(pkt), false);
    FillLoopProgress(c, t.currSize, l);
    var l' := FillLoop(c, t.currSize, l);
    if t.frameNum < l'.n < c.restartCnt {
      FewerRefills(c.pendingCnt, c.restartCnt - l'.n, c.restartCnt - 1 - t.frameNum);
    }
  }

  lemma {:induction false} FewerRefills(p: nat, k: nat, n: nat)
    requires k <= n
    ensures Refills(p, k) <= Refills(p, n)
    decreases n
  {
    if k < n {
      FewerRefills(p, k, n - 1);
    }
  }

  lemma StepBudget(c: Cfg, s: Sys, op: Op)
    requires c.Workable() && Sanitised(c) && LossInv(c, s.tx) && Extends(c, s, op)
    ensures Budget(c, Step(c, s, op).tx) + (if PutsOff(s, op) then 1 else 0) <= Budget(c, s.tx)
  {
    match op
    case Submit(sig, data, full, small) =>
      SubmitBudget(c, s.tx, NewPkt(s, sig, data), full, small);
      SubmitRecords(c, s, sig, data, full, small);
      hide FillTxFrame;
    case BhRuns(full, small) =>
      FlushSends(c, s, full, small);
      hide FillTxFrame;
    case TimerFires =>
  }

  lemma SubmitRecords(c: Cfg, s: Sys, sig: nat, data: seq<Byte>, full: bool, small: bool)
    requires c.Usable()
    ensures SubmitStep(c, s, sig, data, full, small).blocks == s.blocks
            ==> FillTxFrame(c, s.tx, Some(NewPkt(s, sig, data)), full, small).out.None?
  {
    hide FillTxFrame;
  }

  /** A flush sends an NTB that holds frames. */
  lemma FlushSends(c: Cfg, s: Sys, full: bool, small: bool)
    requires c.Workable() && Sanitised(c) && LossInv(c, s.tx) && s.tx.curr.Some? && s.tx.frameNum > 0
    ensures s.bh && s.tx.pending == 0 ==> |Step(c, s, BhRuns(full, small)).blocks| == |s.blocks| + 1
  {
    hide FillLoop, Finish;
    FlushEmpties(c, s.tx, full, small);
    FillLoopFlushes(c, s.tx.currSize, LoopStart(s.tx, s.tx.curr.value, None, s.tx.rem, true));
    NeverFewer(c, s.tx.currSize, LoopStart(s.tx, s.tx.curr.value, None, s.tx.rem, true));
  }

  function StepAll(c: Cfg, s: Sys, ops: seq<Op>): Sys
    requires c.Usable()
    decreases |ops|
  {
    if ops == [] then s else StepAll(c, Step(c, s, ops[0]), ops[1..])
  }

  /** How often the tasklet puts off sending. */
  function Delays(c: Cfg, s: Sys, ops: seq<Op>): nat
    requires c.Usable()
    decreases |ops|
  {
    if ops == [] then 0
    else (if PutsOff(s, ops[0]) then 1 else 0) + Delays(c, Step(c, s, ops[0]), ops[1..])
  }

  ghost predicate AllExtend(c: Cfg, s: Sys, ops: seq<Op>)
    requires c.Usable()
    decreases |ops|
  {
    ops != [] ==> Extends(c, s, ops[0]) && AllExtend(c, Step(c, s, ops[0]), ops[1..])
  }

  /**
   * However many frames keep arriving, the tasklet puts off sending one NTB only a bounded
   * number of times: what is pending, and a restart for each of the first frames.
   */
  lemma {:induction false} DelaysAreBounded(c: Cfg, s: Sys, ops: seq<Op>)
    requires c.Workable() && Sanitised(c) && LossInv(c, s.tx) && OnlyTwoSites(s.drops) && AllExtend(c, s, ops)
    ensures Delays(c, s, ops) + Budget(c, StepAll(c, s, ops).tx) <= Budget(c, s.tx)
    decreases |ops|
  {
    hide Step, Extends, Budget;
    if ops != [] {
      StepBudget(c, s, ops[0]);
      StepLoss(c, s, ops[0]);
      DelaysAreBounded(c, Step(c, s, ops[0]), ops[1..]);
    }
  }

  // ----- one shot -----

  /** Starts and expiries of the timer, expiries that found the tasklet scheduled, and runs of the tasklet. */
  datatype Shots = Shots(starts: nat, expiries: nat, merged: nat, runs: nat)

  function Counted(c: Cfg, newTx: nat, interval: nat, ops: seq<Op>): Shots
    requires c.Usable()
  {
    if ops == [] then Shots(0, 0, 0, 0)
    else
      var before := ops[..|ops| - 1];
      Count(c, Run(c, newTx, interval, before), ops[|ops| - 1], Counted(c, newTx, interval, before))
  }

  function Count(c: Cfg, s: Sys, op: Op, t: Shots): Shots
    requires c.Usable()
  {
    Shots(t.starts + (if !s.timer && Step(c, s, op).timer then 1 else 0),
          t.expiries + (if op.TimerFires? && s.timer then 1 else 0),
          t.merged + (if op.TimerFires? && s.timer && s.bh then 1 else 0),
          t.runs + (if op.BhRuns? && s.bh then 1 else 0))
  }

  ghost predicate ShotsAdd(s: Sys, t: Shots) {
    t.starts == t.expiries + (if s.timer then 1 else 0) && t.expiries == t.merged + t.runs + (if s.bh then 1 else 0)
  }

  lemma StepShots(c: Cfg, s: Sys, op: Op, t: Shots)
    requires c.Usable() && ShotsAdd(s, t)
    ensures ShotsAdd(Step(c, s, op), Count(c, s, op, t))
  {
    hide FillTxFrame, PaddedTxMax, NewMinTxPkt;
  }

  /**
   * In every run, every start of the timer is good for one expiry, and every expiry for one run of
   * the tasklet, unless one is scheduled already.
   */
  lemma {:induction false} OneShot(c: Cfg, newTx: nat, interval: nat, ops: seq<Op>)
    requires c.Usable()
    ensures ShotsAdd(Run(c, newTx, interval, ops), Counted(c, newTx, interval, ops))
  {
    hide Step, Count, PaddedTxMax, NewMinTxPkt;
    if ops != [] {
      OneShot(c, newTx, interval, ops[..|ops| - 1]);
      StepShots(c, Run(c, newTx, interval, ops[..|ops| - 1]), ops[|ops| - 1],
                Counted(c, newTx, interval, ops[..|ops| - 1]));
    }
  }

  // ----- what moves the pending count -----

  lemma FlushKeepsPending(c: Cfg, t: Tx, full: bool, small: bool)
    requires c.Workable() && Sanitised(c) && LossInv(c, t)
    ensures FillTxFrame(c, t, None, full, small).tx.pending == t.pending
  {
    hide NewNtb, FillLoop, Finish;
    var got := Obtain(c, t, None, full, small);
    if got.ntb.Some? {
      FillLoopFlushes(c, got.tx.currSize, LoopStart(got.tx, got.ntb.value, None, t.rem, true));
    }
  }

  lemma CallPending(c: Cfg, t: Tx, pkt: Pkt, full: bool, small: bool)
    requires c.Usable()
    ensures var f := FillTxFrame(c, t, Some(pkt), full, small);
            f.tx.pending == t.pending || (f.startTimer && f.tx.pending == c.pendingCnt)
  {
    hide NewNtb, FillLoop, Finish;
  }

  /**
   * In every run: only a frame that is kept restarts the pending count, only a run of the tasklet
   * counts it down, and only a zero interval clears it; flushes and updates leave it alone.
   */
  lemma PendingMoves(c: Cfg, newTx: nat, interval: nat, ops: seq<Op>, op: Op)
    requires c.Workable() && Sanitised(c)
    ensures var s := Run(c, newTx, interval, ops);
            var s' := Step(c, s, op);
            match op
            case Submit(_, _, _, _) => s'.tx.pending == s.tx.pending || (s'.timer && s'.tx.pending == c.pendingCnt)
            case BhRuns(_, _) => s'.tx.pending == s.tx.pending - (if s.bh && s.tx.pending > 0 then 1 else 0)
            case SetInterval(interval) => s'.tx.pending == (if interval == 0 then 0 else s.tx.pending)
            case _ => s'.tx.pending == s.tx.pending
  {
    hide Run, FillTxFrame, PaddedTxMax, NewMinTxPkt, LoopsComplete;
    var s := Run(c, newTx, interval, ops);
    OnlyTwoLossSites(c, newTx, interval, ops);
    match op
    case Submit(sig, data, full, small) => CallPending(c, s.tx, NewPkt(s, sig, data), full, small);
    case BhRuns(full, small) => FlushKeepsPending(c, s.tx, full, small);
    case UpdateTxMax(_, _, full, small) => FlushKeepsPending(c, s.tx, full, small);
    case _ =>
  }
}
