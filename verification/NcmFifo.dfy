/**
 * No frame is lost silently and none overtakes another: over every run, the frames that were
 * handed to usbnet, followed by those still held, are the submitted ones without the dropped ones.
 */
module NcmFifo {
  import opened Bytes
  import opened Options
  import opened NcmFormat
  import opened NcmTx
  import opened NcmSystem

  function Pkts(placed: seq<Entry>): (r: seq<Pkt>)
    ensures |r| == |placed|
    ensures forall i | 0 <= i < |placed| :: r[i] == placed[i].pkt
  {
    seq(|placed|, i requires 0 <= i < |placed| => placed[i].pkt)
  }

  function Opt(p: Option<Pkt>): seq<Pkt> {
    if p.Some? then [p.value] else []
  }

  /** The frames the driver holds, oldest first. */
  function Held(t: Tx): seq<Pkt> {
    (if t.curr.Some? then Pkts(t.curr.value.placed) else []) + Opt(t.rem)
  }

  function Sent(blocks: seq<Block>): seq<Pkt> {
    if blocks == [] then []
    else Sent(blocks[..|blocks| - 1]) + Pkts(blocks[|blocks| - 1].ntb.placed)
  }

  function DropIds(drops: seq<Drop>): set<nat> {
    set d | d in drops :: d.pkt.id
  }

  /** The frames of `q` whose id is not in `gone`, in the same order. */
  function Keep(q: seq<Pkt>, gone: set<nat>): (r: seq<Pkt>)
    ensures |r| <= |q|
  {
    if q == [] then []
    else
      var rest := Keep(q[..|q| - 1], gone);
      var last := q[|q| - 1];
      if last.id in gone then rest else rest + [last]
  }

  ghost predicate Distinct(q: seq<Pkt>) {
    forall i, j | 0 <= i < j < |q| :: q[i].id != q[j].id
  }

  // ----- the filter -----

  lemma {:induction false} KeepConcat(a: seq<Pkt>, b: seq<Pkt>, gone: set<nat>)
    ensures Keep(a + b, gone) == Keep(a, gone) + Keep(b, gone)
  {
    if b == [] {
      assert a + b == a;
    } else {
      var b' := b[..|b| - 1];
      KeepConcat(a, b', gone);
      assert (a + b)[..|a + b| - 1] == a + b';
    }
  }

  lemma {:induction false} KeepAll(q: seq<Pkt>, gone: set<nat>)
    requires forall p | p in q :: p.id !in gone
    ensures Keep(q, gone) == q
  {
    if q != [] {
      KeepAll(q[..|q| - 1], gone);
      assert q[|q| - 1] in q;
    }
  }

  lemma {:induction false} KeepTwice(q: seq<Pkt>, gone: set<nat>, more: set<nat>)
    ensures Keep(Keep(q, gone), more) == Keep(q, gone + more)
  {
    if q != [] {
      var rest := q[..|q| - 1];
      KeepTwice(rest, gone, more);
      KeepConcat(Keep(rest, gone), [q[|q| - 1]], more);
      assert Keep([], more) == [];
      assert Keep([q[|q| - 1]], more) == if q[|q| - 1].id in more then [] else [q[|q| - 1]];
    }
  }

  lemma {:induction false} KeepIncreasing(q: seq<Pkt>, gone: set<nat>)
    requires forall i | 0 <= i < |q| :: q[i].id == i
    ensures forall i | 0 <= i < |Keep(q, gone)| :: Keep(q, gone)[i].id < |q|
    ensures Distinct(Keep(q, gone))
    ensures forall p | p in Keep(q, gone) :: p.id !in gone
  {
    if q != [] {
      KeepIncreasing(q[..|q| - 1], gone);
    }
  }

  lemma KeepOne(a: seq<Pkt>, p: Pkt, b: seq<Pkt>)
    requires Distinct(a + [p] + b)
    ensures Keep(a + [p] + b, {p.id}) == a + b
  {
    var q := a + [p] + b;
    assert q[|a|] == p;
    assert forall i | 0 <= i < |a| :: q[i] == a[i];
    assert forall i | 0 <= i < |b| :: q[|a| + 1 + i] == b[i];
    KeepConcat(a + [p], b, {p.id});
    KeepConcat(a, [p], {p.id});
    KeepAll(a, {p.id});
    KeepAll(b, {p.id});
    assert Keep([], {p.id}) == [];
    assert Keep([p], {p.id}) == [];
  }

  // ----- one call of cdc_ncm_fill_tx_frame -----

  function LoopOrder(l: Loop): seq<Pkt> {
    Pkts(l.ntb.placed) + Opt(l.skb) + Opt(l.rem)
  }

  /** What an iteration does with its frame: place it, drop it, or keep it for the next NTB. */
  ghost predicate Placed(l: Loop, pkt: Pkt, l': Loop) {
    && Pkts(l'.ntb.placed) == Pkts(l.ntb.placed) + [pkt]
    && l'.rem == NextRem(l) && l'.drops == l.drops
  }

  ghost predicate Refused(l: Loop, pkt: Pkt, l': Loop) {
    && l.n == 0
    && l'.n == 0
    && l'.ntb.placed == l.ntb.placed
    && l'.rem == NextRem(l) && l'.drops == l.drops + [Drop(pkt, NoRoom)]
  }

  ghost predicate Postponed(l: Loop, pkt: Pkt, l': Loop) {
    && l.n > 0
    && l'.n == l.n
    && l'.ready
    && l'.ntb.placed == l.ntb.placed
    && l'.rem == Some(pkt)
    && l'.drops == if NextRem(l).Some? then l.drops + [Drop(NextRem(l).value, Replaced)] else l.drops
  }

  lemma IterateShape(c: Cfg, cap: nat, l: Loop, pkt: Pkt, l': Loop, more: bool)
    requires c.Workable() && (l', more) == Iterate(c, cap, l, pkt)
    ensures l'.skb.None? && (l.ready ==> l'.ready)
    ensures more ==> Placed(l, pkt, l') && l'.n == l.n + 1 && l'.ready == l.ready
    ensures !more && !Refused(l, pkt, l') && !Postponed(l, pkt, l')
            ==> Placed(l, pkt, l') && l'.ready && l'.n == l.n && |Sub(l.ntb.placed, pkt.sig)| >= c.dptMax
  {
    hide Prepare, Fits;
    var look := Prepare(c, cap, l.ntb, l.delayed, pkt);
    if Fits(c, cap, look, pkt) {
      assert Pkts(AddFrame(c, look, pkt).ntb.placed) == Pkts(l.ntb.placed) + [pkt];
    }
  }

  /** The frames of `after` are those of `before` without the dropped ones. */
  ghost predicate Conserved(before: seq<Pkt>, after: seq<Pkt>, drops: seq<Drop>) {
    && after == Keep(before, DropIds(drops))
    && forall d | d in drops :: d.pkt in before
  }

  lemma ConservedNone(q: seq<Pkt>)
    ensures Conserved(q, q, [])
  {
    KeepAll(q, DropIds([]));
  }

  lemma ConservedOne(a: seq<Pkt>, p: Pkt, b: seq<Pkt>, r: Reason)
    requires Distinct(a + [p] + b)
    ensures Conserved(a + [p] + b, a + b, [Drop(p, r)])
  {
    assert DropIds([Drop(p, r)]) == {p.id};
    KeepOne(a, p, b);
    assert (a + [p] + b)[|a|] == p;
  }

  lemma PostponedOrder(l: Loop, pkt: Pkt, l': Loop)
    requires l.drops == [] && NextSkb(l) == Some(pkt) && Distinct(LoopOrder(l))
    requires l'.skb.None? && Postponed(l, pkt, l')
    ensures Conserved(LoopOrder(l), LoopOrder(l'), l'.drops)
  {
    var a := Pkts(l.ntb.placed) + [pkt];
    var rem := NextRem(l);
    assert LoopOrder(l) == a + Opt(rem);
    assert LoopOrder(l') == a;
    if rem.Some? {
      assert a + Opt(rem) == a + [rem.value] + [];
      ConservedOne(a, rem.value, [], Replaced);
      assert a + [] == a && l'.drops == [Drop(rem.value, Replaced)];
    } else {
      ConservedNone(a);
      assert a + Opt(rem) == a;
    }
  }

  lemma IterateOrder(l: Loop, pkt: Pkt, l': Loop)
    requires l.drops == [] && NextSkb(l) == Some(pkt) && Distinct(LoopOrder(l))
    requires l'.skb.None? && (Placed(l, pkt, l') || Refused(l, pkt, l') || Postponed(l, pkt, l'))
    ensures Conserved(LoopOrder(l), LoopOrder(l'), l'.drops)
    ensures Placed(l, pkt, l') ==> LoopOrder(l') == LoopOrder(l)
  {
    var a := Pkts(l.ntb.placed);
    var rem := Opt(NextRem(l));
    assert LoopOrder(l) == a + [pkt] + rem;
    if Placed(l, pkt, l') {
      assert LoopOrder(l') == a + [pkt] + rem;
      ConservedNone(LoopOrder(l));
    } else if Refused(l, pkt, l') {
      assert LoopOrder(l') == a + rem && l'.drops == [Drop(pkt, NoRoom)];
      ConservedOne(a, pkt, rem, NoRoom);
    } else {
      PostponedOrder(l, pkt, l');
    }
  }

  lemma {:induction false} FillLoopOrder(c: Cfg, cap: nat, l: Loop)
    requires c.Workable() && l.drops == []
    requires Distinct(LoopOrder(l))
    ensures var l' := FillLoop(c, cap, l);
            && (l'.skb.Some? ==> l'.drops == [])
            && Conserved(LoopOrder(l), LoopOrder(l'), l'.drops)
    decreases c.maxDatagrams - l.n
  {
    hide Iterate;
    if l.n >= c.maxDatagrams || NextSkb(l).None? {
      ConservedNone(LoopOrder(l));
    } else {
      var pkt := NextSkb(l).value;
      var (l', more) := Iterate(c, cap, l, pkt);
      IterateShape(c, cap, l, pkt, l', more);
      IterateOrder(l, pkt, l');
      if more {
        FillLoopOrder(c, cap, l');
      }
    }
  }

  /** What leaves the driver in one call, followed by what it then holds. */
  function After(f: Filled): seq<Pkt> {
    (if f.out.Some? then Pkts(f.out.value.ntb.placed) else []) + Held(f.tx)
  }

  /** The end of a call passes the frames on; a frame the loop never looked at is dropped. */
  lemma ConcludeOrder(c: Cfg, t: Tx, l: Loop)
    requires c.Workable() && Distinct(LoopOrder(l))
    ensures var f := Conclude(c, t, l);
            && (l.skb.None? ==> f.drops == l.drops && After(f) == LoopOrder(l))
            && (l.skb.Some? && l.drops == [] ==> Conserved(LoopOrder(l), After(f), f.drops))
  {
    var a := Pkts(l.ntb.placed);
    var f := Conclude(c, t, l);
    assert After(f) == a + Opt(l.rem);
    if l.skb.Some? {
      assert LoopOrder(l) == a + [l.skb.value] + Opt(l.rem);
      ConservedOne(a, l.skb.value, Opt(l.rem), Dangling);
      assert l.drops == [] ==> f.drops == [Drop(l.skb.value, Dangling)];
    } else {
      assert LoopOrder(l) == a + Opt(l.rem);
    }
  }

  lemma LoopAndConclude(c: Cfg, t: Tx, l: Loop)
    requires c.Workable() && l.drops == [] && Distinct(LoopOrder(l))
    ensures var f := Conclude(c, t, FillLoop(c, t.currSize, l));
            Conserved(LoopOrder(l), After(f), f.drops)
  {
    hide Conclude;
    hide FillLoop;
    FillLoopOrder(c, t.currSize, l);
    var l' := FillLoop(c, t.currSize, l);
    KeepDistinct(LoopOrder(l), DropIds(l'.drops));
    ConcludeOrder(c, t, l');
    if l'.skb.Some? {
      KeepAll(LoopOrder(l), DropIds([]));
    }
  }

  /** One call keeps the order and loses exactly the frames it reports as dropped. */
  lemma FillOrder(c: Cfg, t: Tx, skb: Option<Pkt>, full: bool, small: bool)
    requires c.Workable() && Distinct(Held(t) + Opt(skb))
    ensures var f := FillTxFrame(c, t, skb, full, small);
            Conserved(Held(t) + Opt(skb), After(f), f.drops)
  {
    hide FillLoop, Conclude, NewNtb, Conserved;
    var first := SwapSkb(t, skb);
    var rem := SwapRem(t, skb);
    var got := Obtain(c, t, first, full, small);
    var q := Held(t) + Opt(skb);
    if got.ntb.Some? {
      var l := LoopStart(got.tx, got.ntb.value, first, rem, skb.None?);
      assert LoopOrder(l) == q;
      LoopAndConclude(c, got.tx, l);
    } else {
      assert q == [] + Opt(first) + Opt(rem);
      assert After(FillTxFrame(c, t, skb, full, small)) == [] + Opt(rem);
      if first.Some? {
        ConservedOne([], first.value, Opt(rem), AllocFailed);
      } else {
        ConservedNone(q);
      }
    }
  }

  lemma {:induction false} KeepDistinct(q: seq<Pkt>, gone: set<nat>)
    requires Distinct(q)
    ensures Distinct(Keep(q, gone))
    ensures forall p | p in Keep(q, gone) :: p in q
  {
    if q != [] {
      KeepDistinct(q[..|q| - 1], gone);
      assert forall p | p in q[..|q| - 1] :: p in q && p.id != q[|q| - 1].id;
    }
  }

  // ----- runs -----

  /** The number of frames in the NTB in progress is kept in tx_curr_frame_num. */
  ghost predicate Counted(t: Tx) {
    t.curr.Some? ==> |t.curr.value.placed| == t.frameNum
  }

  ghost predicate FifoInv(s: Sys) {
    && Counted(s.tx)
    && (forall i | 0 <= i < |s.submitted| :: s.submitted[i].id == i)
    && (forall d | d in s.drops :: d.pkt in s.submitted)
    && Sent(s.blocks) + Held(s.tx) == Keep(s.submitted, DropIds(s.drops))
  }

  lemma {:induction false} FillLoopCounted(c: Cfg, cap: nat, l: Loop)
    requires c.Workable() && |l.ntb.placed| == l.n
    ensures var l' := FillLoop(c, cap, l);
            |l'.ntb.placed| == l'.n || (l'.ready && l'.n >= c.dptMax && |l'.ntb.placed| == l'.n + 1)
    decreases c.maxDatagrams - l.n
  {
    if l.n < c.maxDatagrams && NextSkb(l).Some? {
      var pkt := NextSkb(l).value;
      if Iterate(c, cap, l, pkt).1 {
        FillLoopCounted(c, cap, Iterate(c, cap, l, pkt).0);
      }
    }
  }

  /** After a flush an NTB can only be left over empty. */
  lemma FillCounted(c: Cfg, t: Tx, skb: Option<Pkt>, full: bool, small: bool)
    requires c.Workable() && Counted(t)
    ensures Counted(FillTxFrame(c, t, skb, full, small).tx)
    ensures var t' := FillTxFrame(c, t, skb, full, small).tx;
            skb.None? && t'.curr.Some? ==> t'.curr.value.placed == []
  {
    hide FillLoop, NewNtb, Finish;
    var first := SwapSkb(t, skb);
    var got := Obtain(c, t, first, full, small);
    if got.ntb.Some? {
      var l := LoopStart(got.tx, got.ntb.value, first, SwapRem(t, skb), skb.None?);
      FillLoopCounted(c, got.tx.currSize, l);
      ReadyStays(c, got.tx.currSize, l);
    }
  }

  lemma {:induction false} ReadyStays(c: Cfg, cap: nat, l: Loop)
    requires c.Workable()
    ensures l.ready ==> FillLoop(c, cap, l).ready
    decreases c.maxDatagrams - l.n
  {
    if l.n < c.maxDatagrams && NextSkb(l).Some? {
      var pkt := NextSkb(l).value;
      if Iterate(c, cap, l, pkt).1 {
        ReadyStays(c, cap, Iterate(c, cap, l, pkt).0);
      }
    }
  }

  /** The bookkeeping of a call, for a history that already contains the new frame. */
  lemma RecordFifo(c: Cfg, s: Sys, q: seq<Pkt>, f: Filled)
    requires forall i | 0 <= i < |s.submitted| :: s.submitted[i].id == i
    requires forall d | d in s.drops :: d.pkt in s.submitted
    requires Sent(s.blocks) + q == Keep(s.submitted, DropIds(s.drops))
    requires Conserved(q, After(f), f.drops)
    ensures var s' := Record(s, f);
            && (forall d | d in s'.drops :: d.pkt in s'.submitted)
            && Sent(s'.blocks) + Held(s'.tx) == Keep(s'.submitted, DropIds(s'.drops))
  {
    var s' := Record(s, f);
    var gone := DropIds(s.drops);
    var lost := DropIds(f.drops);
    var sent := Sent(s.blocks);
    KeepIncreasing(s.submitted, gone);
    KeepMembers(s.submitted, gone);
    assert DropIds(s'.drops) == gone + lost;
    forall d | d in f.drops
      ensures d.pkt in s.submitted
    {
      assert d.pkt in sent + q;
    }
    forall p | p in sent
      ensures p.id !in lost
    {
      var i :| 0 <= i < |sent| && sent[i] == p;
      forall d | d in f.drops
        ensures d.pkt.id != p.id
      {
        var j :| 0 <= j < |q| && q[j] == d.pkt;
        assert (sent + q)[i] == p && (sent + q)[|sent| + j] == d.pkt;
      }
    }
    calc {
      Keep(s'.submitted, DropIds(s'.drops));
      { KeepTwice(s.submitted, gone, lost); }
      Keep(sent + q, lost);
      { KeepConcat(sent, q, lost); KeepAll(sent, lost); }
      sent + After(f);
      { SentRecord(s, f); }
      Sent(s'.blocks) + Held(s'.tx);
    }
  }

  lemma SentRecord(s: Sys, f: Filled)
    ensures Sent(Record(s, f).blocks) + Held(f.tx) == Sent(s.blocks) + After(f)
  {
    var blocks := Record(s, f).blocks;
    if f.out.Some? {
      assert blocks[..|blocks| - 1] == s.blocks;
    } else {
      assert blocks == s.blocks;
    }
  }

  lemma {:induction false} KeepMembers(q: seq<Pkt>, gone: set<nat>)
    ensures forall p | p in Keep(q, gone) :: p in q
  {
    if q != [] {
      KeepMembers(q[..|q| - 1], gone);
      assert forall p | p in q[..|q| - 1] :: p in q;
    }
  }

  lemma SubmitFifo(c: Cfg, s: Sys, sig: nat, data: seq<Byte>, full: bool, small: bool)
    requires c.Workable() && FifoInv(s)
    ensures FifoInv(SubmitStep(c, s, sig, data, full, small))
  {
    var pkt := NewPkt(s, sig, data);
    var gone := DropIds(s.drops);
    var s1 := s.(submitted := s.submitted + [pkt]);
    var q := Held(s.tx) + Opt(Some(pkt));
    assert pkt.id !in gone;
    assert s1.submitted[..|s1.submitted| - 1] == s.submitted;
    assert Sent(s.blocks) + q == Sent(s.blocks) + Held(s.tx) + [pkt];
    assert Sent(s.blocks) + q == Keep(s1.submitted, gone);
    KeepIncreasing(s1.submitted, gone);
    DistinctTail(Sent(s.blocks), q);
    FillOrder(c, s.tx, Some(pkt), full, small);
    FillCounted(c, s.tx, Some(pkt), full, small);
    RecordFifo(c, s1, q, FillTxFrame(c, s.tx, Some(pkt), full, small));
  }

  lemma DistinctTail(a: seq<Pkt>, b: seq<Pkt>)
    requires Distinct(a + b)
    ensures Distinct(b)
  {
    assert forall i | 0 <= i < |b| :: (a + b)[|a| + i] == b[i];
  }

  lemma FlushFifo(c: Cfg, s: Sys, full: bool, small: bool)
    requires c.Workable() && FifoInv(s)
    ensures FifoInv(Flush(c, s, full, small))
    ensures Flush(c, s, full, small).tx.curr.Some? ==> Flush(c, s, full, small).tx.curr.value.placed == []
  {
    var q := Held(s.tx) + Opt(None);
    assert q == Held(s.tx);
    KeepIncreasing(s.submitted, DropIds(s.drops));
    DistinctTail(Sent(s.blocks), q);
    FillOrder(c, s.tx, None, full, small);
    FillCounted(c, s.tx, None, full, small);
    RecordFifo(c, s, q, FillTxFrame(c, s.tx, None, full, small));
  }

  lemma UpdateFifo(c: Cfg, s: Sys, newTx: nat, running: bool, full: bool, small: bool)
    requires c.Workable() && FifoInv(s)
    ensures FifoInv(UpdateStep(c, s, newTx, running, full, small))
  {
    hide Flush, PaddedTxMax, NewMinTxPkt;
    FlushFifo(c, s, full, small);
    var s1 := Flush(c, s, full, small);
    var s2 := UpdateStep(c, s, newTx, running, full, small);
    assert Held(s2.tx) == Held(s.tx) || Held(s2.tx) == Held(s1.tx);
  }

  lemma BhFifo(c: Cfg, s: Sys, full: bool, small: bool)
    requires c.Workable() && FifoInv(s)
    ensures FifoInv(BhStep(c, s, full, small))
  {
    hide Flush;
    FlushFifo(c, s.(bh := false), full, small);
  }

  lemma StepFifo(c: Cfg, s: Sys, op: Op)
    requires c.Workable() && FifoInv(s)
    ensures FifoInv(Step(c, s, op))
  {
    hide SubmitStep, BhStep, UpdateStep;
    match op
    case Submit(sig, data, full, small) => SubmitFifo(c, s, sig, data, full, small);
    case BhRuns(full, small) => BhFifo(c, s, full, small);
    case UpdateTxMax(newTx, running, full, small) => UpdateFifo(c, s, newTx, running, full, small);
    case _ =>
  }

  /**
   * FIFO conservation: after any run, the frames that were sent, then those in the NTB in
   * progress, then the remaining one, are exactly the submitted frames without the dropped
   * ones, in the order of submission.
   */
  lemma {:induction false} FifoConservation(c: Cfg, newTx: nat, interval: nat, ops: seq<Op>)
    requires c.Workable()
    ensures var s := Run(c, newTx, interval, ops);
            && Sent(s.blocks) + Held(s.tx) == Keep(s.submitted, DropIds(s.drops))
            && (forall d | d in s.drops :: d.pkt in s.submitted)
    ensures FifoInv(Run(c, newTx, interval, ops))
  {
    if ops != [] {
      FifoConservation(c, newTx, interval, ops[..|ops| - 1]);
      StepFifo(c, Run(c, newTx, interval, ops[..|ops| - 1]), ops[|ops| - 1]);
    }
  }
}
