/**
 * Every step of the transmitter keeps the representation of NcmLayout, and what is sent is
 * a complete chain of tables, whether the tables stand inline or at the end.
 */
module NcmEncode {
  import opened Bytes
  import opened Options
  import opened NcmFormat
  import opened NcmTx
  import opened NcmLayout

  /** The delayed table lists `es`, or it is unused and lists nothing. */
  ghost predicate DelayedHolds(c: Cfg, delayed: seq<Byte>, es: seq<Entry>) {
    var sig := DelayedSig(delayed);
    && |delayed| == c.MaxNdp()
    && (sig == 0 ==> es == [] && delayed == Zeros(c.MaxNdp()))
    && (sig != 0 ==> NdpAt(c, delayed, 0, sig, 0, es))
    && (forall k | 0 <= k < |es| :: es[k].pkt.sig == sig)
  }

  /** An NTB whose table waits for the end. */
  ghost predicate Waiting(c: Cfg, ntb: Ntb, delayed: seq<Byte>) {
    && ntb.ndps == []
    && HeaderAt(c.fmt, ntb.bytes, ntb.seqno)
    && Payloads(c.fmt, ntb)
    && DelayedHolds(c, delayed, ntb.placed)
    && (DelayedSig(delayed) == 0 ==> FirstAt(c.fmt, ntb.bytes, 0))
  }

  /** The form an NTB under construction has. */
  ghost predicate Built(c: Cfg, ntb: Ntb, delayed: seq<Byte>) {
    if c.toEnd then Waiting(c, ntb, delayed) else Chained(c, ntb)
  }

  // ----- inline tables -----

  lemma NewNtbChained(c: Cfg, seqno: nat)
    requires c.Valid()
    ensures Chained(c, NewNtb(c.fmt, seqno))
  {
    var f := c.fmt;
    var b0 := Zeros(f.NthLen());
    var b1 := Patch(b0, 0, Le(4, f.NthSign()));
    var b2 := Patch(b1, 4, Le(2, f.NthLen()));
    var b3 := Patch(b2, 6, Le(2, seqno));
    assert Agree(b2, b3, 0, 6) && Agree(b1, b2, 0, 4);
    AgreeSlice(b2, b3, 0, 6, 4, 6);
    AgreeSlice(b1, b3, 0, 4, 0, 4);
    ZeroField(f.Width());
    assert b3[f.NdpIndexAt()..f.NdpIndexAt() + f.Width()] == Zeros(f.Width());
  }

  /** A store into table `j` touches no other table, no frame and not the header. */
  lemma EntryOutside(c: Cfg, ntb: Ntb, j: nat, k: nat, index: nat, length: nat)
    requires Chained(c, ntb) && j < |ntb.ndps| && k < c.maxDatagrams
    ensures var r := WriteEntry(c.fmt, ntb.bytes, ntb.ndps[j].off, k, index, length);
            && Agree(ntb.bytes, r, 0, ntb.ndps[j].off)
            && Agree(ntb.bytes, r, ntb.ndps[j].off + c.MaxNdp(), |ntb.bytes|)
  {
    hide WriteEntry;
    EntriesAreLinear(c.fmt, k, k);
    EntriesAreLinear(c.fmt, k + 1, c.maxDatagrams + 1);
    WriteEntryBytes(c.fmt, ntb.bytes, ntb.ndps[j].off, k, index, length);
  }

  /** The NTB after `pkt` was entered into table `j` and appended. */
  function WithFrame(c: Cfg, ntb: Ntb, j: nat, pkt: Pkt): Ntb
    requires j < |ntb.ndps|
  {
    var b := WriteEntry(c.fmt, ntb.bytes, ntb.ndps[j].off, |Sub(ntb.placed, pkt.sig)|, |ntb.bytes|, |pkt.data|);
    ntb.(bytes := b + pkt.data, placed := ntb.placed + [Entry(|ntb.bytes|, pkt)])
  }

  lemma WithFrameTables(c: Cfg, ntb: Ntb, j: nat, pkt: Pkt)
    requires Chained(c, ntb) && j < |ntb.ndps| && ntb.ndps[j].sig == pkt.sig
    requires |ntb.placed| < c.maxDatagrams
    ensures Tables(c, WithFrame(c, ntb, j, pkt))
  {
    hide WriteEntry, NdpAt, Payloads, Sub;
    var r := WithFrame(c, ntb, j, pkt);
    var k := |Sub(ntb.placed, pkt.sig)|;
    var b := WriteEntry(c.fmt, ntb.bytes, ntb.ndps[j].off, k, |ntb.bytes|, |pkt.data|);
    var e := Entry(|ntb.bytes|, pkt);
    assert TableAt(c, ntb, j);
    WriteEntryAt(c, ntb.bytes, ntb.ndps[j].off, pkt.sig, NextOf(ntb.ndps, j), Sub(ntb.placed, pkt.sig), e);
    EntryOutside(c, ntb, j, k, |ntb.bytes|, |pkt.data|);
    forall i | 0 <= i < |r.ndps|
      ensures TableAt(c, r, i)
    {
      var ndp := ntb.ndps[i];
      var next := NextOf(ntb.ndps, i);
      var es := Sub(r.placed, ndp.sig);
      SubAppend(ntb.placed, e, ndp.sig);
      assert TableAt(c, ntb, i);
      if i != j {
        assert ndp.sig != pkt.sig;
        NdpAtAgree(c, ntb.bytes, b, ndp.off, ndp.sig, next, es);
      }
      NdpAtAgree(c, b, r.bytes, ndp.off, ndp.sig, next, es);
    }
  }

  lemma WithFrameHeader(c: Cfg, ntb: Ntb, j: nat, pkt: Pkt)
    requires Chained(c, ntb) && j < |ntb.ndps| && |ntb.placed| < c.maxDatagrams
    ensures var r := WithFrame(c, ntb, j, pkt);
            && HeaderAt(c.fmt, r.bytes, r.seqno)
            && FirstAt(c.fmt, r.bytes, FirstNdp(r.ndps))
  {
    hide WriteEntry, Payloads, Tables, Apart, Signatures, HeaderAt, FirstAt;
    var r := WithFrame(c, ntb, j, pkt);
    EntryOutside(c, ntb, j, |Sub(ntb.placed, pkt.sig)|, |ntb.bytes|, |pkt.data|);
    assert Agree(ntb.bytes, r.bytes, 0, ntb.ndps[j].off);
    WholeHeaderAgree(c.fmt, ntb.bytes, r.bytes, ntb.seqno, FirstNdp(ntb.ndps));
  }

  /** The frames of an NTB and one more that was appended. */
  lemma PayloadsAppend(f: Format, ntb: Ntb, b: seq<Byte>, pkt: Pkt)
    requires Payloads(f, ntb.(bytes := b)) && f.NthLen() <= |ntb.bytes|
    requires |b| == |ntb.bytes| + |pkt.data| && b[|ntb.bytes|..] == pkt.data
    ensures Payloads(f, ntb.(bytes := b, placed := ntb.placed + [Entry(|ntb.bytes|, pkt)]))
  {
    forall k | 0 <= k < |ntb.placed|
      ensures PayloadAt(f, b, ntb.placed[k])
    {
      assert PayloadAt(f, ntb.(bytes := b).bytes, ntb.placed[k]);
    }
    assert b[|ntb.bytes|..|ntb.bytes| + |pkt.data|] == b[|ntb.bytes|..];
  }

  lemma WithFramePayloads(c: Cfg, ntb: Ntb, j: nat, pkt: Pkt)
    requires Chained(c, ntb) && j < |ntb.ndps| && |ntb.placed| < c.maxDatagrams
    ensures Payloads(c.fmt, WithFrame(c, ntb, j, pkt))
  {
    hide WriteEntry, Tables, Signatures, FirstAt, Payloads;
    var f := c.fmt;
    var r := WithFrame(c, ntb, j, pkt);
    EntryOutside(c, ntb, j, |Sub(ntb.placed, pkt.sig)|, |ntb.bytes|, |pkt.data|);
    PayloadsBound(f, ntb);
    forall k | 0 <= k < |ntb.placed|
      ensures Agree(ntb.bytes, r.bytes, ntb.placed[k].off, ntb.placed[k].off + |ntb.placed[k].pkt.data|)
    {
      assert Clear(c, ntb.ndps[j], ntb.placed[k]);
    }
    PayloadsAgree(f, ntb, r.bytes);
    PayloadsAppend(f, ntb, r.bytes, pkt);
  }

  lemma WithFrameApart(c: Cfg, ntb: Ntb, j: nat, pkt: Pkt)
    requires Chained(c, ntb) && j < |ntb.ndps|
    ensures Apart(c, ntb.ndps, WithFrame(c, ntb, j, pkt).placed)
  {
    hide WriteEntry, Tables, Signatures, FirstAt, Payloads, HeaderAt;
    var r := WithFrame(c, ntb, j, pkt);
    forall i, k | 0 <= i < |r.ndps| && 0 <= k < |r.placed|
      ensures Clear(c, r.ndps[i], r.placed[k])
    {
      if k < |ntb.placed| {
        assert Clear(c, ntb.ndps[i], ntb.placed[k]);
      }
    }
  }

  lemma SignaturesAppend(ntb: Ntb, r: Ntb, j: nat, e: Entry)
    requires Signatures(ntb.ndps, ntb.placed) && j < |ntb.ndps| && ntb.ndps[j].sig == e.pkt.sig
    requires r.ndps == ntb.ndps && r.placed == ntb.placed + [e]
    ensures Signatures(r.ndps, r.placed)
  {
    forall k | 0 <= k < |r.placed|
      ensures exists i :: 0 <= i < |r.ndps| && r.ndps[i].sig == r.placed[k].pkt.sig
    {
      if k == |ntb.placed| {
        assert r.ndps[j].sig == r.placed[k].pkt.sig;
      } else {
        assert r.placed[k] == ntb.placed[k];
      }
    }
  }

  lemma WithFrameChained(c: Cfg, ntb: Ntb, j: nat, pkt: Pkt)
    requires Chained(c, ntb) && j < |ntb.ndps| && ntb.ndps[j].sig == pkt.sig
    requires |ntb.placed| < c.maxDatagrams
    ensures Chained(c, WithFrame(c, ntb, j, pkt))
  {
    hide Tables, HeaderAt, FirstAt, Payloads, Apart, WriteEntry, Signatures;
    WithFrameTables(c, ntb, j, pkt);
    WithFrameHeader(c, ntb, j, pkt);
    WithFramePayloads(c, ntb, j, pkt);
    WithFrameApart(c, ntb, j, pkt);
    SignaturesAppend(ntb, WithFrame(c, ntb, j, pkt), j, Entry(|ntb.bytes|, pkt));
  }

  // ----- a table that waits for the end -----

  lemma WaitingAppend(c: Cfg, ntb: Ntb, delayed: seq<Byte>, tail: seq<Byte>)
    requires Waiting(c, ntb, delayed)
    ensures Waiting(c, ntb.(bytes := ntb.bytes + tail), delayed)
  {
    hide DelayedHolds;
    var f := c.fmt;
    var b := ntb.bytes + tail;
    HeaderAgree(f, ntb.bytes, b, ntb.seqno);
    PayloadsBound(f, ntb);
    PayloadsAgree(f, ntb, b);
    AgreeSlice(ntb.bytes, b, 0, |ntb.bytes|, f.NdpIndexAt(), f.NdpIndexAt() + f.Width());
  }

  /** What is stored in the index field of the header does not matter until the end. */
  lemma WaitingIndex(c: Cfg, ntb: Ntb, delayed: seq<Byte>, delayed': seq<Byte>, index: nat)
    requires Waiting(c, ntb, delayed)
    requires DelayedHolds(c, delayed', ntb.placed) && DelayedSig(delayed') != 0
    ensures var r := Patch(ntb.bytes, c.fmt.NdpIndexAt(), Le(c.fmt.Width(), index));
            Waiting(c, ntb.(bytes := r), delayed')
  {
    hide DelayedHolds;
    var f := c.fmt;
    var r := Patch(ntb.bytes, f.NdpIndexAt(), Le(f.Width(), index));
    HeaderAgree(f, ntb.bytes, r, ntb.seqno);
    PayloadsBound(f, ntb);
    PayloadsAgree(f, ntb, r);
  }

  lemma SigOfTable(c: Cfg, b: seq<Byte>, sig: nat, next: nat, es: seq<Entry>)
    requires NdpAt(c, b, 0, sig, next, es) && sig < 0x1_0000_0000
    ensures DelayedSig(b) == sig
  {
    Capacities();
    FieldRoundTrip(4, sig);
    EntriesAreLinear(c.fmt, 0, c.maxDatagrams + 1);
  }

  lemma OpenDelayed(c: Cfg, delayed: seq<Byte>, sig: nat)
    requires DelayedHolds(c, delayed, []) && DelayedSig(delayed) == 0
    requires 0 < sig < 0x1_0000_0000
    ensures var d := OpenNdp(c.fmt, delayed, 0, sig);
            DelayedHolds(c, d, []) && DelayedSig(d) == sig
  {
    OpenNdpAt(c, delayed, 0, sig);
    SigOfTable(c, OpenNdp(c.fmt, delayed, 0, sig), sig, 0, []);
  }

  lemma WriteDelayed(c: Cfg, delayed: seq<Byte>, es: seq<Entry>, e: Entry)
    requires DelayedHolds(c, delayed, es) && DelayedSig(delayed) == e.pkt.sig
    requires 0 < e.pkt.sig < 0x1_0000_0000 && |es| < c.maxDatagrams
    ensures var d := WriteEntry(c.fmt, delayed, 0, |es|, e.off, |e.pkt.data|);
            DelayedHolds(c, d, es + [e]) && DelayedSig(d) == e.pkt.sig
  {
    hide WriteEntry;
    WriteEntryAt(c, delayed, 0, e.pkt.sig, 0, es, e);
    SigOfTable(c, WriteEntry(c.fmt, delayed, 0, |es|, e.off, |e.pkt.data|), e.pkt.sig, 0, es + [e]);
  }

  lemma {:induction false} SubAll(placed: seq<Entry>, sig: nat)
    requires forall k | 0 <= k < |placed| :: placed[k].pkt.sig == sig
    ensures Sub(placed, sig) == placed
  {
    if placed != [] {
      SubAll(placed[..|placed| - 1], sig);
    }
  }

  lemma WaitingFrame(c: Cfg, ntb: Ntb, delayed: seq<Byte>, pkt: Pkt)
    requires Waiting(c, ntb, delayed) && DelayedSig(delayed) == pkt.sig
    requires 0 < pkt.sig < 0x1_0000_0000 && |ntb.placed| < c.maxDatagrams
    ensures var r := AddFrame(c, Lookup(ntb, delayed, InDelayed), pkt);
            Waiting(c, r.ntb, r.delayed)
  {
    var e := Entry(|ntb.bytes|, pkt);
    SubAll(ntb.placed, pkt.sig);
    WriteDelayed(c, delayed, ntb.placed, e);
    WaitingAppend(c, ntb, delayed, pkt.data);
    PayloadsAppend(c.fmt, ntb, ntb.bytes + pkt.data, pkt);
    hide DelayedHolds, WriteEntry, Sub, Payloads;
  }

  // ----- one frame -----

  /** A frame the driver accepts: see ValidOp. */
  ghost predicate ValidPkt(c: Cfg, pkt: Pkt) {
    0 < pkt.sig < 0x1_0000_0000 && c.fmt.Addressable(|pkt.data|)
  }

  lemma BuiltAppend(c: Cfg, ntb: Ntb, delayed: seq<Byte>, tail: seq<Byte>)
    requires Built(c, ntb, delayed)
    ensures Built(c, ntb.(bytes := ntb.bytes + tail), delayed)
  {
    if c.toEnd {
      WaitingAppend(c, ntb, delayed, tail);
    } else {
      ChainedAppend(c, ntb, tail);
    }
  }

  lemma GetNdpWaiting(c: Cfg, cap: nat, ntb: Ntb, delayed: seq<Byte>, sig: nat, reserve: nat)
    requires c.Valid() && c.toEnd && Waiting(c, ntb, delayed) && 0 < sig < 0x1_0000_0000
    ensures var r := GetNdp(c, cap, ntb, delayed, sig, reserve);
            && Waiting(c, r.ntb, r.delayed)
            && !r.slot.InNtb?
            && (r.slot.InDelayed? ==> DelayedSig(r.delayed) == sig)
  {
    if DelayedSig(delayed) == 0 {
      assert ntb.placed == [];
      OpenDelayed(c, delayed, sig);
      WaitingIndex(c, ntb, delayed, OpenNdp(c.fmt, delayed, 0, sig), |ntb.bytes|);
    }
    hide Waiting, OpenNdp, Patch, HasRoom;
  }

  lemma GetNdpChained(c: Cfg, cap: nat, ntb: Ntb, delayed: seq<Byte>, sig: nat, reserve: nat)
    requires c.Valid() && !c.toEnd && Chained(c, ntb) && 0 < sig < 0x1_0000_0000
    ensures var r := GetNdp(c, cap, ntb, delayed, sig, reserve);
            && Chained(c, r.ntb)
            && r.delayed == delayed
            && !r.slot.InDelayed?
  {
    hide Chained, OpenNdp, Patch, HasRoom, AlignPad, LinkAt;
    if FindNdp(ntb.ndps, sig, 0) == |ntb.ndps| {
      var pad := Zeros(AlignPad(|ntb.bytes|, c.ndpModulus, 0, cap));
      ChainedAppend(c, ntb, pad);
      WithTableChained(c, ntb.(bytes := ntb.bytes + pad), sig);
    }
  }

  lemma PrepareBuilt(c: Cfg, cap: nat, ntb: Ntb, delayed: seq<Byte>, pkt: Pkt)
    requires c.Valid() && Built(c, ntb, delayed) && ValidPkt(c, pkt)
    ensures var r := Prepare(c, cap, ntb, delayed, pkt);
            && Built(c, r.ntb, r.delayed)
            && (r.slot.InNtb? ==> !c.toEnd)
            && (r.slot.InDelayed? ==> c.toEnd && DelayedSig(r.delayed) == pkt.sig)
  {
    hide GetNdp, Waiting, Chained;
    var reserve := |pkt.data| + c.modulus + c.remainder;
    var look := GetNdp(c, cap, ntb, delayed, pkt.sig, reserve);
    if c.toEnd {
      GetNdpWaiting(c, cap, ntb, delayed, pkt.sig, reserve);
    } else {
      GetNdpChained(c, cap, ntb, delayed, pkt.sig, reserve);
    }
    BuiltAppend(c, look.ntb, look.delayed, Zeros(AlignPad(|look.ntb.bytes|, c.modulus, c.remainder, cap)));
  }

  lemma AddFrameBuilt(c: Cfg, look: Lookup, pkt: Pkt)
    requires Built(c, look.ntb, look.delayed) && ValidPkt(c, pkt) && |look.ntb.placed| < c.maxDatagrams
    requires look.slot != NoSlot
    requires look.slot.InNtb? ==> !c.toEnd && look.slot.j < |look.ntb.ndps| && look.ntb.ndps[look.slot.j].sig == pkt.sig
    requires look.slot.InDelayed? ==> c.toEnd && DelayedSig(look.delayed) == pkt.sig
    ensures var r := AddFrame(c, look, pkt);
            Built(c, r.ntb, r.delayed)
  {
    hide Waiting, Chained, WriteEntry;
    if c.toEnd {
      WaitingFrame(c, look.ntb, look.delayed, pkt);
    } else {
      WithFrameChained(c, look.ntb, look.slot.j, pkt);
    }
  }

  // ----- the loop -----

  ghost predicate LoopBuilt(c: Cfg, cap: nat, l: Loop) {
    && Built(c, l.ntb, l.delayed)
    && |l.ntb.bytes| <= cap
    && (l.skb.Some? ==> ValidPkt(c, l.skb.value))
    && (l.rem.Some? ==> ValidPkt(c, l.rem.value))
  }

  lemma IterateBuilt(c: Cfg, cap: nat, l: Loop, pkt: Pkt)
    requires c.Valid() && LoopBuilt(c, cap, l) && NextSkb(l) == Some(pkt)
    requires |l.ntb.placed| < c.maxDatagrams
    ensures LoopBuilt(c, cap, Iterate(c, cap, l, pkt).0)
  {
    hide Built, ValidPkt;
    hide Prepare;
    hide AddFrame;
    var look := Prepare(c, cap, l.ntb, l.delayed, pkt);
    PrepareBuilt(c, cap, l.ntb, l.delayed, pkt);
    if Fits(c, cap, look, pkt) {
      AddFrameBuilt(c, look, pkt);
    }
  }

  lemma {:induction false} FillLoopBuilt(c: Cfg, cap: nat, l: Loop)
    requires c.Valid() && LoopBuilt(c, cap, l) && |l.ntb.placed| == l.n <= c.maxDatagrams
    ensures var l' := FillLoop(c, cap, l);
            LoopBuilt(c, cap, l') && |l'.ntb.placed| <= c.maxDatagrams
    decreases c.maxDatagrams - l.n
  {
    hide Iterate, LoopBuilt;
    if l.n < c.maxDatagrams && NextSkb(l).Some? {
      var pkt := NextSkb(l).value;
      var (l', more) := Iterate(c, cap, l, pkt);
      IterateBuilt(c, cap, l, pkt);
      IterateCounts(c, cap, l, pkt);
      if more {
        FillLoopBuilt(c, cap, l');
      }
    }
  }

  lemma IterateCounts(c: Cfg, cap: nat, l: Loop, pkt: Pkt)
    requires c.Valid() && |l.ntb.placed| == l.n
    ensures var (l', more) := Iterate(c, cap, l, pkt);
            && |l'.ntb.placed| <= |l.ntb.placed| + 1
            && (more ==> |l'.ntb.placed| == l'.n == l.n + 1)
  {
    hide Prepare, Fits, AddFrame;
  }

  // ----- sending -----

  lemma SliceShift(pre: seq<Byte>, b: seq<Byte>, lo: nat, hi: nat)
    requires lo <= hi <= |b|
    ensures (pre + b)[|pre| + lo..|pre| + hi] == b[lo..hi]
  {
  }

  lemma EntriesShift(f: Format, pre: seq<Byte>, b: seq<Byte>, at: nat, es: seq<Entry>)
    requires EntriesAt(f, b, at, es)
    ensures EntriesAt(f, pre + b, |pre| + at, es)
  {
    forall k | 0 <= k < |es|
      ensures EntryAt(f, pre + b, |pre| + at + f.Entries(k), es[k])
    {
      var p := at + f.Entries(k);
      assert EntryAt(f, b, p, es[k]);
      SliceShift(pre, b, p, p + f.Width());
      SliceShift(pre, b, p + f.Width(), p + 2 * f.Width());
    }
  }

  lemma NdpAtShift(c: Cfg, pre: seq<Byte>, b: seq<Byte>, sig: nat, next: nat, es: seq<Entry>)
    requires NdpAt(c, b, 0, sig, next, es)
    ensures NdpAt(c, pre + b, |pre|, sig, next, es)
  {
    hide Le, EntriesAt;
    var f := c.fmt;
    EntriesAreLinear(f, |es|, c.maxDatagrams);
    SliceShift(pre, b, 0, 4);
    SliceShift(pre, b, 4, 6);
    SliceShift(pre, b, f.NextAt(), f.NextAt() + f.Width());
    EntriesShift(f, pre, b, f.NdpLen(), es);
    assert forall i | |pre| <= i < |pre + b| :: (pre + b)[i] == b[i - |pre|];
  }

  lemma MoveNdpBytes(c: Cfg, cap: nat, ntb: Ntb, delayed: seq<Byte>)
    requires c.Valid() && Waiting(c, ntb, delayed) && DelayedSig(delayed) != 0
    ensures var r := MoveNdp(c, cap, ntb, delayed);
            && HeaderAt(c.fmt, r.bytes, r.seqno)
            && FirstAt(c.fmt, r.bytes, FirstNdp(r.ndps))
            && Payloads(c.fmt, r)
  {
    hide DelayedHolds, NdpAt;
    var f := c.fmt;
    var tail := Zeros(AlignPad(|ntb.bytes|, c.ndpModulus, 0, cap - c.MaxNdp()));
    var b := ntb.bytes + tail;
    var p := Patch(b, f.NdpIndexAt(), Le(f.Width(), |b|));
    var r := MoveNdp(c, cap, ntb, delayed);
    WaitingAppend(c, ntb, delayed, tail);
    WaitingIndex(c, ntb.(bytes := b), delayed, delayed, |b|);
    WaitingAppend(c, ntb.(bytes := p), delayed, delayed);
    assert r.bytes == p + delayed;
    AgreeSlice(p, r.bytes, 0, |p|, f.NdpIndexAt(), f.NdpIndexAt() + f.Width());
  }

  lemma MoveNdpTable(c: Cfg, cap: nat, ntb: Ntb, delayed: seq<Byte>)
    requires c.Valid() && Waiting(c, ntb, delayed) && DelayedSig(delayed) != 0
    ensures Tables(c, MoveNdp(c, cap, ntb, delayed))
  {
    hide NdpAt, Payloads, AlignTail, HeaderAt, FirstAt;
    var f := c.fmt;
    var b := AlignTail(ntb.bytes, c.ndpModulus, 0, cap - c.MaxNdp());
    NdpAtShift(c, Patch(b, f.NdpIndexAt(), Le(f.Width(), |b|)), delayed, DelayedSig(delayed), 0, ntb.placed);
    SubAll(ntb.placed, DelayedSig(delayed));
    assert TableAt(c, MoveNdp(c, cap, ntb, delayed), 0);
  }

  /** A table at the end makes the NTB a complete chain of one table. */
  lemma MoveNdpChained(c: Cfg, cap: nat, ntb: Ntb, delayed: seq<Byte>)
    requires c.Valid() && Waiting(c, ntb, delayed) && DelayedSig(delayed) != 0
    ensures Chained(c, MoveNdp(c, cap, ntb, delayed))
  {
    var tail := Zeros(AlignPad(|ntb.bytes|, c.ndpModulus, 0, cap - c.MaxNdp()));
    MoveNdpBytes(c, cap, ntb, delayed);
    MoveNdpTable(c, cap, ntb, delayed);
    MoveNdpLayout(c, ntb, delayed, tail, MoveNdp(c, cap, ntb, delayed));
    hide Waiting, Tables, HeaderAt, FirstAt, Payloads, Ordered, Apart, Signatures, MoveNdp;
  }

  lemma SigBound(delayed: seq<Byte>)
    ensures DelayedSig(delayed) < 0x1_0000_0000
  {
    Capacities();
    if |delayed| >= 4 {
      FieldBound(delayed[0..4]);
    }
  }

  lemma MoveNdpLayout(c: Cfg, ntb: Ntb, delayed: seq<Byte>, tail: seq<Byte>, r: Ntb)
    requires Waiting(c, ntb, delayed) && DelayedSig(delayed) != 0
    requires r.placed == ntb.placed && |r.bytes| == |ntb.bytes| + |tail| + c.MaxNdp()
    requires r.ndps == [NdpRef(|ntb.bytes| + |tail|, DelayedSig(delayed))]
    ensures Ordered(c, r.ndps, |r.bytes|) && Apart(c, r.ndps, r.placed) && Signatures(r.ndps, r.placed)
  {
    hide NdpAt, Payloads;
    PayloadsBound(c.fmt, ntb);
    SigBound(delayed);
    assert r.ndps[0].sig == DelayedSig(delayed);
  }

  /** The block length is stored where nothing else is. */
  lemma BlockLengthChained(c: Cfg, ntb: Ntb, len: nat)
    requires Chained(c, ntb)
    ensures Chained(c, ntb.(bytes := Patch(ntb.bytes, c.fmt.BlockLengthAt(), Le(c.fmt.Width(), len))))
  {
    hide Patch, NdpAt, Payloads;
    var f := c.fmt;
    var r := Patch(ntb.bytes, f.BlockLengthAt(), Le(f.Width(), len));
    var n2 := ntb.(bytes := r);
    HeaderAgree(f, ntb.bytes, r, ntb.seqno);
    assert Agree(ntb.bytes, r, f.NdpIndexAt(), f.NthLen());
    AgreeSlice(ntb.bytes, r, f.NdpIndexAt(), f.NthLen(), f.NdpIndexAt(), f.NdpIndexAt() + f.Width());
    PayloadsBound(f, ntb);
    assert Agree(ntb.bytes, r, f.NthLen(), |r|);
    PayloadsAgree(f, ntb, r);
    forall j | 0 <= j < |ntb.ndps|
      ensures TableAt(c, n2, j)
    {
      assert TableAt(c, ntb, j);
      var sig := ntb.ndps[j].sig;
      NdpAtAgree(c, ntb.bytes, r, ntb.ndps[j].off, sig, NextOf(ntb.ndps, j), Sub(ntb.placed, sig));
    }
  }

  /** What is sent is a complete chain that lists every frame of the NTB. */
  lemma FinishChained(c: Cfg, cap: nat, minTxPkt: nat, ntb: Ntb, delayed: seq<Byte>)
    requires c.Valid() && Built(c, ntb, delayed) && ntb.placed != []
    ensures var r := Finish(c, cap, minTxPkt, ntb, delayed);
            Chained(c, r) && r.placed == ntb.placed && r.seqno == ntb.seqno
  {
    hide Chained, MoveNdp;
    var moved := if c.toEnd then MoveNdp(c, cap, ntb, delayed) else ntb;
    if c.toEnd {
      MoveNdpChained(c, cap, ntb, delayed);
    }
    var tail := Zeros(TailPad(c, cap, minTxPkt, |moved.bytes|));
    ChainedAppend(c, moved, tail);
    BlockLengthChained(c, moved.(bytes := moved.bytes + tail), |moved.bytes + tail|);
  }
}