/**
 * How the driver writes an NTB: buffers that are filled and patched in place, in which it finds
 * its way by reading back what it wrote. Every method is proved against the functions of NcmTx.
 */
module NcmWriter {
  import opened Bytes
  import opened NcmFormat
  import opened NcmTx
  import opened NcmLayout
  import opened NcmEncode
  import opened NcmBuffer

  /** The pointer that the table search returns. */
  datatype Handle = NoTable | Table(off: nat) | DelayedTable

  // ----- following the chain -----

  lemma ReadBack(b: seq<Byte>, off: nat, w: nat, v: nat)
    requires off + w <= |b| && v < Capacity(w) && b[off..off + w] == Le(w, v)
    ensures Field(b, off, w) == v
  {
    FieldRoundTrip(w, v);
  }

  /** What the header and table `j` say when they are read back. */
  lemma ChainReads(c: Cfg, ntb: Ntb)
    requires c.Valid() && Chained(c, ntb) && c.fmt.Addressable(|ntb.bytes|)
    ensures Field(ntb.bytes, c.fmt.NdpIndexAt(), c.fmt.Width()) == FirstNdp(ntb.ndps)
  {
    hide Tables, Payloads, Apart, Signatures;
    Capacities();
    OrderedOffsets(c, ntb);
    ReadBack(ntb.bytes, c.fmt.NdpIndexAt(), c.fmt.Width(), FirstNdp(ntb.ndps));
  }

  lemma OrderedOffsets(c: Cfg, ntb: Ntb)
    requires Chained(c, ntb) && c.fmt.Addressable(|ntb.bytes|)
    ensures forall j | 0 <= j < |ntb.ndps| :: 0 < ntb.ndps[j].off < (if c.fmt.Ntb16? then 0x1_0000 else 0x8000_0000)
    ensures forall j | 0 <= j < |ntb.ndps| :: ntb.ndps[j].off + c.MaxNdp() <= |ntb.bytes|
  {
    hide Tables, Payloads, Apart, Signatures, HeaderAt, FirstAt;
  }

  lemma TableReads(c: Cfg, ntb: Ntb, j: nat)
    requires c.Valid() && Chained(c, ntb) && c.fmt.Addressable(|ntb.bytes|) && j < |ntb.ndps|
    ensures var off := ntb.ndps[j].off;
            && 0 < off && off + c.MaxNdp() <= |ntb.bytes|
            && Field(ntb.bytes, off, 4) == ntb.ndps[j].sig
            && Field(ntb.bytes, off + c.fmt.NextAt(), c.fmt.Width()) == NextOf(ntb.ndps, j)
  {
    Capacities();
    OrderedOffsets(c, ntb);
    EntriesAreLinear(c.fmt, 0, c.maxDatagrams + 1);
    assert TableAt(c, ntb, j);
    var off := ntb.ndps[j].off;
    SigInRange(ntb, j);
    hide Tables, TableAt, Payloads, Apart, Signatures, HeaderAt, FirstAt, Ordered, EntriesAt, Sub, FromLe, Le;
    ReadBack(ntb.bytes, off, 4, ntb.ndps[j].sig);
    ReadBack(ntb.bytes, off + c.fmt.NextAt(), c.fmt.Width(), NextOf(ntb.ndps, j));
  }

  lemma SigInRange(ntb: Ntb, j: nat)
    requires Signatures(ntb.ndps, ntb.placed) && j < |ntb.ndps|
    ensures 0 < ntb.ndps[j].sig < 0x1_0000_0000
  {
  }

  /** The length field of a table tells how many entries it has. */
  lemma LengthReads(c: Cfg, b: seq<Byte>, off: nat, sig: nat, next: nat, es: seq<Entry>)
    requires c.Valid() && NdpAt(c, b, off, sig, next, es)
    ensures off + 6 <= |b|
    ensures Field(b, off + 4, 2) == c.fmt.NdpLen() + c.fmt.Entries(|es| + 1)
  {
    Capacities();
    EntriesAreLinear(c.fmt, |es|, c.maxDatagrams);
    EntriesAreLinear(c.fmt, 0, c.maxDatagrams + 1);
    ReadBack(b, off + 4, 2, c.fmt.NdpLen() + c.fmt.Entries(|es| + 1));
  }

  lemma {:induction false} FindNdpIs(ndps: seq<NdpRef>, sig: nat, from: nat, j: nat)
    requires from <= j <= |ndps| && (j < |ndps| ==> ndps[j].sig == sig)
    requires forall i | from <= i < j :: ndps[i].sig != sig
    ensures FindNdp(ndps, sig, from) == j
    decreases j - from
  {
    if from < j {
      FindNdpIs(ndps, sig, from + 1, j);
    }
  }

  /** An unused delayed table means that the header has no index yet. */
  lemma NoChainYet(c: Cfg, ntb: Ntb, delayed: seq<Byte>)
    requires Waiting(c, ntb, delayed) && DelayedSig(delayed) == 0
    ensures Field(ntb.bytes, c.fmt.NdpIndexAt(), c.fmt.Width()) == 0
  {
    hide DelayedHolds, Payloads;
    Capacities();
    ReadBack(ntb.bytes, c.fmt.NdpIndexAt(), c.fmt.Width(), 0);
  }

  // ----- stores into a table -----

  /** Writes the signature and the length of an empty table. */
  method OpenTable(f: Format, buf: Buffer, off: nat, sig: nat)
    requires buf.Valid() && off + 6 <= buf.len
    modifies buf.data
    ensures buf.Contents() == OpenNdp(f, old(buf.Contents()), off, sig)
  {
    buf.Store(off, Le(4, sig));
    buf.Store(off + 4, Le(2, f.NdpLen() + f.Entries(1)));
  }

  /** The number of the next entry, from the length of the table. */
  function EntryNumber(f: Format, ndplen: nat): int {
    if f.Ntb16? then (ndplen - f.NdpLen()) / 4 - 1 else (ndplen - f.NdpLen()) / 8 - 1
  }

  lemma EntryNumberOf(f: Format, k: nat)
    ensures EntryNumber(f, f.NdpLen() + f.Entries(k + 1)) == k
    ensures f.NdpLen() + f.Entries(k + 1) + f.Entries(1) == f.NdpLen() + f.Entries(k + 2)
  {
  }

  lemma EntryFits(c: Cfg, b: seq<Byte>, off: nat, sig: nat, next: nat, es: seq<Entry>)
    requires NdpAt(c, b, off, sig, next, es) && |es| < c.maxDatagrams
    ensures off + c.fmt.NdpLen() + c.fmt.Entries(|es|) + 2 * c.fmt.Width() <= |b| && off + 6 <= |b|
  {
    EntriesAreLinear(c.fmt, |es| + 1, c.maxDatagrams + 1);
    EntriesAreLinear(c.fmt, |es|, |es|);
  }

  /** Adds an entry to the table at `off`; returns its number. */
  method AddEntry(c: Cfg, buf: Buffer, off: nat, index: nat, length: nat,
                  ghost sig: nat, ghost next: nat, ghost es: seq<Entry>)
    returns (k: nat)
    requires c.Valid() && buf.Valid() && NdpAt(c, buf.Contents(), off, sig, next, es) && |es| < c.maxDatagrams
    modifies buf.data
    ensures k == |es|
    ensures buf.Contents() == WriteEntry(c.fmt, old(buf.Contents()), off, |es|, index, length)
  {
    hide NdpAt, Le, Patch, EntryNumber, Field, EntriesAt, Format.Entries, Buffer.Contents;
    var f := c.fmt;
    LengthReads(c, buf.Contents(), off, sig, next, es);
    EntryFits(c, buf.Contents(), off, sig, next, es);
    EntryNumberOf(f, |es|);
    var ndplen := buf.Load(off + 4, 2);
    k := EntryNumber(f, ndplen);
    var e := off + f.NdpLen() + f.Entries(k);
    buf.Store(e + f.Width(), Le(f.Width(), length));
    buf.Store(e, Le(f.Width(), index));
    buf.Store(off + 4, Le(2, ndplen + f.Entries(1)));
  }

  // ----- cdc_ncm_ndp16 and cdc_ncm_ndp32 -----

  /** What the handle points to. */
  ghost predicate PointsTo(h: Handle, look: Lookup) {
    match look.slot
    case NoSlot => h == NoTable
    case InDelayed => h == DelayedTable
    case InNtb(j) => j < |look.ntb.ndps| && h == Table(look.ntb.ndps[j].off)
  }

  /** Following the chain of indices from the header visits the tables of `ntb` and then ends. */
  ghost predicate Readable(c: Cfg, ntb: Ntb) {
    var f := c.fmt;
    && f.NthLen() <= |ntb.bytes|
    && Field(ntb.bytes, f.NdpIndexAt(), f.Width()) == FirstNdp(ntb.ndps)
    && forall j | 0 <= j < |ntb.ndps| :: LinkReads(c, ntb, j)
  }

  ghost predicate LinkReads(c: Cfg, ntb: Ntb, j: nat)
    requires j < |ntb.ndps|
  {
    var off := ntb.ndps[j].off;
    && 0 < off && off + c.MaxNdp() <= |ntb.bytes| && c.fmt.NdpLen() <= c.MaxNdp()
    && Field(ntb.bytes, off, 4) == ntb.ndps[j].sig
    && Field(ntb.bytes, off + c.fmt.NextAt(), c.fmt.Width()) == NextOf(ntb.ndps, j)
  }

  lemma BuiltReadable(c: Cfg, ntb: Ntb, delayed: seq<Byte>)
    requires c.Valid() && Built(c, ntb, delayed) && c.fmt.Addressable(|ntb.bytes|)
    requires c.toEnd ==> DelayedSig(delayed) == 0
    ensures Readable(c, ntb)
  {
    hide Chained, Field, DelayedHolds, DelayedSig;
    if c.toEnd {
      NoChainYet(c, ntb, delayed);
    } else {
      ChainReads(c, ntb);
      HeaderFits(c, ntb);
      forall j | 0 <= j < |ntb.ndps|
        ensures LinkReads(c, ntb, j)
      {
        TableReads(c, ntb, j);
        EntriesAreLinear(c.fmt, 0, c.maxDatagrams + 1);
      }
    }
  }

  lemma HeaderFits(c: Cfg, ntb: Ntb)
    requires Chained(c, ntb)
    ensures c.fmt.NthLen() <= |ntb.bytes|
  {
    hide Tables, Payloads, Apart, Signatures;
  }

  /** Follows the chain; also returns the last table it looked at, 0 for none. */
  method FindTable(c: Cfg, skb: Buffer, sig: nat, ghost ntb: Ntb) returns (h: Handle, last: nat)
    requires skb.Valid() && skb.Contents() == ntb.bytes && Readable(c, ntb)
    ensures var j := FindNdp(ntb.ndps, sig, 0);
            if j < |ntb.ndps| then h == Table(ntb.ndps[j].off)
            else
              && h == NoTable
              && (if ntb.ndps == [] then last == 0 else last == ntb.ndps[|ntb.ndps| - 1].off && last > 0)
  {
    hide Field, LinkReads;
    last := 0;
    ghost var j := 0;
    var ndpoffset := skb.Load(c.fmt.NdpIndexAt(), c.fmt.Width());
    while ndpoffset != 0
      invariant j <= |ntb.ndps|
      invariant ndpoffset == (if j < |ntb.ndps| then ntb.ndps[j].off else 0)
      invariant last == (if j == 0 then 0 else ntb.ndps[j - 1].off)
      invariant forall i | 0 <= i < j :: ntb.ndps[i].sig != sig
      decreases |ntb.ndps| - j
    {
      assert LinkReads(c, ntb, j);
      ReadsOf(c, ntb, j);
      var s := skb.Load(ndpoffset, 4);
      if s == sig {
        FindNdpIs(ntb.ndps, sig, 0, j);
        return Table(ndpoffset), last;
      }
      last := ndpoffset;
      ndpoffset := skb.Load(ndpoffset + c.fmt.NextAt(), c.fmt.Width());
      j := j + 1;
    }
    if j < |ntb.ndps| {
      OffPositive(c, ntb, j);
    }
    if 0 < j {
      OffPositive(c, ntb, j - 1);
    }
    FindNdpIs(ntb.ndps, sig, 0, j);
    h := NoTable;
  }

  lemma ReadsOf(c: Cfg, ntb: Ntb, j: nat)
    requires j < |ntb.ndps| && LinkReads(c, ntb, j)
    ensures var off := ntb.ndps[j].off;
            && 0 < off && off + c.fmt.NdpLen() <= |ntb.bytes|
            && Field(ntb.bytes, off, 4) == ntb.ndps[j].sig
            && Field(ntb.bytes, off + c.fmt.NextAt(), c.fmt.Width()) == NextOf(ntb.ndps, j)
  {
  }

  lemma OffPositive(c: Cfg, ntb: Ntb, j: nat)
    requires Readable(c, ntb) && j < |ntb.ndps|
    ensures ntb.ndps[j].off > 0
  {
    hide Field;
    assert LinkReads(c, ntb, j);
  }

  lemma LinkFits(c: Cfg, ntb: Ntb)
    requires Readable(c, ntb)
    ensures LinkAt(c.fmt, ntb.ndps) + c.fmt.Width() <= |ntb.bytes|
  {
    hide Field;
    if ntb.ndps != [] {
      assert LinkReads(c, ntb, |ntb.ndps| - 1);
    }
  }

  /** The two buffers an NTB is built in: the NTB itself and the table that may have to wait. */
  ghost predicate Holds(skb: Buffer, delayed: Buffer, ntb: Ntb, table: seq<Byte>)
    reads skb, skb.data, delayed, delayed.data
  {
    && skb.Valid() && delayed.Valid()
    && skb != delayed && skb.data != delayed.data
    && skb.Contents() == ntb.bytes
    && delayed.Contents() == table
  }

  /** Links a new table for `sig` behind the table at `last` and opens it. */
  method NewTable(c: Cfg, skb: Buffer, delayed: Buffer, sig: nat, last: nat, ghost ntb: Ntb) returns (h: Handle)
    requires delayed.Valid() && delayed.len == c.MaxNdp() && Holds(skb, delayed, ntb, delayed.Contents())
    requires 6 <= c.MaxNdp()
    requires skb.len + c.MaxNdp() <= skb.data.Length
    requires if last == 0 then ntb.ndps == [] else ntb.ndps != [] && last == ntb.ndps[|ntb.ndps| - 1].off
    requires LinkAt(c.fmt, ntb.ndps) + c.fmt.Width() <= skb.len
    modifies skb, skb.data, delayed.data
    ensures skb.Valid() && delayed.Valid()
    ensures var linked := Patch(ntb.bytes, LinkAt(c.fmt, ntb.ndps), Le(c.fmt.Width(), |ntb.bytes|));
            if c.toEnd then
              && h == DelayedTable
              && skb.Contents() == linked
              && delayed.Contents() == OpenNdp(c.fmt, old(delayed.Contents()), 0, sig)
            else
              && h == Table(|ntb.bytes|)
              && skb.Contents() == OpenNdp(c.fmt, linked + Zeros(c.MaxNdp()), |ntb.bytes|, sig)
              && delayed.Contents() == old(delayed.Contents())
  {
    hide Patch, Le, OpenNdp, Buffer.Contents;
    var at := skb.len;
    var link := if last == 0 then c.fmt.NdpIndexAt() else last + c.fmt.NextAt();
    skb.Store(link, Le(c.fmt.Width(), at));
    if c.toEnd {
      h := DelayedTable;
      OpenTable(c.fmt, delayed, 0, sig);
    } else {
      h := Table(at);
      skb.PutZero(c.MaxNdp());
      OpenTable(c.fmt, skb, at, sig);
    }
  }

  /** cdc_ncm_ndp16 and cdc_ncm_ndp32 */
  method FindNdpFor(c: Cfg, cap: nat, skb: Buffer, delayed: Buffer, sig: nat, reserve: nat, ghost ntb: Ntb)
    returns (h: Handle, ghost look: Lookup)
    requires c.Valid() && c.fmt.Addressable(cap) && skb.data.Length == cap
    requires delayed.Valid() && delayed.len == c.MaxNdp() && Holds(skb, delayed, ntb, delayed.Contents())
    requires Built(c, ntb, delayed.Contents())
    modifies skb, skb.data, delayed.data
    ensures look == GetNdp(c, cap, ntb, old(delayed.Contents()), sig, reserve)
    ensures Holds(skb, delayed, look.ntb, look.delayed) && PointsTo(h, look)
  {
    hide Built, Readable, Patch, Le, OpenNdp, Buffer.Contents, AlignPad, LinkAt;
    look := GetNdp(c, cap, ntb, delayed.Contents(), sig, reserve);
    if c.toEnd {
      var s := delayed.Load(0, 4);
      if s == sig {
        return DelayedTable, look;
      }
      if s != 0 {
        return NoTable, look;
      }
    }
    BuiltReadable(c, ntb, delayed.Contents());
    LinkFits(c, ntb);
    var last;
    h, last := FindTable(c, skb, sig, ntb);
    if h != NoTable {
      return;
    }
    if !c.toEnd {
      skb.Align(c.ndpModulus, 0, cap);
    }
    if cap - skb.len - reserve < c.MaxNdp() {
      return;
    }
    h := NewTable(c, skb, delayed, sig, last, ntb.(bytes := skb.Contents()));
  }

  // ----- one frame -----

  /** The table behind the handle lists the frames of `sig` that are in the NTB. */
  lemma TableBehind(c: Cfg, look: Lookup, sig: nat)
    requires Built(c, look.ntb, look.delayed) && look.slot != NoSlot
    requires look.slot.InNtb? ==> !c.toEnd && look.slot.j < |look.ntb.ndps| && look.ntb.ndps[look.slot.j].sig == sig
    requires look.slot.InDelayed? ==> c.toEnd && DelayedSig(look.delayed) == sig
    requires sig > 0
    ensures var es := Sub(look.ntb.placed, sig);
            if look.slot.InNtb? then
              NdpAt(c, look.ntb.bytes, look.ntb.ndps[look.slot.j].off, sig, NextOf(look.ntb.ndps, look.slot.j), es)
            else
              NdpAt(c, look.delayed, 0, sig, 0, es)
  {
    hide NdpAt, HeaderAt, FirstAt, Payloads, Ordered, Apart, Signatures, DelayedSig;
    if look.slot.InNtb? {
      assert TableAt(c, look.ntb, look.slot.j);
    } else {
      SubAll(look.ntb.placed, sig);
    }
  }

  /** Enters a frame into its table and appends its bytes; returns the number of the entry. */
  method AddTo(c: Cfg, skb: Buffer, delayed: Buffer, h: Handle, pkt: Pkt, ghost look: Lookup) returns (k: nat)
    requires c.Valid() && ValidPkt(c, pkt) && Holds(skb, delayed, look.ntb, look.delayed)
    requires Built(c, look.ntb, look.delayed) && |look.ntb.placed| < c.maxDatagrams
    requires PointsTo(h, look) && h != NoTable && skb.len + |pkt.data| <= skb.data.Length
    requires look.slot.InNtb? ==> !c.toEnd && look.ntb.ndps[look.slot.j].sig == pkt.sig
    requires look.slot.InDelayed? ==> c.toEnd && DelayedSig(look.delayed) == pkt.sig
    modifies skb, skb.data, delayed.data
    ensures k == |Sub(look.ntb.placed, pkt.sig)|
    ensures Holds(skb, delayed, AddFrame(c, look, pkt).ntb, AddFrame(c, look, pkt).delayed)
  {
    hide Built, NdpAt, WriteEntry, Buffer.Contents, Sub, DelayedSig;
    TableBehind(c, look, pkt.sig);
    ghost var es := Sub(look.ntb.placed, pkt.sig);
    if h.Table? {
      k := AddEntry(c, skb, h.off, skb.len, |pkt.data|, pkt.sig, NextOf(look.ntb.ndps, look.slot.j), es);
    } else {
      k := AddEntry(c, delayed, 0, skb.len, |pkt.data|, pkt.sig, 0, es);
    }
    skb.PutData(pkt.data);
  }

  /** The table, the alignment and, when there is room, the frame. */
  method TryFrame(c: Cfg, cap: nat, skb: Buffer, delayed: Buffer, pkt: Pkt, ghost ntb: Ntb)
    returns (fits: bool, k: nat)
    requires c.Valid() && c.fmt.Addressable(cap) && skb.data.Length == cap && ValidPkt(c, pkt)
    requires delayed.Valid() && delayed.len == c.MaxNdp() && Holds(skb, delayed, ntb, delayed.Contents())
    requires Built(c, ntb, delayed.Contents()) && |ntb.placed| < c.maxDatagrams
    modifies skb, skb.data, delayed.data
    ensures var look := Prepare(c, cap, ntb, old(delayed.Contents()), pkt);
            var r := if fits then AddFrame(c, look, pkt) else look;
            && fits == Fits(c, cap, look, pkt)
            && (fits ==> k == |Sub(ntb.placed, pkt.sig)|)
            && Holds(skb, delayed, r.ntb, r.delayed)
  {
    hide Built, GetNdp, AddFrame, Buffer.Contents, Sub, DelayedSig, ValidPkt, AlignPad;
    PrepareBuilt(c, cap, ntb, delayed.Contents(), pkt);
    ghost var look := Prepare(c, cap, ntb, delayed.Contents(), pkt);
    var h, found := FindNdpFor(c, cap, skb, delayed, pkt.sig, |pkt.data| + c.modulus + c.remainder, ntb);
    skb.Align(c.modulus, c.remainder, cap);
    k := 0;
    fits := h != NoTable && skb.len + |pkt.data| + c.EndReserve() <= cap;
    if fits {
      k := AddTo(c, skb, delayed, h, pkt, look);
    }
  }

  // ----- the ends of an NTB -----

  /** Fills out the header of a new NTB. */
  method FillHeader(f: Format, skb: Buffer, seqno: nat)
    requires skb.Valid() && skb.len == 0 && f.NthLen() <= skb.data.Length
    modifies skb, skb.data
    ensures skb.Valid() && skb.Contents() == NewNtb(f, seqno).bytes
  {
    hide Patch, Le, Buffer.Contents;
    skb.PutZero(f.NthLen());
    assert skb.Contents() == Zeros(f.NthLen());
    skb.Store(0, Le(4, f.NthSign()));
    skb.Store(4, Le(2, f.NthLen()));
    skb.Store(6, Le(2, seqno));
  }

  /** Moves the delayed table to the end of the NTB and clears it. */
  method AppendDelayed(c: Cfg, cap: nat, skb: Buffer, delayed: Buffer, ghost ntb: Ntb)
    requires c.Usable() && skb.data.Length == cap
    requires delayed.Valid() && delayed.len == c.MaxNdp() && Holds(skb, delayed, ntb, delayed.Contents())
    requires c.fmt.NthLen() <= skb.len && skb.len + c.MaxNdp() <= cap
    modifies skb, skb.data, delayed.data
    ensures Holds(skb, delayed, MoveNdp(c, cap, ntb, old(delayed.Contents())), Zeros(c.MaxNdp()))
    ensures old(skb.len) <= skb.len
  {
    hide Patch, Le, Buffer.Contents, AlignPad;
    skb.Align(c.ndpModulus, 0, cap - c.MaxNdp());
    skb.Store(c.fmt.NdpIndexAt(), Le(c.fmt.Width(), skb.len));
    delayed.CopyTo(skb);
    delayed.Clear();
  }

  /** The padding behind an NTB. */
  method PadTail(c: Cfg, cap: nat, minTxPkt: nat, skb: Buffer)
    requires c.Usable() && skb.data.Length == cap && skb.Valid()
    modifies skb, skb.data
    ensures skb.Valid() && skb.Contents() == old(skb.Contents()) + Zeros(TailPad(c, cap, minTxPkt, old(skb.len)))
  {
    hide Buffer.Contents;
    if !c.sendZlp && skb.len > minTxPkt {
      skb.PutZero(cap - skb.len);
    } else if skb.len < cap && skb.len % c.maxPacket == 0 {
      skb.PutZero(1);
    } else {
      assert skb.Contents() + Zeros(0) == skb.Contents();
    }
  }

  /** The delayed table, the padding and the block length. */
  method FinishBuffer(c: Cfg, cap: nat, minTxPkt: nat, skb: Buffer, delayed: Buffer, ghost ntb: Ntb)
    requires c.Usable() && skb.data.Length == cap
    requires delayed.Valid() && delayed.len == c.MaxNdp() && Holds(skb, delayed, ntb, delayed.Contents())
    requires c.fmt.NthLen() <= skb.len && (c.toEnd ==> skb.len + c.MaxNdp() <= cap)
    modifies skb, skb.data, delayed.data
    ensures Holds(skb, delayed, Finish(c, cap, minTxPkt, ntb, old(delayed.Contents())),
                  if c.toEnd then Zeros(c.MaxNdp()) else old(delayed.Contents()))
  {
    hide Patch, Le, Buffer.Contents, MoveNdp, TailPad;
    if c.toEnd {
      AppendDelayed(c, cap, skb, delayed, ntb);
    }
    PadTail(c, cap, minTxPkt, skb);
    skb.Store(c.fmt.BlockLengthAt(), Le(c.fmt.Width(), skb.len));
  }
}
