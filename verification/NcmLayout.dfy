/**
 * How the bytes of an NTB represent its tables and frames, and that every step of the
 * transmitter keeps this representation.
 */
module NcmLayout {
  import opened Bytes
  import opened NcmFormat
  import opened NcmTx

  // ----- what the bytes say -----

  /** Signature, header length, sequence number and index of the first table. */
  ghost predicate HeaderAt(f: Format, b: seq<Byte>, seqno: nat) {
    && f.NthLen() <= |b|
    && b[0..4] == Le(4, f.NthSign())
    && b[4..6] == Le(2, f.NthLen())
    && b[6..8] == Le(2, seqno)
  }

  ghost predicate FirstAt(f: Format, b: seq<Byte>, first: nat) {
    && f.NthLen() <= |b|
    && b[f.NdpIndexAt()..f.NdpIndexAt() + f.Width()] == Le(f.Width(), first)
  }

  /** One table entry. */
  ghost predicate EntryAt(f: Format, b: seq<Byte>, at: nat, e: Entry) {
    && at + 2 * f.Width() <= |b|
    && b[at..at + f.Width()] == Le(f.Width(), e.off)
    && b[at + f.Width()..at + 2 * f.Width()] == Le(f.Width(), |e.pkt.data|)
  }

  ghost predicate EntriesAt(f: Format, b: seq<Byte>, at: nat, es: seq<Entry>) {
    forall k | 0 <= k < |es| :: EntryAt(f, b, at + f.Entries(k), es[k])
  }

  /** A table at `off` that lists `es`, ends with null entries and points to the next table. */
  ghost predicate NdpAt(c: Cfg, b: seq<Byte>, off: nat, sig: nat, next: nat, es: seq<Entry>) {
    var f := c.fmt;
    && off + c.MaxNdp() <= |b|
    && |es| <= c.maxDatagrams
    && b[off..off + 4] == Le(4, sig)
    && b[off + 4..off + 6] == Le(2, f.NdpLen() + f.Entries(|es| + 1))
    && b[off + f.NextAt()..off + f.NextAt() + f.Width()] == Le(f.Width(), next)
    && EntriesAt(f, b, off + f.NdpLen(), es)
    && (forall i | off + f.NdpLen() + f.Entries(|es|) <= i < off + c.MaxNdp() :: b[i] == 0)
  }

  ghost predicate PayloadAt(f: Format, b: seq<Byte>, e: Entry) {
    && f.NthLen() <= e.off
    && e.off + |e.pkt.data| <= |b|
    && b[e.off..e.off + |e.pkt.data|] == e.pkt.data
  }

  ghost predicate Payloads(f: Format, ntb: Ntb) {
    forall k | 0 <= k < |ntb.placed| :: PayloadAt(f, ntb.bytes, ntb.placed[k])
  }

  /** The index stored in table `j`: where the next table starts, or 0. */
  function NextOf(ndps: seq<NdpRef>, j: nat): nat {
    if j + 1 < |ndps| then ndps[j + 1].off else 0
  }

  ghost predicate TableAt(c: Cfg, ntb: Ntb, j: nat)
    requires j < |ntb.ndps|
  {
    NdpAt(c, ntb.bytes, ntb.ndps[j].off, ntb.ndps[j].sig, NextOf(ntb.ndps, j), Sub(ntb.placed, ntb.ndps[j].sig))
  }

  ghost predicate Tables(c: Cfg, ntb: Ntb) {
    forall j | 0 <= j < |ntb.ndps| :: TableAt(c, ntb, j)
  }

  /** Tables lie behind the header, one behind the other. */
  ghost predicate Ordered(c: Cfg, ndps: seq<NdpRef>, len: nat) {
    && (forall j | 0 <= j < |ndps| :: c.fmt.NthLen() <= ndps[j].off && ndps[j].off + c.MaxNdp() <= len)
    && (forall i, j | 0 <= i < j < |ndps| :: ndps[i].off + c.MaxNdp() <= ndps[j].off)
  }

  /** No frame overlaps a table. */
  ghost predicate Clear(c: Cfg, ndp: NdpRef, e: Entry) {
    e.off + |e.pkt.data| <= ndp.off || ndp.off + c.MaxNdp() <= e.off
  }

  ghost predicate Apart(c: Cfg, ndps: seq<NdpRef>, placed: seq<Entry>) {
    forall j, k | 0 <= j < |ndps| && 0 <= k < |placed| :: Clear(c, ndps[j], placed[k])
  }

  /** One table per signature, and a table for every frame. */
  ghost predicate Signatures(ndps: seq<NdpRef>, placed: seq<Entry>) {
    && (forall i, j | 0 <= i < j < |ndps| :: ndps[i].sig != ndps[j].sig)
    && (forall k | 0 <= k < |placed| :: exists j :: 0 <= j < |ndps| && ndps[j].sig == placed[k].pkt.sig)
    && (forall j | 0 <= j < |ndps| :: 0 < ndps[j].sig < 0x1_0000_0000)
  }

  /** A complete chain of tables: the form in which an NTB is sent, and built with inline tables. */
  ghost predicate Chained(c: Cfg, ntb: Ntb) {
    && HeaderAt(c.fmt, ntb.bytes, ntb.seqno)
    && FirstAt(c.fmt, ntb.bytes, FirstNdp(ntb.ndps))
    && Payloads(c.fmt, ntb)
    && Tables(c, ntb)
    && Ordered(c, ntb.ndps, |ntb.bytes|)
    && Apart(c, ntb.ndps, ntb.placed)
    && Signatures(ntb.ndps, ntb.placed)
  }

  // ----- buffers that agree -----

  lemma EntriesAreLinear(f: Format, a: nat, b: nat)
    ensures a <= b ==> f.Entries(a) <= f.Entries(b)
    ensures f.Entries(a + 1) == f.Entries(a) + 2 * f.Width()
  {
  }

  lemma EntriesAgree(f: Format, a: seq<Byte>, b: seq<Byte>, at: nat, es: seq<Entry>)
    requires EntriesAt(f, a, at, es)
    requires Agree(a, b, at, at + f.Entries(|es|))
    ensures EntriesAt(f, b, at, es)
  {
    forall k | 0 <= k < |es|
      ensures EntryAt(f, b, at + f.Entries(k), es[k])
    {
      var p := at + f.Entries(k);
      assert EntryAt(f, a, p, es[k]);
      EntriesAreLinear(f, k + 1, |es|);
      EntriesAreLinear(f, k, k);
      AgreeSlice(a, b, at, at + f.Entries(|es|), p, p + f.Width());
      AgreeSlice(a, b, at, at + f.Entries(|es|), p + f.Width(), p + 2 * f.Width());
    }
  }

  lemma NdpAtAgree(c: Cfg, a: seq<Byte>, b: seq<Byte>, off: nat, sig: nat, next: nat, es: seq<Entry>)
    requires NdpAt(c, a, off, sig, next, es)
    requires Agree(a, b, off, off + c.MaxNdp())
    ensures NdpAt(c, b, off, sig, next, es)
  {
    var f := c.fmt;
    var hi := off + c.MaxNdp();
    EntriesAreLinear(f, |es|, c.maxDatagrams);
    AgreeSlice(a, b, off, hi, off, off + 4);
    AgreeSlice(a, b, off, hi, off + 4, off + 6);
    AgreeSlice(a, b, off, hi, off + f.NextAt(), off + f.NextAt() + f.Width());
    EntriesAgree(f, a, b, off + f.NdpLen(), es);
  }

  lemma PayloadsAgree(f: Format, ntb: Ntb, b: seq<Byte>)
    requires Payloads(f, ntb)
    requires forall k | 0 <= k < |ntb.placed| ::
               Agree(ntb.bytes, b, ntb.placed[k].off, ntb.placed[k].off + |ntb.placed[k].pkt.data|)
    ensures Payloads(f, ntb.(bytes := b))
  {
    forall k | 0 <= k < |ntb.placed|
      ensures PayloadAt(f, b, ntb.placed[k])
    {
      var e := ntb.placed[k];
      assert PayloadAt(f, ntb.bytes, e);
      AgreeSlice(ntb.bytes, b, e.off, e.off + |e.pkt.data|, e.off, e.off + |e.pkt.data|);
    }
  }

  lemma HeaderAgree(f: Format, a: seq<Byte>, b: seq<Byte>, seqno: nat)
    requires HeaderAt(f, a, seqno) && Agree(a, b, 0, 8) && f.NthLen() <= |b|
    ensures HeaderAt(f, b, seqno)
  {
    AgreeSlice(a, b, 0, 8, 0, 4);
    AgreeSlice(a, b, 0, 8, 4, 6);
    AgreeSlice(a, b, 0, 8, 6, 8);
  }

  lemma WholeHeaderAgree(f: Format, a: seq<Byte>, b: seq<Byte>, seqno: nat, first: nat)
    requires HeaderAt(f, a, seqno) && FirstAt(f, a, first) && Agree(a, b, 0, f.NthLen())
    ensures HeaderAt(f, b, seqno) && FirstAt(f, b, first)
  {
    HeaderAgree(f, a, b, seqno);
    AgreeSlice(a, b, 0, f.NthLen(), f.NdpIndexAt(), f.NdpIndexAt() + f.Width());
  }

  /** Appending bytes keeps a chain, whatever they are. */
  lemma ChainedAppend(c: Cfg, ntb: Ntb, tail: seq<Byte>)
    requires Chained(c, ntb)
    ensures Chained(c, ntb.(bytes := ntb.bytes + tail))
  {
    var b := ntb.bytes + tail;
    var f := c.fmt;
    var n2 := ntb.(bytes := b);
    WholeHeaderAgree(f, ntb.bytes, b, ntb.seqno, FirstNdp(ntb.ndps));
    PayloadsBound(f, ntb);
    PayloadsAgree(f, ntb, b);
    forall j | 0 <= j < |ntb.ndps|
      ensures TableAt(c, n2, j)
    {
      assert TableAt(c, ntb, j);
      var sig := ntb.ndps[j].sig;
      NdpAtAgree(c, ntb.bytes, b, ntb.ndps[j].off, sig, NextOf(ntb.ndps, j), Sub(ntb.placed, sig));
    }
  }

  lemma PayloadsBound(f: Format, ntb: Ntb)
    requires Payloads(f, ntb)
    ensures forall k | 0 <= k < |ntb.placed| :: ntb.placed[k].off + |ntb.placed[k].pkt.data| <= |ntb.bytes|
    ensures forall k | 0 <= k < |ntb.placed| :: f.NthLen() <= ntb.placed[k].off
  {
    forall k | 0 <= k < |ntb.placed|
      ensures ntb.placed[k].off + |ntb.placed[k].pkt.data| <= |ntb.bytes| && f.NthLen() <= ntb.placed[k].off
    {
      assert PayloadAt(f, ntb.bytes, ntb.placed[k]);
    }
  }

  // ----- stores into a table -----

  lemma PatchAgree(b: seq<Byte>, at: nat, s: seq<Byte>, lo: nat, hi: nat)
    requires at + |s| <= |b| && hi <= |b| && (hi <= at || at + |s| <= lo)
    ensures Agree(b, Patch(b, at, s), lo, hi)
  {
  }

  lemma OpenNdpAt(c: Cfg, b: seq<Byte>, off: nat, sig: nat)
    requires off + c.MaxNdp() <= |b|
    requires forall i | off <= i < off + c.MaxNdp() :: b[i] == 0
    ensures NdpAt(c, OpenNdp(c.fmt, b, off, sig), off, sig, 0, [])
    ensures Agree(b, OpenNdp(c.fmt, b, off, sig), 0, off)
  {
    var f := c.fmt;
    EntriesAreLinear(f, 0, c.maxDatagrams + 1);
    EntriesAreLinear(f, 1, c.maxDatagrams + 1);
    var b1 := Patch(b, off, Le(4, sig));
    var b2 := OpenNdp(f, b, off, sig);
    assert Agree(b1, b2, off, off + 4);
    AgreeSlice(b1, b2, off, off + 4, off, off + 4);
    ZeroField(f.Width());
    assert b2[off + f.NextAt()..off + f.NextAt() + f.Width()] == Zeros(f.Width());
  }

  lemma LinkNdpAt(c: Cfg, b: seq<Byte>, off: nat, sig: nat, next: nat, es: seq<Entry>, to: nat)
    requires NdpAt(c, b, off, sig, next, es)
    ensures var r := Patch(b, off + c.fmt.NextAt(), Le(c.fmt.Width(), to));
            NdpAt(c, r, off, sig, to, es)
  {
    var f := c.fmt;
    var at := off + f.NextAt();
    EntriesAreLinear(f, |es|, c.maxDatagrams);
    EntriesAreLinear(f, 0, c.maxDatagrams + 1);
    var r := Patch(b, at, Le(f.Width(), to));
    AgreeSlice(b, r, off, off + 6, off, off + 4);
    AgreeSlice(b, r, off, off + 6, off + 4, off + 6);
    EntriesAgree(f, b, r, off + f.NdpLen(), es);
  }

  lemma ThreePatches(b: seq<Byte>, p1: nat, s1: seq<Byte>, p2: nat, s2: seq<Byte>, p3: nat, s3: seq<Byte>)
    requires p3 + |s3| <= p2 && p2 + |s2| == p1 && p1 + |s1| <= |b|
    ensures var r := Patch(Patch(Patch(b, p1, s1), p2, s2), p3, s3);
            && r[p1..p1 + |s1|] == s1 && r[p2..p2 + |s2|] == s2 && r[p3..p3 + |s3|] == s3
            && Agree(b, r, 0, p3)
            && Agree(b, r, p3 + |s3|, p2)
            && Agree(b, r, p1 + |s1|, |b|)
  {
    hide Patch;
    var b1 := Patch(b, p1, s1);
    var b2 := Patch(b1, p2, s2);
    var r := Patch(b2, p3, s3);
    assert Agree(b1, b2, p1, |b|);
    assert Agree(b2, r, p2, |b|);
    AgreeSlice(b1, r, p1, |b|, p1, p1 + |s1|);
    AgreeSlice(b2, r, p2, |b|, p2, p2 + |s2|);
  }

  /** `r` differs from `b` in entry `k` of the table at `off` and in the table's length only. */
  ghost predicate EntryWritten(f: Format, b: seq<Byte>, r: seq<Byte>, off: nat, k: nat, index: nat, length: nat) {
    var e := off + f.NdpLen() + f.Entries(k);
    var w := f.Width();
    && e + 2 * w <= |b| == |r|
    && r[e..e + w] == Le(w, index)
    && r[e + w..e + 2 * w] == Le(w, length)
    && r[off + 4..off + 6] == Le(2, f.NdpLen() + f.Entries(k + 2))
    && Agree(b, r, 0, off + 4)
    && Agree(b, r, off + 6, e)
    && Agree(b, r, e + 2 * w, |b|)
  }

  /** The three stores of WriteEntry change nothing but the new entry and the table's length. */
  lemma WriteEntryBytes(f: Format, b: seq<Byte>, off: nat, k: nat, index: nat, length: nat)
    requires off + f.NdpLen() + f.Entries(k + 1) <= |b|
    ensures EntryWritten(f, b, WriteEntry(f, b, off, k, index, length), off, k, index, length)
  {
    hide Patch, Le, Agree;
    var w := f.Width();
    var e := off + f.NdpLen() + f.Entries(k);
    var s1, s2, s3 := Le(w, length), Le(w, index), Le(2, f.NdpLen() + f.Entries(k + 2));
    EntriesAreLinear(f, k, k);
    ThreePatches(b, e + w, s1, e, s2, off + 4, s3);
    assert WriteEntry(f, b, off, k, index, length) == Patch(Patch(Patch(b, e + w, s1), e, s2), off + 4, s3);
    hide WriteEntry;
  }

  lemma EntriesAppend(f: Format, b: seq<Byte>, at: nat, es: seq<Entry>, e: Entry)
    requires EntriesAt(f, b, at, es) && EntryAt(f, b, at + f.Entries(|es|), e)
    ensures EntriesAt(f, b, at, es + [e])
  {
    assert forall k | 0 <= k < |es| :: (es + [e])[k] == es[k];
  }

  lemma EntryWrittenAt(c: Cfg, b: seq<Byte>, r: seq<Byte>, off: nat, es: seq<Entry>, e: Entry)
    requires off + c.MaxNdp() <= |b| && |es| < c.maxDatagrams
    requires EntriesAt(c.fmt, b, off + c.fmt.NdpLen(), es)
    requires EntryWritten(c.fmt, b, r, off, |es|, e.off, |e.pkt.data|)
    ensures EntriesAt(c.fmt, r, off + c.fmt.NdpLen(), es + [e])
  {
    var f := c.fmt;
    EntriesAgree(f, b, r, off + f.NdpLen(), es);
    hide EntriesAt, Agree, Le;
    EntriesAppend(f, r, off + f.NdpLen(), es, e);
  }

  lemma NdpWritten(c: Cfg, b: seq<Byte>, r: seq<Byte>, off: nat, sig: nat, next: nat, es: seq<Entry>, e: Entry)
    requires NdpAt(c, b, off, sig, next, es) && |es| < c.maxDatagrams
    requires EntryWritten(c.fmt, b, r, off, |es|, e.off, |e.pkt.data|)
    requires EntriesAt(c.fmt, r, off + c.fmt.NdpLen(), es + [e])
    ensures NdpAt(c, r, off, sig, next, es + [e])
  {
    hide Le, EntriesAt;
    var f := c.fmt;
    var at := off + f.NdpLen() + f.Entries(|es|);
    AgreeSlice(b, r, 0, off + 4, off, off + 4);
    AgreeSlice(b, r, off + 6, at, off + f.NextAt(), off + f.NextAt() + f.Width());
  }

  lemma WriteEntryAt(c: Cfg, b: seq<Byte>, off: nat, sig: nat, next: nat, es: seq<Entry>, e: Entry)
    requires NdpAt(c, b, off, sig, next, es) && |es| < c.maxDatagrams
    ensures NdpAt(c, WriteEntry(c.fmt, b, off, |es|, e.off, |e.pkt.data|), off, sig, next, es + [e])
  {
    hide WriteEntry, EntryWritten, Le;
    var r := WriteEntry(c.fmt, b, off, |es|, e.off, |e.pkt.data|);
    EntriesAreLinear(c.fmt, |es| + 1, c.maxDatagrams + 1);
    WriteEntryBytes(c.fmt, b, off, |es|, e.off, |e.pkt.data|);
    EntryWrittenAt(c, b, r, off, es, e);
    NdpWritten(c, b, r, off, sig, next, es, e);
  }

  lemma SubAppend(placed: seq<Entry>, e: Entry, sig: nat)
    ensures Sub(placed + [e], sig) == if e.pkt.sig == sig then Sub(placed, sig) + [e] else Sub(placed, sig)
  {
    assert (placed + [e])[..|placed + [e]| - 1] == placed;
  }

  // ----- a new table -----

  /** Linking the last table, or the header, to offset `to`. */
  lemma LinkChain(c: Cfg, ntb: Ntb, to: nat)
    requires c.Valid() && Chained(c, ntb)
    ensures var r := Patch(ntb.bytes, LinkAt(c.fmt, ntb.ndps), Le(c.fmt.Width(), to));
            && HeaderAt(c.fmt, r, ntb.seqno)
            && FirstAt(c.fmt, r, if ntb.ndps == [] then to else FirstNdp(ntb.ndps))
            && Payloads(c.fmt, ntb.(bytes := r))
  {
    var f := c.fmt;
    var at := LinkAt(f, ntb.ndps);
    var r := Patch(ntb.bytes, at, Le(f.Width(), to));
    EntriesAreLinear(f, 0, c.maxDatagrams + 1);
    HeaderAgree(f, ntb.bytes, r, ntb.seqno);
    if ntb.ndps != [] {
      AgreeSlice(ntb.bytes, r, 0, f.NthLen(), f.NdpIndexAt(), f.NdpIndexAt() + f.Width());
    }
    PayloadsBound(f, ntb);
    forall k | 0 <= k < |ntb.placed|
      ensures Agree(ntb.bytes, r, ntb.placed[k].off, ntb.placed[k].off + |ntb.placed[k].pkt.data|)
    {
      if ntb.ndps != [] {
        assert Clear(c, ntb.ndps[|ntb.ndps| - 1], ntb.placed[k]);
      }
    }
    PayloadsAgree(f, ntb, r);
  }

  lemma LinkTables(c: Cfg, ntb: Ntb, to: nat, j: nat)
    requires c.Valid() && Chained(c, ntb) && j < |ntb.ndps|
    ensures var r := Patch(ntb.bytes, LinkAt(c.fmt, ntb.ndps), Le(c.fmt.Width(), to));
            var ndp := ntb.ndps[j];
            var next := if j + 1 < |ntb.ndps| then ntb.ndps[j + 1].off else to;
            NdpAt(c, r, ndp.off, ndp.sig, next, Sub(ntb.placed, ndp.sig))
  {
    hide NdpAt, Le, Payloads, Apart, Signatures, HeaderAt, FirstAt, Patch, Sub;
    var ndp := ntb.ndps[j];
    var es := Sub(ntb.placed, ndp.sig);
    var last := |ntb.ndps| - 1;
    var r := Patch(ntb.bytes, LinkAt(c.fmt, ntb.ndps), Le(c.fmt.Width(), to));
    assert TableAt(c, ntb, j);
    EntriesAreLinear(c.fmt, 0, c.maxDatagrams + 1);
    if j == last {
      LinkNdpAt(c, ntb.bytes, ndp.off, ndp.sig, NextOf(ntb.ndps, j), es, to);
    } else {
      assert ndp.off + c.MaxNdp() <= ntb.ndps[last].off;
      PatchAgree(ntb.bytes, LinkAt(c.fmt, ntb.ndps), Le(c.fmt.Width(), to), ndp.off, ndp.off + c.MaxNdp());
      NdpAtAgree(c, ntb.bytes, r, ndp.off, ndp.sig, NextOf(ntb.ndps, j), es);
    }
  }

  /** The NTB after a new table was linked and pushed. */
  function WithTable(c: Cfg, ntb: Ntb, sig: nat): Ntb {
    var linked := Patch(ntb.bytes, LinkAt(c.fmt, ntb.ndps), Le(c.fmt.Width(), |ntb.bytes|));
    ntb.(bytes := OpenNdp(c.fmt, linked + Zeros(c.MaxNdp()), |ntb.bytes|, sig),
         ndps := ntb.ndps + [NdpRef(|ntb.bytes|, sig)])
  }

  lemma {:induction false} SubNone(placed: seq<Entry>, sig: nat)
    requires forall k | 0 <= k < |placed| :: placed[k].pkt.sig != sig
    ensures Sub(placed, sig) == []
  {
    if placed != [] {
      SubNone(placed[..|placed| - 1], sig);
    }
  }

  lemma WithTableTables(c: Cfg, ntb: Ntb, sig: nat)
    requires c.Valid() && Chained(c, ntb)
    requires forall j | 0 <= j < |ntb.ndps| :: ntb.ndps[j].sig != sig
    ensures Tables(c, WithTable(c, ntb, sig))
  {
    var len := |ntb.bytes|;
    var linked := Patch(ntb.bytes, LinkAt(c.fmt, ntb.ndps), Le(c.fmt.Width(), len));
    var b := linked + Zeros(c.MaxNdp());
    var r := WithTable(c, ntb, sig);
    assert forall i | len <= i < len + c.MaxNdp() :: b[i] == 0;
    OpenNdpAt(c, b, len, sig);
    assert Agree(linked, r.bytes, 0, len);
    SubNone(ntb.placed, sig);
    forall j | 0 <= j < |r.ndps|
      ensures TableAt(c, r, j)
    {
      if j < |ntb.ndps| {
        LinkTables(c, ntb, len, j);
        var ndp := ntb.ndps[j];
        NdpAtAgree(c, linked, r.bytes, ndp.off, ndp.sig, NextOf(r.ndps, j), Sub(ntb.placed, ndp.sig));
      }
    }
  }

  lemma WithTableLayout(c: Cfg, ntb: Ntb, r: Ntb, sig: nat)
    requires Chained(c, ntb) && 0 < sig < 0x1_0000_0000
    requires forall j | 0 <= j < |ntb.ndps| :: ntb.ndps[j].sig != sig
    requires r.placed == ntb.placed && |r.bytes| == |ntb.bytes| + c.MaxNdp()
    requires r.ndps == ntb.ndps + [NdpRef(|ntb.bytes|, sig)]
    ensures Ordered(c, r.ndps, |r.bytes|) && Apart(c, r.ndps, r.placed) && Signatures(r.ndps, r.placed)
  {
    hide FirstAt, Tables, TableAt;
    PayloadsBound(c.fmt, ntb);
    assert forall j | 0 <= j < |ntb.ndps| :: r.ndps[j] == ntb.ndps[j];
    forall k | 0 <= k < |r.placed|
      ensures exists j :: 0 <= j < |r.ndps| && r.ndps[j].sig == r.placed[k].pkt.sig
    {
      var j :| 0 <= j < |ntb.ndps| && ntb.ndps[j].sig == ntb.placed[k].pkt.sig;
      assert r.ndps[j] == ntb.ndps[j];
    }
  }

  lemma WithTableChained(c: Cfg, ntb: Ntb, sig: nat)
    requires c.Valid() && Chained(c, ntb) && 0 < sig < 0x1_0000_0000
    requires forall j | 0 <= j < |ntb.ndps| :: ntb.ndps[j].sig != sig
    ensures Chained(c, WithTable(c, ntb, sig))
  {
    hide OpenNdp, Patch, Tables, TableAt, NdpAt, Apart, Signatures, Ordered;
    var f := c.fmt;
    var len := |ntb.bytes|;
    var linked := Patch(ntb.bytes, LinkAt(f, ntb.ndps), Le(f.Width(), len));
    var r := WithTable(c, ntb, sig);
    WithTableTables(c, ntb, sig);
    LinkChain(c, ntb, len);
    OpenNdpAt(c, linked + Zeros(c.MaxNdp()), len, sig);
    WithTableLayout(c, ntb, r, sig);
    PayloadsBound(f, ntb);
    assert Agree(linked, r.bytes, 0, len);
    HeaderAgree(f, linked, r.bytes, ntb.seqno);
    AgreeSlice(linked, r.bytes, 0, len, f.NdpIndexAt(), f.NdpIndexAt() + f.Width());
    PayloadsAgree(f, ntb.(bytes := linked), r.bytes);
    assert r.ndps[0].off == if ntb.ndps == [] then len else ntb.ndps[0].off;
  }
}
