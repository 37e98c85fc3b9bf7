/**
 * What the receiver does with a block of any sender, from its bytes: which headers and tables it
 * refuses, exactly which frames it passes up, and when it returns 0.
 */
module NcmDelivery {
  import opened Bytes
  import opened Options
  import opened NcmFormat
  import opened NcmRx
  import opened NcmRoundTrip

  // ----- a block, byte by byte -----

  /** A field of `w` bytes at `at` holds `v`. */
  ghost predicate Holds(b: seq<Byte>, at: nat, w: nat, v: nat) {
    at + w <= |b| && v < Capacity(w) && b[at..at + w] == Le(w, v)
  }

  /** An entry of a datagram table as its sender wrote it; it may be null, or name anything. */
  datatype Slot = Slot(index: nat, length: nat)

  /** A datagram table; `length` is its wLength, which counts one entry more than the receiver looks at. */
  datatype Table = Table(off: nat, sig: nat, length: nat, next: nat, slots: seq<Slot>)

  ghost predicate SlotBytes(f: Format, b: seq<Byte>, at: nat, s: Slot) {
    Holds(b, at, f.Width(), s.index) && Holds(b, at + f.Width(), f.Width(), s.length)
  }

  ghost predicate TableBytes(f: Format, b: seq<Byte>, t: Table) {
    && t.off + f.NdpLen() + f.Entries(|t.slots|) <= |b|
    && Holds(b, t.off, 4, t.sig)
    && Holds(b, t.off + 4, 2, t.length)
    && Holds(b, t.off + f.NextAt(), f.Width(), t.next)
    && t.slots != []
    && f.NdpLen() + f.Entries(|t.slots| + 1) <= t.length < f.NdpLen() + f.Entries(|t.slots| + 2)
    && forall x | 0 <= x < |t.slots| :: SlotBytes(f, b, t.off + f.NdpLen() + f.Entries(x), t.slots[x])
  }

  /** A length below that of one entry and a null one, or of more entries than the whole block has room for. */
  predicate BadLength(f: Format, b: seq<Byte>, length: nat) {
    || length < f.NdpLen() + 4 * f.Width()
    || f.NdpLen() + 2 * f.Width() * ((length - f.NdpLen()) / (2 * f.Width()) - 1) > |b|
  }

  /** Where no table can be: its header reaches past the block, or its length is bad. */
  ghost predicate NoTable(f: Format, b: seq<Byte>, off: nat) {
    || off + f.NdpLen() > |b|
    || exists length: nat :: Holds(b, off + 4, 2, length) && BadLength(f, b, length)
  }

  /** An index that is not negative as an int. */
  predicate Positive(f: Format, index: nat) {
    0 < index < (if f.Ntb16? then 0x1_0000 else 0x8000_0000)
  }

  /** From `at` on there are these tables, each linked to the next; the last link is 0, or leads to no table. */
  ghost predicate ChainBytes(f: Format, b: seq<Byte>, at: nat, tables: seq<Table>, broken: bool)
    decreases |tables|
  {
    if tables == [] then broken && NoTable(f, b, at)
    else
      && tables[0].off == at && TableBytes(f, b, tables[0])
      && (if |tables| == 1 && !broken then tables[0].next == 0
          else Positive(f, tables[0].next) && ChainBytes(f, b, tables[0].next, tables[1..], broken))
  }

  /** The header of a block; its length field is compared with rx_max and not with the length of the block. */
  ghost predicate HeaderBytes(f: Format, rxMax: nat, b: seq<Byte>, seqno: nat, length: nat, first: nat) {
    && f.NthLen() + f.NdpLen() <= |b|
    && Holds(b, 0, 4, f.NthSign())
    && Holds(b, 6, 2, seqno)
    && Holds(b, 8, f.Width(), length) && length <= rxMax
    && Holds(b, if f.Ntb16? then 10 else 12, f.Width(), first)
  }

  // ----- what is to be passed up -----

  /** The entry is not null, and the frame it names is in the block, has an Ethernet header and is not too long. */
  predicate Names(rxMax: nat, b: seq<Byte>, s: Slot) {
    0 < s.index && s.index + s.length <= |b| && 14 <= s.length <= rxMax
  }

  /** The frames of a table: everything behind the first entry that names none is ignored. */
  function Listed(rxMax: nat, b: seq<Byte>, slots: seq<Slot>): seq<seq<Byte>> {
    if slots == [] || !Names(rxMax, b, slots[0]) then []
    else [b[slots[0].index..slots[0].index + slots[0].length]] + Listed(rxMax, b, slots[1..])
  }

  /** "NCM0" or "ncm0". */
  predicate NoCrc(f: Format, t: Table) {
    t.sig == (if f.Ntb16? then 0x304D_434E else 0x306D_636E)
  }

  /** The frames of all tables whose datagrams carry no CRC. */
  function AllListed(f: Format, rxMax: nat, b: seq<Byte>, tables: seq<Table>): seq<seq<Byte>> {
    if tables == [] then []
    else
      (if NoCrc(f, tables[0]) then Listed(rxMax, b, tables[0].slots) else [])
      + AllListed(f, rxMax, b, tables[1..])
  }

  /** Copies `more` behind `frames` until a copy fails. */
  function Copy(frames: seq<seq<Byte>>, more: seq<seq<Byte>>, alloc: nat -> bool): Progress
    decreases |more|
  {
    if more == [] then Progress(true, frames)
    else if !alloc(|frames|) then Progress(false, frames)
    else Copy(frames + [more[0]], more[1..], alloc)
  }

  lemma {:induction false} CopyTwice(frames: seq<seq<Byte>>, a: seq<seq<Byte>>, b: seq<seq<Byte>>, alloc: nat -> bool)
    ensures Copy(frames, a + b, alloc)
            == (var p := Copy(frames, a, alloc);
                if p.ok then Copy(p.frames, b, alloc) else p)
    decreases |a|
  {
    if a == [] {
      assert a + b == b;
    } else {
      assert (a + b)[1..] == a[1..] + b;
      if alloc(|frames|) {
        CopyTwice(frames + [a[0]], a[1..], b, alloc);
      }
    }
  }

  /** When no copy fails everything is passed up. */
  lemma {:induction false} CopyAll(frames: seq<seq<Byte>>, more: seq<seq<Byte>>, alloc: nat -> bool)
    requires AllocOk(alloc)
    ensures Copy(frames, more, alloc) == Progress(true, frames + more)
    decreases |more|
  {
    if more == [] {
      assert frames + more == frames;
    } else {
      CopyAll(frames + [more[0]], more[1..], alloc);
      assert frames + [more[0]] + more[1..] == frames + more;
    }
  }

  // ----- the header -----

  lemma HoldsReads(skb: Skb, at: nat, w: nat, v: nat)
    requires Holds(skb.bytes, at, w, v)
    ensures Read(skb, at, w) == v
  {
    ReadField(skb, at, w, v);
  }

  lemma {:induction false} LeUnique(s: seq<Byte>)
    ensures Le(|s|, FromLe(s)) == s
  {
    if s != [] {
      var v := FromLe(s[1..]);
      LeUnique(s[1..]);
      LeStep(|s|, s[0], v);
      assert s == [s[0]] + s[1..];
    }
  }

  lemma LeStep(w: nat, b: Byte, v: nat)
    requires w > 0
    ensures Le(w, b + 256 * v) == [b] + Le(w - 1, v)
  {
    Digits(b, v);
  }

  lemma Digits(b: Byte, v: nat)
    ensures (b + 256 * v) % 256 == b && (b + 256 * v) / 256 == v
  {
  }

  lemma ReadsHold(skb: Skb, at: nat, w: nat)
    requires at + w <= |skb.bytes|
    ensures Holds(skb.bytes, at, w, Read(skb, at, w))
  {
    ReadInside(skb, at, w);
    LeUnique(skb.bytes[at..at + w]);
    FieldBound(skb.bytes[at..at + w]);
  }

  /** Long enough for a header and a table, the signature, and a length field of at most rx_max; nothing else counts. */
  ghost predicate HasHeader(f: Format, rxMax: nat, b: seq<Byte>) {
    && f.NthLen() + f.NdpLen() <= |b|
    && b[0..4] == Le(4, f.NthSign())
    && FromLe(b[8..8 + f.Width()]) <= rxMax
  }

  lemma HeaderExactly(f: Format, rxMax: nat, skb: Skb)
    ensures HeaderOk(f, rxMax, skb) <==> HasHeader(f, rxMax, skb.bytes)
  {
    hide Read, Le, Capacity, FromLe;
    if f.NthLen() + f.NdpLen() <= |skb.bytes| {
      ReadInside(skb, 8, f.Width());
      ReadInside(skb, 0, 4);
      ReadsHold(skb, 0, 4);
      Signatures(f);
      FieldRoundTrip(4, f.NthSign());
    }
  }

  lemma Signatures(f: Format)
    ensures f.NthSign() < Capacity(4)
  {
    Capacities();
  }

  /** What the fields of a header hold is what the receiver goes by. */
  lemma HeaderReads(f: Format, rxMax: nat, skb: Skb, seqno: nat, length: nat, first: nat)
    requires HeaderBytes(f, rxMax, skb.bytes, seqno, length, first)
    ensures HeaderOk(f, rxMax, skb) && Sequence(skb) == seqno
    ensures FirstOffset(f, skb) == (if f.Ntb32? && first >= 0x8000_0000 then first - 0x1_0000_0000 else first)
  {
    hide Read, Holds;
    HoldsReads(skb, 0, 4, f.NthSign());
    HoldsReads(skb, 6, 2, seqno);
    HoldsReads(skb, 8, f.Width(), length);
    HoldsReads(skb, f.NdpIndexAt(), f.Width(), first);
  }

  /** A block without such a header yields nothing, and the receiver returns 0. */
  lemma HeaderRefused(f: Format, rxMax: nat, skb: Skb, alloc: nat -> bool)
    requires !HasHeader(f, rxMax, skb.bytes)
    ensures RxFixup(f, rxMax, skb, alloc) == Progress(false, [])
  {
    hide HeaderOk, HasHeader;
    HeaderExactly(f, rxMax, skb);
  }

  /** So does one whose first index is negative as an int. */
  lemma IndexRefused(f: Format, rxMax: nat, skb: Skb, seqno: nat, length: nat, first: nat, alloc: nat -> bool)
    requires HeaderBytes(f, rxMax, skb.bytes, seqno, length, first) && f.Ntb32? && first >= 0x8000_0000
    ensures RxFixup(f, rxMax, skb, alloc) == Progress(false, [])
  {
    HeaderReads(f, rxMax, skb, seqno, length, first);
    HoldsBound(skb.bytes, 12, 4, first);
    hide HeaderOk, FirstOffset, Sequence, HeaderBytes;
  }

  lemma HoldsBound(b: seq<Byte>, at: nat, w: nat, v: nat)
    requires Holds(b, at, w, v) && w == 4
    ensures v < 0x1_0000_0000
  {
    Capacities();
  }

  // ----- a table -----

  lemma EntriesBy(f: Format, n: nat)
    ensures f.Entries(n) == 2 * f.Width() * n
  {
  }

  lemma SlotReads(f: Format, rxMax: nat, skb: Skb, t: Table, x: nat)
    requires TableBytes(f, skb.bytes, t) && x < |t.slots|
    ensures IndexOf(f, skb, t.off, x) == t.slots[x].index && LengthOf(f, skb, t.off, x) == t.slots[x].length
  {
    hide Read, Holds;
    var at := t.off + f.NdpLen() + f.Entries(x);
    assert SlotBytes(f, skb.bytes, at, t.slots[x]);
    HoldsReads(skb, at, f.Width(), t.slots[x].index);
    HoldsReads(skb, at + f.Width(), f.Width(), t.slots[x].length);
  }

  lemma SlotIsGood(f: Format, rxMax: nat, skb: Skb, t: Table, x: nat)
    requires TableBytes(f, skb.bytes, t) && x < |t.slots|
    ensures GoodEntry(f, rxMax, skb, t.off, x) <==> Names(rxMax, skb.bytes, t.slots[x])
    ensures GoodEntry(f, rxMax, skb, t.off, x) ==>
              Datagram(f, rxMax, skb, t.off, x) == skb.bytes[t.slots[x].index..t.slots[x].index + t.slots[x].length]
  {
    hide IndexOf, LengthOf, TableBytes;
    SlotReads(f, rxMax, skb, t, x);
  }

  lemma {:induction false} EntriesCopy(f: Format, rxMax: nat, skb: Skb, t: Table, x: nat, alloc: nat -> bool,
                                       frames: seq<seq<Byte>>)
    requires TableBytes(f, skb.bytes, t) && x <= |t.slots|
    ensures WalkEntries(f, rxMax, skb, t.off, x, |t.slots|, alloc, frames)
            == Copy(frames, Listed(rxMax, skb.bytes, t.slots[x..]), alloc)
    decreases |t.slots| - x
  {
    hide GoodEntry, Datagram, Names, TableBytes;
    if x < |t.slots| {
      SlotIsGood(f, rxMax, skb, t, x);
      assert t.slots[x..][0] == t.slots[x] && t.slots[x..][1..] == t.slots[x + 1..];
      if GoodEntry(f, rxMax, skb, t.off, x) {
        var d := Datagram(f, rxMax, skb, t.off, x);
        var rest := Listed(rxMax, skb.bytes, t.slots[x + 1..]);
        assert ([d] + rest)[1..] == rest;
        if alloc(|frames|) {
          EntriesCopy(f, rxMax, skb, t, x + 1, alloc, frames + [d]);
        }
      }
    }
  }

  /** The receiver finds the table that is there, with its number of entries, its signature and its link. */
  lemma TableReads(f: Format, skb: Skb, t: Table)
    requires TableBytes(f, skb.bytes, t)
    ensures VerifyNdp(f, skb, t.off) == Some(|t.slots|)
    ensures NoCrcTable(f, skb, t.off) <==> NoCrc(f, t)
    ensures t.next == 0 ==> NextOffset(f, skb, t.off) == 0
    ensures Positive(f, t.next) ==> NextOffset(f, skb, t.off) == t.next
  {
    hide Read, Holds, SlotBytes;
    HoldsReads(skb, t.off, 4, t.sig);
    HoldsReads(skb, t.off + 4, 2, t.length);
    HoldsReads(skb, t.off + f.NextAt(), f.Width(), t.next);
    EntriesBy(f, |t.slots|);
  }

  /** The check of a table fails there and nowhere else; the count is held against the whole block. */
  lemma NoTableExactly(f: Format, skb: Skb, off: nat)
    ensures NoTable(f, skb.bytes, off) <==> VerifyNdp(f, skb, off).None?
  {
    hide Read, Holds, BadLength;
    if off + f.NdpLen() <= |skb.bytes| {
      ReadsHold(skb, off + 4, 2);
      if NoTable(f, skb.bytes, off) {
        var length: nat :| Holds(skb.bytes, off + 4, 2, length) && BadLength(f, skb.bytes, length);
        HoldsReads(skb, off + 4, 2, length);
      }
    }
    VerifyExactly(f, skb, off);
  }

  /**
   * For any offset, also a negative one: only the end of the table's header has to be inside the
   * block, and the length is read from wherever the table starts.
   */
  lemma VerifyExactly(f: Format, skb: Skb, off: int)
    ensures VerifyNdp(f, skb, off).Some?
            <==> 0 <= off + f.NdpLen() <= |skb.bytes| && !BadLength(f, skb.bytes, Read(skb, off + 4, 2))
  {
    hide Read;
  }

  // ----- the chain -----

  lemma WalkBroken(f: Format, rxMax: nat, skb: Skb, at: nat, loopcount: nat, alloc: nat -> bool, frames: seq<seq<Byte>>)
    requires NoTable(f, skb.bytes, at)
    ensures WalkChain(f, rxMax, skb, at, loopcount, alloc, frames) == Progress(false, frames)
  {
    hide VerifyNdp, NoTable;
    NoTableExactly(f, skb, at);
  }

  lemma WalkOne(f: Format, rxMax: nat, skb: Skb, t: Table, loopcount: nat, alloc: nat -> bool, frames: seq<seq<Byte>>)
    requires TableBytes(f, skb.bytes, t)
    ensures var p := Copy(frames, AllListed(f, rxMax, skb.bytes, [t]), alloc);
            WalkChain(f, rxMax, skb, t.off, loopcount, alloc, frames)
            == if p.ok && NextOffset(f, skb, t.off) != 0 && loopcount > 0
               then WalkChain(f, rxMax, skb, NextOffset(f, skb, t.off), loopcount - 1, alloc, p.frames)
               else p
  {
    hide VerifyNdp, NoCrcTable, NextOffset, WalkEntries, Listed, TableBytes;
    TableReads(f, skb, t);
    EntriesCopy(f, rxMax, skb, t, 0, alloc, frames);
    assert t.slots[0..] == t.slots;
    assert [t][1..] == [];
    var here := Listed(rxMax, skb.bytes, t.slots);
    assert here + [] == here;
  }

  /** The first 51 tables are looked at. */
  function Looked(tables: seq<Table>, loopcount: nat): seq<Table> {
    if |tables| <= loopcount + 1 then tables else tables[..loopcount + 1]
  }

  /** What a chain of tables comes to. */
  function Outcome(f: Format, rxMax: nat, b: seq<Byte>, tables: seq<Table>, broken: bool, loopcount: nat,
                   alloc: nat -> bool, frames: seq<seq<Byte>>): Progress {
    var p := Copy(frames, AllListed(f, rxMax, b, Looked(tables, loopcount)), alloc);
    Progress(p.ok && !(broken && |tables| <= loopcount), p.frames)
  }

  lemma OutcomeSplit(f: Format, rxMax: nat, b: seq<Byte>, tables: seq<Table>, broken: bool, loopcount: nat,
                     alloc: nat -> bool, frames: seq<seq<Byte>>)
    requires tables != [] && loopcount > 0
    ensures var p := Copy(frames, AllListed(f, rxMax, b, [tables[0]]), alloc);
            Outcome(f, rxMax, b, tables, broken, loopcount, alloc, frames)
            == if p.ok then Outcome(f, rxMax, b, tables[1..], broken, loopcount - 1, alloc, p.frames) else p
  {
    var looked := Looked(tables, loopcount);
    assert looked[0] == tables[0] && looked[1..] == Looked(tables[1..], loopcount - 1);
    assert [tables[0]][1..] == [];
    var here := AllListed(f, rxMax, b, [tables[0]]);
    assert here + AllListed(f, rxMax, b, looked[1..]) == AllListed(f, rxMax, b, looked) by {
      hide Listed;
      assert AllListed(f, rxMax, b, []) == [];
    }
    CopyTwice(frames, here, AllListed(f, rxMax, b, looked[1..]), alloc);
    hide Copy, AllListed, Listed;
  }

  lemma {:induction false} WalkIs(f: Format, rxMax: nat, skb: Skb, at: nat, tables: seq<Table>, broken: bool,
                                  loopcount: nat, alloc: nat -> bool, frames: seq<seq<Byte>>)
    requires ChainBytes(f, skb.bytes, at, tables, broken) && (tables != [] || broken)
    ensures WalkChain(f, rxMax, skb, at, loopcount, alloc, frames)
            == Outcome(f, rxMax, skb.bytes, tables, broken, loopcount, alloc, frames)
    decreases |tables|
  {
    hide WalkChain, Copy, AllListed, TableBytes, NoTable, Outcome;
    if tables == [] {
      WalkBroken(f, rxMax, skb, at, loopcount, alloc, frames);
      OutcomeBroken(f, rxMax, skb.bytes, loopcount, alloc, frames);
    } else {
      var t := tables[0];
      WalkOne(f, rxMax, skb, t, loopcount, alloc, frames);
      TableReads(f, skb, t);
      var p := Copy(frames, AllListed(f, rxMax, skb.bytes, [t]), alloc);
      if loopcount == 0 || (|tables| == 1 && !broken) {
        OutcomeLast(f, rxMax, skb.bytes, tables, broken, loopcount, alloc, frames);
      } else {
        OutcomeSplit(f, rxMax, skb.bytes, tables, broken, loopcount, alloc, frames);
        WalkIs(f, rxMax, skb, t.next, tables[1..], broken, loopcount - 1, alloc, p.frames);
      }
    }
  }

  lemma OutcomeBroken(f: Format, rxMax: nat, b: seq<Byte>, loopcount: nat, alloc: nat -> bool, frames: seq<seq<Byte>>)
    ensures Outcome(f, rxMax, b, [], true, loopcount, alloc, frames) == Progress(false, frames)
  {
  }

  lemma OutcomeLast(f: Format, rxMax: nat, b: seq<Byte>, tables: seq<Table>, broken: bool, loopcount: nat,
                    alloc: nat -> bool, frames: seq<seq<Byte>>)
    requires tables != [] && (loopcount == 0 || (|tables| == 1 && !broken))
    ensures Outcome(f, rxMax, b, tables, broken, loopcount, alloc, frames)
            == Copy(frames, AllListed(f, rxMax, b, [tables[0]]), alloc)
  {
    hide Copy, AllListed;
    assert Looked(tables, loopcount) == [tables[0]];
  }

  // ----- any sender -----

  /**
   * A block of any sender, with bytes behind its tables and frames as it likes: the frames that
   * its tables list are passed up, in order, until a copy fails. The receiver returns 1 if and
   * only if no copy fails and the chain does not lead to a place without a table within the
   * first 51.
   */
  lemma Delivers(f: Format, rxMax: nat, skb: Skb, seqno: nat, length: nat, first: nat, tables: seq<Table>, broken: bool,
                 alloc: nat -> bool)
    requires HeaderBytes(f, rxMax, skb.bytes, seqno, length, first)
    requires first < 0x8000_0000 && (tables != [] || broken) && ChainBytes(f, skb.bytes, first, tables, broken)
    ensures var p := Copy([], AllListed(f, rxMax, skb.bytes, Looked(tables, 50)), alloc);
            RxFixup(f, rxMax, skb, alloc) == Progress(p.ok && !(broken && |tables| <= 50), p.frames)
  {
    hide HeaderOk, HeaderBytes, FirstOffset, WalkChain, Copy, AllListed, ChainBytes;
    HeaderReads(f, rxMax, skb, seqno, length, first);
    WalkIs(f, rxMax, skb, first, tables, broken, 50, alloc, []);
  }

  /** When memory suffices and the chain ends, the receiver returns 1 and passes up exactly what is listed. */
  lemma DeliversAll(f: Format, rxMax: nat, skb: Skb, seqno: nat, length: nat, first: nat, tables: seq<Table>,
                    alloc: nat -> bool)
    requires HeaderBytes(f, rxMax, skb.bytes, seqno, length, first) && AllocOk(alloc)
    requires first < 0x8000_0000 && 0 < |tables| <= 51 && ChainBytes(f, skb.bytes, first, tables, false)
    ensures RxFixup(f, rxMax, skb, alloc) == Progress(true, AllListed(f, rxMax, skb.bytes, tables))
  {
    hide HeaderBytes, ChainBytes, Copy, AllListed, RxFixup;
    Delivers(f, rxMax, skb, seqno, length, first, tables, false, alloc);
    CopyAll([], AllListed(f, rxMax, skb.bytes, tables), alloc);
    assert [] + AllListed(f, rxMax, skb.bytes, tables) == AllListed(f, rxMax, skb.bytes, tables);
  }
}
