/**
 * The receive path undoes the transmit path: every NTB of every run, given to
 * cdc_ncm_rx_fixup, yields the frames that were put into it.
 */
module NcmRoundTrip {
  import opened Bytes
  import opened Options
  import opened NcmFormat
  import opened NcmTx
  import opened NcmSystem
  import opened NcmFifo
  import opened NcmLayout
  import opened NcmBlocks
  import opened NcmRx

  function Data(es: seq<Entry>): (r: seq<seq<Byte>>)
    ensures |r| == |es|
  {
    seq(|es|, i requires 0 <= i < |es| => es[i].pkt.data)
  }

  // ----- reading a field that was written -----

  lemma ReadField(skb: Skb, off: nat, w: nat, v: nat)
    requires off + w <= |skb.bytes| && v < Capacity(w)
    requires skb.bytes[off..off + w] == Le(w, v)
    ensures Read(skb, off, w) == v
  {
    ReadInside(skb, off, w);
    FieldRoundTrip(w, v);
  }

  lemma {:induction false} FieldAtMost(w: nat, v: nat)
    ensures FromLe(Le(w, v)) <= v
  {
    if w > 0 {
      FieldAtMost(w - 1, v / 256);
      assert Le(w, v)[1..] == Le(w - 1, v / 256);
    }
  }

  // ----- a table -----

  lemma VerifyTable(c: Cfg, skb: Skb, off: nat, sig: nat, next: nat, es: seq<Entry>)
    requires c.Valid() && NdpAt(c, skb.bytes, off, sig, next, es) && es != []
    ensures VerifyNdp(c.fmt, skb, off) == Some(|es|)
  {
    hide Read, EntriesAt, Le, FromLe;
    var f := c.fmt;
    Capacities();
    EntriesAreLinear(f, |es|, c.maxDatagrams);
    EntriesAreLinear(f, |es|, |es|);
    EntriesAreLinear(f, 1, |es|);
    ReadField(skb, off + 4, 2, f.NdpLen() + f.Entries(|es| + 1));
  }

  lemma TableFields(c: Cfg, skb: Skb, off: nat, sig: nat, next: nat, es: seq<Entry>)
    requires c.Valid() && NdpAt(c, skb.bytes, off, sig, next, es)
    requires sig < 0x1_0000_0000 && next < (if c.fmt.Ntb16? then 0x1_0000 else 0x8000_0000)
    ensures NoCrcTable(c.fmt, skb, off) == (sig == c.fmt.NoCrcSign())
    ensures NextOffset(c.fmt, skb, off) == next
  {
    hide Read, EntriesAt, Le, FromLe;
    var f := c.fmt;
    Capacities();
    EntriesAreLinear(f, 0, c.maxDatagrams + 1);
    ReadField(skb, off, 4, sig);
    ReadField(skb, off + f.NextAt(), f.Width(), next);
  }

  /** A frame the receiver accepts. */
  ghost predicate Receivable(f: Format, rxMax: nat, b: seq<Byte>, e: Entry) {
    && PayloadAt(f, b, e)
    && ETH_HLEN <= |e.pkt.data| <= rxMax
    && f.Addressable(|b|)
  }

  lemma EntryReads(c: Cfg, rxMax: nat, skb: Skb, off: nat, x: nat, e: Entry)
    requires EntryAt(c.fmt, skb.bytes, off + c.fmt.NdpLen() + c.fmt.Entries(x), e)
    requires Receivable(c.fmt, rxMax, skb.bytes, e)
    ensures IndexOf(c.fmt, skb, off, x) == e.off
    ensures LengthOf(c.fmt, skb, off, x) == |e.pkt.data|
  {
    var f := c.fmt;
    var at := off + f.NdpLen() + f.Entries(x);
    Capacities();
    ReadField(skb, at, f.Width(), e.off);
    ReadField(skb, at + f.Width(), f.Width(), |e.pkt.data|);
  }

  lemma EntryIsGood(c: Cfg, rxMax: nat, skb: Skb, off: nat, x: nat, e: Entry)
    requires EntryAt(c.fmt, skb.bytes, off + c.fmt.NdpLen() + c.fmt.Entries(x), e)
    requires Receivable(c.fmt, rxMax, skb.bytes, e)
    ensures GoodEntry(c.fmt, rxMax, skb, off, x)
    ensures Datagram(c.fmt, rxMax, skb, off, x) == e.pkt.data
  {
    hide IndexOf, LengthOf, EntryAt;
    EntryReads(c, rxMax, skb, off, x, e);
  }

  lemma {:induction false} TableDatagrams(c: Cfg, rxMax: nat, skb: Skb, off: nat, es: seq<Entry>, x: nat)
    requires EntriesAt(c.fmt, skb.bytes, off + c.fmt.NdpLen(), es) && x <= |es|
    requires forall e | e in es :: Receivable(c.fmt, rxMax, skb.bytes, e)
    ensures Datagrams(c.fmt, rxMax, skb, off, x, |es|) == Data(es[x..])
    decreases |es| - x
  {
    hide GoodEntry, Datagram, EntryAt, Receivable;
    if x < |es| {
      EntryIsGood(c, rxMax, skb, off, x, es[x]);
      TableDatagrams(c, rxMax, skb, off, es, x + 1);
      assert Data(es[x..]) == [es[x].pkt.data] + Data(es[x + 1..]);
    } else {
      assert Data(es[x..]) == [];
    }
  }

  lemma {:induction false} SubMembers(placed: seq<Entry>, sig: nat)
    ensures forall e | e in Sub(placed, sig) :: e in placed
  {
    if placed != [] {
      var rest := placed[..|placed| - 1];
      SubMembers(rest, sig);
      assert forall e | e in rest :: e in placed;
    }
  }

  // ----- the chain -----

  /** What table `j` contributes. */
  function Here(f: Format, ntb: Ntb, j: nat): seq<seq<Byte>>
    requires j < |ntb.ndps|
  {
    if ntb.ndps[j].sig == f.NoCrcSign() then Data(Sub(ntb.placed, f.NoCrcSign())) else []
  }

  /** The frames of the tables from `j` on that carry no CRC. */
  function From(f: Format, ntb: Ntb, j: nat): seq<seq<Byte>>
    requires j <= |ntb.ndps|
    decreases |ntb.ndps| - j
  {
    if j == |ntb.ndps| then []
    else Here(f, ntb, j) + From(f, ntb, j + 1)
  }

  /** A block, received by a driver that accepts NTBs of up to `rxMax` bytes. */
  ghost predicate Accepted(c: Cfg, rxMax: nat, ntb: Ntb, skb: Skb) {
    && Sound(c, ntb)
    && skb.bytes == ntb.bytes
    && |ntb.bytes| <= rxMax
    && forall k | 0 <= k < |ntb.placed| :: ETH_HLEN <= |ntb.placed[k].pkt.data|
  }

  lemma AllReceivable(c: Cfg, rxMax: nat, ntb: Ntb, skb: Skb)
    requires Accepted(c, rxMax, ntb, skb)
    ensures forall e | e in ntb.placed :: Receivable(c.fmt, rxMax, skb.bytes, e)
  {
    forall e | e in ntb.placed
      ensures Receivable(c.fmt, rxMax, skb.bytes, e)
    {
      var k :| 0 <= k < |ntb.placed| && ntb.placed[k] == e;
      assert PayloadAt(c.fmt, ntb.bytes, ntb.placed[k]);
    }
  }

  lemma NextFits(c: Cfg, rxMax: nat, ntb: Ntb, skb: Skb, j: nat)
    requires Accepted(c, rxMax, ntb, skb) && j < |ntb.ndps|
    ensures NextOf(ntb.ndps, j) < (if c.fmt.Ntb16? then 0x1_0000 else 0x8000_0000)
    ensures NextOf(ntb.ndps, j) == 0 <==> j + 1 == |ntb.ndps|
  {
    hide Tables, Payloads, Apart, Signatures, NonEmpty, HeaderAt, FirstAt, LengthAt;
  }

  lemma OneTable(c: Cfg, rxMax: nat, ntb: Ntb, skb: Skb, j: nat)
    requires c.Valid() && Accepted(c, rxMax, ntb, skb) && j < |ntb.ndps|
    ensures var ndp := ntb.ndps[j];
            var es := Sub(ntb.placed, ndp.sig);
            && VerifyNdp(c.fmt, skb, ndp.off) == Some(|es|)
            && NextOffset(c.fmt, skb, ndp.off) == NextOf(ntb.ndps, j)
            && NoCrcTable(c.fmt, skb, ndp.off) == (ndp.sig == c.fmt.NoCrcSign())
            && EntriesAt(c.fmt, skb.bytes, ndp.off + c.fmt.NdpLen(), es)
  {
    hide VerifyNdp, NextOffset, NoCrcTable;
    hide Payloads, Apart, EntriesAt, Sub, LengthAt, HeaderAt, FirstAt, Ordered, NextOf;
    var ndp := ntb.ndps[j];
    var es := Sub(ntb.placed, ndp.sig);
    assert TableAt(c, ntb, j);
    NextFits(c, rxMax, ntb, skb, j);
    VerifyTable(c, skb, ndp.off, ndp.sig, NextOf(ntb.ndps, j), es);
    TableFields(c, skb, ndp.off, ndp.sig, NextOf(ntb.ndps, j), es);
  }

  lemma OneTableFrames(c: Cfg, rxMax: nat, ntb: Ntb, skb: Skb, j: nat)
    requires c.Valid() && Accepted(c, rxMax, ntb, skb) && j < |ntb.ndps|
    ensures TableFrames(c.fmt, rxMax, skb, ntb.ndps[j].off, |Sub(ntb.placed, ntb.ndps[j].sig)|) == Here(c.fmt, ntb, j)
  {
    hide VerifyNdp, NextOffset, NoCrcTable, Datagrams, Sub, Accepted, Receivable, EntriesAt;
    var es := Sub(ntb.placed, ntb.ndps[j].sig);
    OneTable(c, rxMax, ntb, skb, j);
    AllReceivable(c, rxMax, ntb, skb);
    SubMembers(ntb.placed, ntb.ndps[j].sig);
    TableDatagrams(c, rxMax, skb, ntb.ndps[j].off, es, 0);
    assert es[0..] == es;
  }

  lemma WalkOneTable(c: Cfg, rxMax: nat, ntb: Ntb, skb: Skb, j: nat, alloc: nat -> bool, frames: seq<seq<Byte>>)
    requires c.Valid() && Accepted(c, rxMax, ntb, skb) && AllocOk(alloc) && j < |ntb.ndps|
    ensures var es := Sub(ntb.placed, ntb.ndps[j].sig);
            && VerifyNdp(c.fmt, skb, ntb.ndps[j].off) == Some(|es|)
            && WalkTable(c.fmt, rxMax, skb, ntb.ndps[j].off, |es|, alloc, frames)
               == Progress(true, frames + Here(c.fmt, ntb, j))
            && NextOffset(c.fmt, skb, ntb.ndps[j].off) == NextOf(ntb.ndps, j)
  {
    hide WalkTable, VerifyNdp, NextOffset, NoCrcTable, Sub, Accepted, EntriesAt, TableFrames, Here;
    var es := Sub(ntb.placed, ntb.ndps[j].sig);
    OneTable(c, rxMax, ntb, skb, j);
    OneTableFrames(c, rxMax, ntb, skb, j);
    WalkTableDelivers(c.fmt, rxMax, skb, ntb.ndps[j].off, |es|, alloc, frames);
  }

  lemma {:induction false} WalkFrom(c: Cfg, rxMax: nat, ntb: Ntb, skb: Skb, j: nat, loopcount: nat,
                                    alloc: nat -> bool, frames: seq<seq<Byte>>)
    requires c.Valid() && Accepted(c, rxMax, ntb, skb) && AllocOk(alloc)
    requires j < |ntb.ndps| <= j + loopcount + 1
    ensures WalkChain(c.fmt, rxMax, skb, ntb.ndps[j].off, loopcount, alloc, frames)
            == Progress(true, frames + From(c.fmt, ntb, j))
    decreases loopcount
  {
    hide Accepted, WalkTable, VerifyNdp, NextOffset, Here, From, WalkChain, Sub;
    var here := Here(c.fmt, ntb, j);
    WalkOneTable(c, rxMax, ntb, skb, j, alloc, frames);
    NextFits(c, rxMax, ntb, skb, j);
    FromSplit(c.fmt, ntb, j);
    WalkStep(c.fmt, rxMax, skb, ntb.ndps[j].off, loopcount, alloc, frames, here, NextOf(ntb.ndps, j));
    if j + 1 < |ntb.ndps| {
      WalkFrom(c, rxMax, ntb, skb, j + 1, loopcount - 1, alloc, frames + here);
      Assoc(frames, here, From(c.fmt, ntb, j + 1));
    }
  }

  /** One table of the walk. */
  lemma WalkStep(f: Format, rxMax: nat, skb: Skb, off: int, loopcount: nat, alloc: nat -> bool,
                 frames: seq<seq<Byte>>, here: seq<seq<Byte>>, next: int)
    requires VerifyNdp(f, skb, off).Some?
    requires WalkTable(f, rxMax, skb, off, VerifyNdp(f, skb, off).value, alloc, frames) == Progress(true, frames + here)
    requires NextOffset(f, skb, off) == next
    ensures WalkChain(f, rxMax, skb, off, loopcount, alloc, frames)
            == if next != 0 && loopcount > 0 then WalkChain(f, rxMax, skb, next, loopcount - 1, alloc, frames + here)
               else Progress(true, frames + here)
  {
    hide VerifyNdp, WalkTable, NextOffset;
  }

  lemma FromSplit(f: Format, ntb: Ntb, j: nat)
    requires j < |ntb.ndps|
    ensures From(f, ntb, j) == Here(f, ntb, j) + From(f, ntb, j + 1)
    ensures j + 1 == |ntb.ndps| ==> From(f, ntb, j) == Here(f, ntb, j)
  {
  }

  /** At most one table carries no CRC, and it lists all such frames. */
  lemma {:induction false} FromIsSub(f: Format, ntb: Ntb, j: nat)
    requires j <= |ntb.ndps| && Signatures(ntb.ndps, ntb.placed)
    ensures (exists i :: j <= i < |ntb.ndps| && ntb.ndps[i].sig == f.NoCrcSign())
            ==> From(f, ntb, j) == Data(Sub(ntb.placed, f.NoCrcSign()))
    ensures (forall i | j <= i < |ntb.ndps| :: ntb.ndps[i].sig != f.NoCrcSign()) ==> From(f, ntb, j) == []
    decreases |ntb.ndps| - j
  {
    hide Sub, Data;
    if j < |ntb.ndps| {
      FromIsSub(f, ntb, j + 1);
      FromSplit(f, ntb, j);
      var here := Data(Sub(ntb.placed, f.NoCrcSign()));
      assert here + [] == here;
    }
  }

  lemma FromStart(c: Cfg, ntb: Ntb)
    requires Signatures(ntb.ndps, ntb.placed)
    ensures From(c.fmt, ntb, 0) == Data(Sub(ntb.placed, c.fmt.NoCrcSign()))
  {
    FromIsSub(c.fmt, ntb, 0);
    if forall i | 0 <= i < |ntb.ndps| :: ntb.ndps[i].sig != c.fmt.NoCrcSign() {
      forall k | 0 <= k < |ntb.placed|
        ensures ntb.placed[k].pkt.sig != c.fmt.NoCrcSign()
      {
        var j :| 0 <= j < |ntb.ndps| && ntb.ndps[j].sig == ntb.placed[k].pkt.sig;
      }
      SubNone(ntb.placed, c.fmt.NoCrcSign());
    }
  }

  lemma HeaderAccepted(c: Cfg, rxMax: nat, ntb: Ntb, skb: Skb)
    requires c.Valid() && Accepted(c, rxMax, ntb, skb)
    ensures ntb.ndps != []
    ensures HeaderOk(c.fmt, rxMax, skb) && FirstOffset(c.fmt, skb) == ntb.ndps[0].off
    ensures Sequence(skb) == ntb.seqno % 0x1_0000
  {
    hide Read, Tables, Payloads, Apart, NonEmpty;
    var f := c.fmt;
    Capacities();
    assert exists j :: 0 <= j < |ntb.ndps| && ntb.ndps[j].sig == ntb.placed[0].pkt.sig;
    EntriesAreLinear(f, 0, c.maxDatagrams + 1);
    ReadField(skb, 0, 4, f.NthSign());
    ReadInside(skb, f.BlockLengthAt(), f.Width());
    FieldAtMost(f.Width(), |skb.bytes|);
    ReadField(skb, f.NdpIndexAt(), f.Width(), ntb.ndps[0].off);
    ReadInside(skb, 6, 2);
    Le2(ntb.seqno);
  }

  lemma Le2(v: nat)
    ensures FromLe(Le(2, v)) == v % 0x1_0000
  {
    assert Le(2, v)[1..] == Le(1, v / 256);
    Le1(v / 256);
  }

  lemma Le1(v: nat)
    ensures FromLe(Le(1, v)) == v % 256
  {
    assert Le(1, v)[1..] == [];
  }

  /** One block: the receiver returns 1 and delivers exactly the frames without a CRC, in order. */
  lemma BlockRoundTrip(c: Cfg, rxMax: nat, ntb: Ntb, skb: Skb, alloc: nat -> bool)
    requires c.Valid() && Accepted(c, rxMax, ntb, skb) && AllocOk(alloc)
    requires |ntb.ndps| <= LOOP_COUNT + 1
    ensures RxFixup(c.fmt, rxMax, skb, alloc) == Progress(true, Data(Sub(ntb.placed, c.fmt.NoCrcSign())))
  {
    hide HeaderOk, FirstOffset, WalkChain, From, Sub;
    HeaderAccepted(c, rxMax, ntb, skb);
    WalkFrom(c, rxMax, ntb, skb, 0, LOOP_COUNT, alloc, []);
    FromStart(c, ntb);
    var d := Data(Sub(ntb.placed, c.fmt.NoCrcSign()));
    assert [] + d == d;
  }

  // ----- runs -----

  /** What a receiver passes up that is given every block in order, or nothing once it fails. */
  function ReceiveAll(f: Format, rxMax: nat, beyond: int -> Byte, alloc: nat -> bool, blocks: seq<Block>): Progress {
    if blocks == [] then Progress(true, [])
    else
      var before := ReceiveAll(f, rxMax, beyond, alloc, blocks[..|blocks| - 1]);
      var last := RxFixup(f, rxMax, Skb(blocks[|blocks| - 1].ntb.bytes, beyond), alloc);
      Progress(before.ok && last.ok, before.frames + last.frames)
  }

  /** The contents of the frames of `q` that carry no CRC. */
  function NoCrcData(f: Format, q: seq<Pkt>): seq<seq<Byte>> {
    if q == [] then []
    else
      var rest := NoCrcData(f, q[..|q| - 1]);
      var last := q[|q| - 1];
      if last.sig == f.NoCrcSign() then rest + [last.data] else rest
  }

  lemma {:induction false} NoCrcConcat(f: Format, a: seq<Pkt>, b: seq<Pkt>)
    ensures NoCrcData(f, a + b) == NoCrcData(f, a) + NoCrcData(f, b)
  {
    if b == [] {
      assert a + b == a;
    } else {
      NoCrcConcat(f, a, b[..|b| - 1]);
      assert (a + b)[..|a + b| - 1] == a + b[..|b| - 1];
    }
  }

  lemma {:induction false} SubData(f: Format, placed: seq<Entry>)
    ensures Data(Sub(placed, f.NoCrcSign())) == NoCrcData(f, Pkts(placed))
  {
    if placed == [] {
      assert Pkts(placed) == [];
    } else {
      var rest := placed[..|placed| - 1];
      var last := placed[|placed| - 1];
      SubData(f, rest);
      assert Pkts(placed)[..|placed| - 1] == Pkts(rest);
      assert Data(Sub(rest, f.NoCrcSign()) + [last]) == Data(Sub(rest, f.NoCrcSign())) + [last.pkt.data];
    }
  }

  /** Frames of one signature make one table. */
  lemma OneSignature(c: Cfg, ntb: Ntb, sig: nat)
    requires Sound(c, ntb) && forall k | 0 <= k < |ntb.placed| :: ntb.placed[k].pkt.sig == sig
    ensures |ntb.ndps| <= 1
  {
    hide Tables, Payloads, HeaderAt, FirstAt, Ordered, Apart, LengthAt;
    forall j | 0 <= j < |ntb.ndps|
      ensures ntb.ndps[j].sig == sig
    {
      if ntb.ndps[j].sig != sig {
        SubNone(ntb.placed, ntb.ndps[j].sig);
      }
    }
    if |ntb.ndps| > 1 {
      TwoTables(ntb.ndps, ntb.placed);
    }
  }

  lemma TwoTables(ndps: seq<NdpRef>, placed: seq<Entry>)
    requires Signatures(ndps, placed) && |ndps| > 1
    ensures ndps[0].sig != ndps[1].sig
  {
  }

  /** All blocks fit the receiver, and all their frames are Ethernet frames. */
  ghost predicate Deliverable(rxMax: nat, blocks: seq<Block>) {
    forall b | b in blocks ::
      && |b.ntb.bytes| <= rxMax
      && |b.ntb.ndps| <= LOOP_COUNT + 1
      && forall k | 0 <= k < |b.ntb.placed| :: ETH_HLEN <= |b.ntb.placed[k].pkt.data|
  }

  lemma {:induction false} ReceiveAllSent(c: Cfg, rxMax: nat, beyond: int -> Byte, alloc: nat -> bool,
                                          blocks: seq<Block>)
    requires c.Valid() && AllocOk(alloc)
    requires BlocksSound(c, blocks) && Deliverable(rxMax, blocks)
    ensures ReceiveAll(c.fmt, rxMax, beyond, alloc, blocks) == Progress(true, NoCrcData(c.fmt, Sent(blocks)))
  {
    hide RxFixup, Sound;
    if blocks != [] {
      var rest := blocks[..|blocks| - 1];
      var last := blocks[|blocks| - 1];
      assert last in blocks && forall b | b in rest :: b in blocks;
      ReceiveAllSent(c, rxMax, beyond, alloc, rest);
      BlockRoundTrip(c, rxMax, last.ntb, Skb(last.ntb.bytes, beyond), alloc);
      SubData(c.fmt, last.ntb.placed);
      NoCrcConcat(c.fmt, Sent(rest), Pkts(last.ntb.placed));
    }
  }

  lemma {:induction false} SentFrame(blocks: seq<Block>, b: Block, k: nat)
    requires b in blocks && k < |b.ntb.placed|
    ensures b.ntb.placed[k].pkt in Sent(blocks)
  {
    var rest := blocks[..|blocks| - 1];
    var last := blocks[|blocks| - 1];
    if b == last {
      assert Pkts(last.ntb.placed)[k] == b.ntb.placed[k].pkt;
      assert Sent(blocks)[|Sent(rest)| + k] == b.ntb.placed[k].pkt;
    } else {
      SentFrame(rest, b, k);
    }
  }

  /** Every frame in a block was submitted. */
  lemma SentWasSubmitted(c: Cfg, newTx: nat, interval: nat, ops: seq<Op>, b: Block, k: nat)
    requires c.Valid() && b in Run(c, newTx, interval, ops).blocks && k < |b.ntb.placed|
    ensures b.ntb.placed[k].pkt in Run(c, newTx, interval, ops).submitted
  {
    var s := Run(c, newTx, interval, ops);
    FifoConservation(c, newTx, interval, ops);
    KeepMembers(s.submitted, DropIds(s.drops));
    SentFrame(s.blocks, b, k);
    assert b.ntb.placed[k].pkt in Sent(s.blocks) + Held(s.tx);
  }

  /** The receiver follows as many tables as a block has. */
  lemma FewTables(c: Cfg, newTx: nat, interval: nat, ops: seq<Op>, b: Block)
    requires c.Valid() && b in Run(c, newTx, interval, ops).blocks && Sound(c, b.ntb)
    requires c.maxDatagrams <= LOOP_COUNT + 1
             || forall p | p in Run(c, newTx, interval, ops).submitted :: p.sig == c.fmt.NoCrcSign()
    ensures |b.ntb.ndps| <= LOOP_COUNT + 1
  {
    hide Run, Chained, LengthAt;
    if c.maxDatagrams > LOOP_COUNT + 1 {
      forall k | 0 <= k < |b.ntb.placed|
        ensures b.ntb.placed[k].pkt.sig == c.fmt.NoCrcSign()
      {
        SentWasSubmitted(c, newTx, interval, ops, b, k);
      }
      OneSignature(c, b.ntb, c.fmt.NoCrcSign());
    }
  }

  /**
   * Round trip over whole runs: a receiver that is given every NTB of a run in order returns 1
   * each time and passes up exactly the submitted frames without a CRC that were neither
   * dropped nor are still held, in order. Frames that all carry no CRC may be sent with any
   * limit on datagrams; for a mixture the limit must not exceed what the receiver follows.
   */
  lemma RunRoundTrip(c: Cfg, newTx: nat, interval: nat, ops: seq<Op>, rxMax: nat, beyond: int -> Byte,
                     alloc: nat -> bool)
    requires c.Valid() && ValidOps(c, ops) && AllocOk(alloc)
    requires c.maxDatagrams <= LOOP_COUNT + 1
             || forall p | p in Run(c, newTx, interval, ops).submitted :: p.sig == c.fmt.NoCrcSign()
    requires forall b | b in Run(c, newTx, interval, ops).blocks :: |b.ntb.bytes| <= rxMax
    requires forall p | p in Run(c, newTx, interval, ops).submitted :: ETH_HLEN <= |p.data|
    ensures var s := Run(c, newTx, interval, ops);
            var got := ReceiveAll(c.fmt, rxMax, beyond, alloc, s.blocks);
            && got.ok
            && got.frames + NoCrcData(c.fmt, Held(s.tx)) == NoCrcData(c.fmt, Keep(s.submitted, DropIds(s.drops)))
  {
    var s := Run(c, newTx, interval, ops);
    BlocksAlwaysSound(c, newTx, interval, ops);
    FifoConservation(c, newTx, interval, ops);
    forall b, k | b in s.blocks && 0 <= k < |b.ntb.placed|
      ensures ETH_HLEN <= |b.ntb.placed[k].pkt.data|
    {
      SentWasSubmitted(c, newTx, interval, ops, b, k);
    }
    forall b | b in s.blocks
      ensures |b.ntb.ndps| <= LOOP_COUNT + 1
    {
      FewTables(c, newTx, interval, ops, b);
    }
    hide Run, ReceiveAll, FifoInv, BlocksSound, TxInv;
    ReceiveAllSent(c, rxMax, beyond, alloc, s.blocks);
    NoCrcConcat(c.fmt, Sent(s.blocks), Held(s.tx));
  }
}
