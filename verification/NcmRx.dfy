/**
 * The receive path of the NCM driver: cdc_ncm_rx_fixup and the checks it is made of. A block
 * may hold any bytes; what lies outside of it is read as an unknown byte.
 */
module NcmRx {
  import opened Bytes
  import opened Options
  import opened NcmFormat

  /** A received buffer and whatever memory surrounds it. */
  datatype Skb = Skb(bytes: seq<Byte>, beyond: int -> Byte)

  function ByteAt(skb: Skb, i: int): Byte {
    if 0 <= i < |skb.bytes| then skb.bytes[i] else skb.beyond(i)
  }

  function Window(skb: Skb, off: int, w: nat): (s: seq<Byte>)
    ensures |s| == w
    ensures forall i | 0 <= i < w :: s[i] == ByteAt(skb, off + i)
  {
    if w == 0 then [] else Window(skb, off, w - 1) + [ByteAt(skb, off + w - 1)]
  }

  /** A little-endian field of a struct that may reach past the buffer. */
  function Read(skb: Skb, off: int, w: nat): nat {
    FromLe(Window(skb, off, w))
  }

  lemma ReadInside(skb: Skb, off: nat, w: nat)
    requires off + w <= |skb.bytes|
    ensures Read(skb, off, w) == Field(skb.bytes, off, w)
  {
    assert Window(skb, off, w) == skb.bytes[off..off + w];
  }

  /** An index that is kept in an int. */
  function Signed(f: Format, v: nat): int {
    if f.Ntb32? && v >= 0x8000_0000 then v - 0x1_0000_0000 else v
  }

  // ----- the header -----

  /** The debug message about a gap in the sequence numbers. */
  predicate Glitch(prev: nat, curr: nat) {
    prev + 1 != curr && (prev != 0 || curr != 0) && !(prev == 0xFFFF && curr == 0)
  }

  predicate HeaderOk(f: Format, rxMax: nat, skb: Skb) {
    && f.NthLen() + f.NdpLen() <= |skb.bytes|
    && Read(skb, 0, 4) == f.NthSign()
    && Read(skb, f.BlockLengthAt(), f.Width()) <= rxMax
  }

  function Sequence(skb: Skb): nat { Read(skb, 6, 2) }

  function FirstOffset(f: Format, skb: Skb): int {
    Signed(f, Read(skb, f.NdpIndexAt(), f.Width()))
  }

  // ----- a table -----

  /** The number of entries in a table of `bytes` bytes, without the last one. */
  function EntryCount(f: Format, bytes: nat): int {
    (if f.Ntb16? then bytes / 4 else bytes / 8) - 1
  }

  /** cdc_ncm_rx_verify_ndp16 and cdc_ncm_rx_verify_ndp32; the sum is one of size_t. */
  function VerifyNdp(f: Format, skb: Skb, off: int): Option<nat> {
    if off + f.NdpLen() < 0 || off + f.NdpLen() > |skb.bytes| then None
    else
      var length := Read(skb, off + 4, 2);
      if length < f.NdpLengthMin() then None
      else
        var n := EntryCount(f, length - f.NdpLen());
        if f.NdpLen() + f.Entries(n) > |skb.bytes| then None else Some(n)
  }

  predicate NoCrcTable(f: Format, skb: Skb, off: int) {
    Read(skb, off, 4) == f.NoCrcSign()
  }

  function NextOffset(f: Format, skb: Skb, off: int): int {
    Signed(f, Read(skb, off + f.NextAt(), f.Width()))
  }

  function IndexOf(f: Format, skb: Skb, off: int, x: nat): nat {
    Read(skb, off + f.NdpLen() + f.Entries(x), f.Width())
  }

  function LengthOf(f: Format, skb: Skb, off: int, x: nat): nat {
    Read(skb, off + f.NdpLen() + f.Entries(x) + f.Width(), f.Width())
  }

  /** Entry `x` is not null and names a datagram inside the block. */
  predicate GoodEntry(f: Format, rxMax: nat, skb: Skb, off: int, x: nat) {
    var index := IndexOf(f, skb, off, x);
    var length := LengthOf(f, skb, off, x);
    && index != 0
    && length != 0
    && index <= |skb.bytes|
    && length <= |skb.bytes| - index
    && length <= rxMax
    && ETH_HLEN <= length
  }

  function Datagram(f: Format, rxMax: nat, skb: Skb, off: int, x: nat): (d: seq<Byte>)
    requires GoodEntry(f, rxMax, skb, off, x)
    ensures ETH_HLEN <= |d| <= rxMax
  {
    var index := IndexOf(f, skb, off, x);
    skb.bytes[index..index + LengthOf(f, skb, off, x)]
  }

  // ----- the walk -----

  /** The frames that were passed up so far, and whether the walk may go on. */
  datatype Progress = Progress(ok: bool, frames: seq<seq<Byte>>)

  /** The entries of one table from `x` on; `alloc(k)` says whether the k-th frame can be copied. */
  function WalkEntries(f: Format, rxMax: nat, skb: Skb, off: int, x: nat, n: nat,
                       alloc: nat -> bool, frames: seq<seq<Byte>>): Progress
    decreases n - x
  {
    if x >= n || !GoodEntry(f, rxMax, skb, off, x) then Progress(true, frames)
    else if !alloc(|frames|) then Progress(false, frames)
    else WalkEntries(f, rxMax, skb, off, x + 1, n, alloc, frames + [Datagram(f, rxMax, skb, off, x)])
  }

  function WalkTable(f: Format, rxMax: nat, skb: Skb, off: int, n: nat,
                     alloc: nat -> bool, frames: seq<seq<Byte>>): Progress
  {
    if NoCrcTable(f, skb, off) then WalkEntries(f, rxMax, skb, off, 0, n, alloc, frames)
    else Progress(true, frames)
  }

  /** The chain of tables from `off` on; `loopcount` more may follow. */
  function WalkChain(f: Format, rxMax: nat, skb: Skb, off: int, loopcount: nat,
                     alloc: nat -> bool, frames: seq<seq<Byte>>): Progress
    decreases loopcount
  {
    match VerifyNdp(f, skb, off)
    case None => Progress(false, frames)
    case Some(n) =>
      var p := WalkTable(f, rxMax, skb, off, n, alloc, frames);
      var next := NextOffset(f, skb, off);
      if !p.ok then p
      else if next != 0 && loopcount > 0 then WalkChain(f, rxMax, skb, next, loopcount - 1, alloc, p.frames)
      else p
  }

  const LOOP_COUNT: nat := 50

  /** cdc_ncm_rx_fixup */
  function RxFixup(f: Format, rxMax: nat, skb: Skb, alloc: nat -> bool): Progress {
    if !HeaderOk(f, rxMax, skb) || FirstOffset(f, skb) < 0 then Progress(false, [])
    else WalkChain(f, rxMax, skb, FirstOffset(f, skb), LOOP_COUNT, alloc, [])
  }

  // ----- what is delivered -----

  /** The entries of a table before the first null or invalid one. */
  function Leading(f: Format, rxMax: nat, skb: Skb, off: int, x: nat, n: nat): (m: nat)
    requires x <= n
    ensures x <= m <= n
    ensures forall i | x <= i < m :: GoodEntry(f, rxMax, skb, off, i)
    ensures m < n ==> !GoodEntry(f, rxMax, skb, off, m)
    decreases n - x
  {
    if x == n || !GoodEntry(f, rxMax, skb, off, x) then x else Leading(f, rxMax, skb, off, x + 1, n)
  }

  /** The datagrams of a table from entry `x` on, up to its first null or invalid one. */
  function Datagrams(f: Format, rxMax: nat, skb: Skb, off: int, x: nat, n: nat): seq<seq<Byte>>
    decreases n - x
  {
    if x >= n || !GoodEntry(f, rxMax, skb, off, x) then []
    else [Datagram(f, rxMax, skb, off, x)] + Datagrams(f, rxMax, skb, off, x + 1, n)
  }

  lemma {:induction false} DatagramsAreLeading(f: Format, rxMax: nat, skb: Skb, off: int, x: nat, n: nat)
    requires x <= n
    ensures var m := Leading(f, rxMax, skb, off, x, n);
            var d := Datagrams(f, rxMax, skb, off, x, n);
            |d| == m - x && forall i | x <= i < m :: d[i - x] == Datagram(f, rxMax, skb, off, i)
    decreases n - x
  {
    hide GoodEntry, Datagram;
    if x < n && GoodEntry(f, rxMax, skb, off, x) {
      DatagramsAreLeading(f, rxMax, skb, off, x + 1, n);
    }
  }

  /** What a table contributes: nothing if its datagrams carry a CRC. */
  function TableFrames(f: Format, rxMax: nat, skb: Skb, off: int, n: nat): seq<seq<Byte>> {
    if NoCrcTable(f, skb, off) then Datagrams(f, rxMax, skb, off, 0, n) else []
  }

  /** The tables a walk looks at. */
  function Visited(f: Format, skb: Skb, off: int, loopcount: nat): (v: seq<int>)
    ensures |v| <= loopcount + 1
    decreases loopcount
  {
    if VerifyNdp(f, skb, off).None? then []
    else if NextOffset(f, skb, off) != 0 && loopcount > 0 then
      [off] + Visited(f, skb, NextOffset(f, skb, off), loopcount - 1)
    else [off]
  }

  function Frames(f: Format, rxMax: nat, skb: Skb, tables: seq<int>): seq<seq<Byte>> {
    if tables == [] then []
    else
      var n := VerifyNdp(f, skb, tables[0]);
      (if n.Some? then TableFrames(f, rxMax, skb, tables[0], n.value) else [])
      + Frames(f, rxMax, skb, tables[1..])
  }

  ghost predicate AllocOk(alloc: nat -> bool) {
    forall k :: alloc(k)
  }

  lemma {:induction false} WalkEntriesDelivers(f: Format, rxMax: nat, skb: Skb, off: int, x: nat, n: nat,
                                               alloc: nat -> bool, frames: seq<seq<Byte>>)
    requires AllocOk(alloc)
    ensures WalkEntries(f, rxMax, skb, off, x, n, alloc, frames)
            == Progress(true, frames + Datagrams(f, rxMax, skb, off, x, n))
    decreases n - x
  {
    hide GoodEntry, Datagram;
    var rest := Datagrams(f, rxMax, skb, off, x, n);
    if x < n && GoodEntry(f, rxMax, skb, off, x) {
      var d := Datagram(f, rxMax, skb, off, x);
      WalkEntriesDelivers(f, rxMax, skb, off, x + 1, n, alloc, frames + [d]);
      Assoc(frames, [d], Datagrams(f, rxMax, skb, off, x + 1, n));
    } else {
      assert frames + rest == frames;
    }
  }

  lemma WalkTableDelivers(f: Format, rxMax: nat, skb: Skb, off: int, n: nat, alloc: nat -> bool, frames: seq<seq<Byte>>)
    requires AllocOk(alloc)
    ensures WalkTable(f, rxMax, skb, off, n, alloc, frames)
            == Progress(true, frames + TableFrames(f, rxMax, skb, off, n))
  {
    WalkEntriesDelivers(f, rxMax, skb, off, 0, n, alloc, frames);
    assert frames + [] == frames;
  }

  lemma {:induction false} WalkChainDelivers(f: Format, rxMax: nat, skb: Skb, off: int, loopcount: nat,
                                             alloc: nat -> bool, frames: seq<seq<Byte>>)
    requires AllocOk(alloc)
    ensures WalkChain(f, rxMax, skb, off, loopcount, alloc, frames).frames
            == frames + Frames(f, rxMax, skb, Visited(f, skb, off, loopcount))
    decreases loopcount
  {
    hide WalkTable, TableFrames, VerifyNdp, NextOffset;
    var v := Visited(f, skb, off, loopcount);
    var n := VerifyNdp(f, skb, off);
    var next := NextOffset(f, skb, off);
    if n.None? {
      assert frames + [] == frames;
    } else {
      var here := TableFrames(f, rxMax, skb, off, n.value);
      WalkTableDelivers(f, rxMax, skb, off, n.value, alloc, frames);
      if next != 0 && loopcount > 0 {
        WalkChainDelivers(f, rxMax, skb, next, loopcount - 1, alloc, frames + here);
        assert v == [off] + Visited(f, skb, next, loopcount - 1);
      }
      FramesSplit(f, rxMax, skb, off, v[1..]);
      assert v == [off] + v[1..];
      Assoc(frames, here, Frames(f, rxMax, skb, v[1..]));
    }
  }

  lemma Assoc(a: seq<seq<Byte>>, b: seq<seq<Byte>>, d: seq<seq<Byte>>)
    ensures a + b + d == a + (b + d)
  {
  }

  lemma FramesSplit(f: Format, rxMax: nat, skb: Skb, off: int, rest: seq<int>)
    requires VerifyNdp(f, skb, off).Some?
    ensures Frames(f, rxMax, skb, [off] + rest)
            == TableFrames(f, rxMax, skb, off, VerifyNdp(f, skb, off).value) + Frames(f, rxMax, skb, rest)
  {
    assert ([off] + rest)[1..] == rest;
  }

  /**
   * On arbitrary bytes, at most 51 tables are visited, and if every frame can be copied the
   * frames passed up are those of the visited tables, each up to its first null or invalid entry.
   */
  lemma ReceiverDelivers(f: Format, rxMax: nat, skb: Skb, alloc: nat -> bool)
    requires AllocOk(alloc) && HeaderOk(f, rxMax, skb) && FirstOffset(f, skb) >= 0
    ensures var v := Visited(f, skb, FirstOffset(f, skb), LOOP_COUNT);
            |v| <= 51 && RxFixup(f, rxMax, skb, alloc).frames == Frames(f, rxMax, skb, v)
  {
    WalkChainDelivers(f, rxMax, skb, FirstOffset(f, skb), LOOP_COUNT, alloc, []);
  }

  /** A slice of the buffer of an acceptable length. */
  ghost predicate Inside(rxMax: nat, skb: Skb, d: seq<Byte>) {
    ETH_HLEN <= |d| <= rxMax && exists i: nat :: SliceAt(skb, d, i)
  }

  ghost predicate SliceAt(skb: Skb, d: seq<Byte>, i: nat) {
    i + |d| <= |skb.bytes| && d == skb.bytes[i..i + |d|]
  }

  lemma {:induction false} WalkEntriesInside(f: Format, rxMax: nat, skb: Skb, off: int, x: nat, n: nat,
                                             alloc: nat -> bool, frames: seq<seq<Byte>>)
    requires forall d | d in frames :: Inside(rxMax, skb, d)
    ensures forall d | d in WalkEntries(f, rxMax, skb, off, x, n, alloc, frames).frames :: Inside(rxMax, skb, d)
    decreases n - x
  {
    if x < n && GoodEntry(f, rxMax, skb, off, x) && alloc(|frames|) {
      var d := Datagram(f, rxMax, skb, off, x);
      var i := IndexOf(f, skb, off, x);
      assert SliceAt(skb, d, i);
      WalkEntriesInside(f, rxMax, skb, off, x + 1, n, alloc, frames + [d]);
    }
  }

  lemma {:induction false} WalkChainInside(f: Format, rxMax: nat, skb: Skb, off: int, loopcount: nat,
                                           alloc: nat -> bool, frames: seq<seq<Byte>>)
    requires forall d | d in frames :: Inside(rxMax, skb, d)
    ensures forall d | d in WalkChain(f, rxMax, skb, off, loopcount, alloc, frames).frames :: Inside(rxMax, skb, d)
    decreases loopcount
  {
    var n := VerifyNdp(f, skb, off);
    if n.Some? {
      WalkEntriesInside(f, rxMax, skb, off, 0, n.value, alloc, frames);
      var p := WalkTable(f, rxMax, skb, off, n.value, alloc, frames);
      var next := NextOffset(f, skb, off);
      hide Inside, VerifyNdp, NextOffset;
      if p.ok && next != 0 && loopcount > 0 {
        WalkChainInside(f, rxMax, skb, next, loopcount - 1, alloc, p.frames);
      }
    }
  }

  /** Whatever the bytes are and whichever copies fail, every frame passed up is a slice of the block. */
  lemma ReceiverInside(f: Format, rxMax: nat, skb: Skb, alloc: nat -> bool)
    ensures forall d | d in RxFixup(f, rxMax, skb, alloc).frames :: Inside(rxMax, skb, d)
  {
    if HeaderOk(f, rxMax, skb) && FirstOffset(f, skb) >= 0 {
      WalkChainInside(f, rxMax, skb, FirstOffset(f, skb), LOOP_COUNT, alloc, []);
    }
  }
}
