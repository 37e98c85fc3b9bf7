/**
 * The transmit path of the NCM driver as a function on values: what each call of
 * cdc_ncm_fill_tx_frame does to the driver's state, down to the bytes of the NTB it builds.
 */
module NcmTx {
  import opened Bytes
  import opened Options
  import opened NcmFormat

  /** A frame handed to the driver; `id` tells the sk_buffs apart. */
  datatype Pkt = Pkt(id: nat, sig: nat, data: seq<Byte>)

  /** A frame and the offset it was copied to. */
  datatype Entry = Entry(off: nat, pkt: Pkt)

  /** A datagram table: where it starts and which signature it carries. */
  datatype NdpRef = NdpRef(off: nat, sig: nat)

  /** An NTB under construction, with its tables in chain order and its frames in arrival order. */
  datatype Ntb = Ntb(bytes: seq<Byte>, seqno: nat, ndps: seq<NdpRef>, placed: seq<Entry>)

  /** The driver's transmit state; the names follow struct cdc_ncm_ctx. */
  datatype Tx = Tx(
    curr: Option<Ntb>,      // tx_curr_skb
    rem: Option<Pkt>,       // tx_rem_skb and tx_rem_sign
    delayed: seq<Byte>,     // delayed_ndp16 or delayed_ndp32
    currSize: nat,          // tx_curr_size
    frameNum: nat,          // tx_curr_frame_num
    seqno: nat,             // tx_seq
    lowVal: nat,            // tx_low_mem_val
    lowMax: nat,            // tx_low_mem_max_cnt
    pending: nat,           // tx_timer_pending
    txMax: nat,             // tx_max
    minTxPkt: nat,          // min_tx_pkt
    interval: nat           // timer_interval
  )

  datatype Reason = NoRoom | AllocFailed | Replaced | Dangling

  datatype Drop = Drop(pkt: Pkt, reason: Reason)

  /** An NTB that was handed to usbnet, and the size of the buffer it was built in. */
  datatype Block = Block(ntb: Ntb, size: nat)

  const LOW_MEM_MAX_CNT: nat := 10

  // ----- cdc_ncm_align_tail -----

  function AlignUp(len: nat, modulus: nat): (r: nat)
    requires modulus > 0
    ensures len <= r < len + modulus
    ensures len % modulus == 0 ==> r == len
  {
    if len % modulus == 0 then len else len + (modulus - len % modulus)
  }

  /** The number of zero bytes that are appended. */
  function AlignPad(len: nat, modulus: nat, remainder: nat, max: int): (pad: nat)
    requires modulus > 0
    ensures pad <= modulus - 1 + remainder
    ensures len <= max ==> len + pad <= max
    ensures AlignUp(len, modulus) + remainder <= max ==> len + pad == AlignUp(len, modulus) + remainder
    ensures len <= max < AlignUp(len, modulus) + remainder ==> len + pad == max
  {
    var align := AlignUp(len, modulus) - len + remainder;
    if len + align <= max then align else if max < len then 0 else max - len
  }

  function AlignTail(b: seq<Byte>, modulus: nat, remainder: nat, max: int): seq<Byte>
    requires modulus > 0
  {
    b + Zeros(AlignPad(|b|, modulus, remainder, max))
  }

  // ----- cdc_ncm_ndp16 and cdc_ncm_ndp32 -----

  /** The frames of one signature, in arrival order. */
  function Sub(placed: seq<Entry>, sig: nat): (r: seq<Entry>)
    ensures |r| <= |placed|
  {
    if placed == [] then []
    else
      var rest := Sub(placed[..|placed| - 1], sig);
      var last := placed[|placed| - 1];
      if last.pkt.sig == sig then rest + [last] else rest
  }

  /** The position of the table for `sig`, or the number of tables if there is none. */
  function FindNdp(ndps: seq<NdpRef>, sig: nat, from: nat): (j: nat)
    requires from <= |ndps|
    ensures from <= j <= |ndps|
    ensures j < |ndps| ==> ndps[j].sig == sig
    ensures forall i | from <= i < j :: ndps[i].sig != sig
    decreases |ndps| - from
  {
    if from == |ndps| || ndps[from].sig == sig then from else FindNdp(ndps, sig, from + 1)
  }

  /** The room test in front of a new table. */
  predicate HasRoom(c: Cfg, cap: nat, len: nat, reserve: nat) {
    match c.room
    case Integer => cap - len - reserve >= c.MaxNdp()
    case SizeT => ((cap - len) % 0x1_0000_0000 - reserve) % 0x1_0000_0000_0000_0000 >= c.MaxNdp()
  }

  function FirstNdp(ndps: seq<NdpRef>): nat {
    if ndps == [] then 0 else ndps[0].off
  }

  /** Where the index of a table that is to follow `ndps` has to be stored. */
  function LinkAt(f: Format, ndps: seq<NdpRef>): nat {
    if ndps == [] then f.NdpIndexAt() else ndps[|ndps| - 1].off + f.NextAt()
  }

  /** Writes the signature and the length of a table without entries. */
  function OpenNdp(f: Format, b: seq<Byte>, off: nat, sig: nat): (r: seq<Byte>)
    ensures |r| == |b|
  {
    Patch(Patch(b, off, Le(4, sig)), off + 4, Le(2, f.NdpLen() + f.Entries(1)))
  }

  /** Stores a length and an offset into entry `k` of the table at `off` and counts the entry. */
  function WriteEntry(f: Format, b: seq<Byte>, off: nat, k: nat, index: nat, length: nat): (r: seq<Byte>)
    ensures |r| == |b|
  {
    var e := off + f.NdpLen() + f.Entries(k);
    var b1 := Patch(b, e + f.Width(), Le(f.Width(), length));
    var b2 := Patch(b1, e, Le(f.Width(), index));
    Patch(b2, off + 4, Le(2, f.NdpLen() + f.Entries(k + 2)))
  }

  /** The signature of the table that waits for the end of the NTB; 0 when it is unused. */
  function DelayedSig(delayed: seq<Byte>): nat {
    if |delayed| < 4 then 0 else Field(delayed, 0, 4)
  }

  /** The answer of the table search: none, table `j` of the NTB, or the delayed table. */
  datatype Slot = NoSlot | InNtb(j: nat) | InDelayed

  datatype Lookup = Lookup(ntb: Ntb, delayed: seq<Byte>, slot: Slot)

  function GetNdp(c: Cfg, cap: nat, ntb: Ntb, delayed: seq<Byte>, sig: nat, reserve: nat): (r: Lookup)
    requires c.Usable()
    ensures r.ntb.placed == ntb.placed && r.ntb.seqno == ntb.seqno
    ensures |r.delayed| == |delayed|
    ensures |ntb.bytes| <= |r.ntb.bytes|
    ensures c.room.Integer? && |ntb.bytes| <= cap ==> |r.ntb.bytes| <= cap
    ensures r.slot.InNtb? ==> r.slot.j < |r.ntb.ndps| && r.ntb.ndps[r.slot.j].sig == sig
  {
    if c.toEnd && DelayedSig(delayed) == sig then Lookup(ntb, delayed, InDelayed)
    else if c.toEnd && DelayedSig(delayed) != 0 then Lookup(ntb, delayed, NoSlot)
    else
      var j := FindNdp(ntb.ndps, sig, 0);
      if j < |ntb.ndps| then Lookup(ntb, delayed, InNtb(j))
      else
        var b := if c.toEnd then ntb.bytes else AlignTail(ntb.bytes, c.ndpModulus, 0, cap);
        if !HasRoom(c, cap, |b|, reserve) then Lookup(ntb.(bytes := b), delayed, NoSlot)
        else
          var linked := Patch(b, LinkAt(c.fmt, ntb.ndps), Le(c.fmt.Width(), |b|));
          if c.toEnd then
            Lookup(ntb.(bytes := linked), OpenNdp(c.fmt, delayed, 0, sig), InDelayed)
          else
            Lookup(ntb.(bytes := OpenNdp(c.fmt, linked + Zeros(c.MaxNdp()), |b|, sig),
                        ndps := ntb.ndps + [NdpRef(|b|, sig)]),
                   delayed, InNtb(|ntb.ndps|))
  }

  // ----- the loop of cdc_ncm_fill_tx_frame -----

  datatype Loop = Loop(ntb: Ntb, delayed: seq<Byte>, skb: Option<Pkt>, rem: Option<Pkt>,
                       n: nat, ready: bool, drops: seq<Drop>)

  /** Enters a frame into the table that was found for it and appends its bytes. */
  function AddFrame(c: Cfg, look: Lookup, pkt: Pkt): (r: Lookup)
    requires look.slot.InNtb? ==> look.slot.j < |look.ntb.ndps|
    ensures |r.delayed| == |look.delayed|
    ensures |r.ntb.bytes| == |look.ntb.bytes| + |pkt.data|
    ensures r.ntb.ndps == look.ntb.ndps && r.ntb.seqno == look.ntb.seqno
    ensures r.ntb.placed == look.ntb.placed + [Entry(|look.ntb.bytes|, pkt)]
  {
    var ntb := look.ntb;
    var k := |Sub(ntb.placed, pkt.sig)|;
    var off := |ntb.bytes|;
    var placed := ntb.placed + [Entry(off, pkt)];
    match look.slot
    case InNtb(j) =>
      var b := WriteEntry(c.fmt, ntb.bytes, ntb.ndps[j].off, k, off, |pkt.data|);
      look.(ntb := ntb.(bytes := b + pkt.data, placed := placed))
    case _ =>
      look.(ntb := ntb.(bytes := ntb.bytes + pkt.data, placed := placed),
            delayed := WriteEntry(c.fmt, look.delayed, 0, k, off, |pkt.data|))
  }

  /** The table for a frame and the alignment in front of it. */
  function Prepare(c: Cfg, cap: nat, ntb: Ntb, delayed: seq<Byte>, pkt: Pkt): (r: Lookup)
    requires c.Usable()
    ensures r.ntb.placed == ntb.placed && r.ntb.seqno == ntb.seqno
    ensures |r.delayed| == |delayed|
    ensures |ntb.bytes| <= |r.ntb.bytes|
    ensures c.room.Integer? && |ntb.bytes| <= cap ==> |r.ntb.bytes| <= cap
    ensures r.slot.InNtb? ==> r.slot.j < |r.ntb.ndps| && r.ntb.ndps[r.slot.j].sig == pkt.sig
  {
    var look := GetNdp(c, cap, ntb, delayed, pkt.sig, |pkt.data| + c.modulus + c.remainder);
    look.(ntb := look.ntb.(bytes := AlignTail(look.ntb.bytes, c.modulus, c.remainder, cap)))
  }

  predicate Fits(c: Cfg, cap: nat, look: Lookup, pkt: Pkt) {
    look.slot != NoSlot && |look.ntb.bytes| + |pkt.data| + c.EndReserve() <= cap
  }

  /** The frame that an iteration works on, if there is one. */
  function NextSkb(l: Loop): Option<Pkt> {
    if l.skb.Some? then l.skb else l.rem
  }

  function NextRem(l: Loop): Option<Pkt> {
    if l.skb.Some? then l.rem else None
  }

  /** One iteration for frame `pkt`; the flag says whether the loop goes on. */
  function Iterate(c: Cfg, cap: nat, l: Loop, pkt: Pkt): (Loop, bool)
    requires c.Usable()
  {
    var rem := NextRem(l);
    var look := Prepare(c, cap, l.ntb, l.delayed, pkt);
    var kept := l.(ntb := look.ntb, delayed := look.delayed, skb := None);
    if !Fits(c, cap, look, pkt) then
      if l.n == 0 then
        (kept.(rem := rem, drops := l.drops + [Drop(pkt, NoRoom)]), false)
      else
        var drops := if rem.Some? then l.drops + [Drop(rem.value, Replaced)] else l.drops;
        (kept.(rem := Some(pkt), ready := true, drops := drops), false)
    else
      var added := AddFrame(c, look, pkt);
      var put := l.(ntb := added.ntb, delayed := added.delayed, skb := None, rem := rem);
      if |Sub(l.ntb.placed, pkt.sig)| >= c.dptMax then (put.(ready := true), false)
      else (put.(n := l.n + 1), true)
  }

  function FillLoop(c: Cfg, cap: nat, l: Loop): Loop
    requires c.Usable()
    decreases c.maxDatagrams - l.n
  {
    if l.n >= c.maxDatagrams || NextSkb(l).None? then l
    else
      var (l', more) := Iterate(c, cap, l, NextSkb(l).value);
      if more then FillLoop(c, cap, l') else l'
  }

  // ----- allocation -----

  /** The header of a new NTB. */
  function NewNtb(f: Format, seqno: nat): (r: Ntb)
    ensures |r.bytes| == f.NthLen()
    ensures r.seqno == seqno && r.ndps == [] && r.placed == []
  {
    var b0 := Zeros(f.NthLen());
    var b1 := Patch(b0, 0, Le(4, f.NthSign()));
    var b2 := Patch(b1, 4, Le(2, f.NthLen()));
    Ntb(Patch(b2, 6, Le(2, seqno)), seqno, [], [])
  }

  datatype Obtained = Obtained(tx: Tx, ntb: Option<Ntb>)

  function Max(a: nat, b: nat): nat { if a < b then b else a }

  function Min(a: nat, b: nat): nat { if a < b then a else b }

  /** Starts an NTB in the buffer that was allocated. */
  function StartNtb(c: Cfg, t: Tx): Obtained {
    Obtained(t.(seqno := (t.seqno + 1) % 0x1_0000, frameNum := 0), Some(NewNtb(c.fmt, t.seqno)))
  }

  /** Resumes the NTB in progress or allocates one; `full` and `small` say whether an allocation would succeed. */
  function Obtain(c: Cfg, t: Tx, skb: Option<Pkt>, full: bool, small: bool): Obtained {
    if t.curr.Some? then Obtained(t, t.curr)
    else if t.lowVal == 0 && full then StartNtb(c, t.(currSize := t.txMax))
    else if t.lowVal == 0 && t.txMax == c.minOut then Obtained(t.(currSize := t.txMax), None)
    else
      var lowMax := if t.lowVal == 0 then Min(t.lowMax + 1, LOW_MEM_MAX_CNT) else t.lowMax;
      var lowVal := if t.lowVal == 0 then lowMax else t.lowVal;
      var size := if skb.Some? then Max(|skb.value.data|, c.minOut) else c.minOut;
      var t1 := t.(lowMax := lowMax, lowVal := lowVal, currSize := size);
      if small then StartNtb(c, t1.(lowVal := lowVal - 1))
      else Obtained(t1, None)
  }

  // ----- sending -----

  /** Appends the delayed table and points the header at it. */
  function MoveNdp(c: Cfg, cap: nat, ntb: Ntb, delayed: seq<Byte>): (r: Ntb)
    requires c.Usable()
    ensures r.seqno == ntb.seqno && r.placed == ntb.placed
  {
    var b := AlignTail(ntb.bytes, c.ndpModulus, 0, cap - c.MaxNdp());
    ntb.(bytes := Patch(b, c.fmt.NdpIndexAt(), Le(c.fmt.Width(), |b|)) + delayed,
         ndps := [NdpRef(|b|, DelayedSig(delayed))])
  }

  /** The padding that keeps the transfer short or fills the buffer. */
  function TailPad(c: Cfg, cap: nat, minTxPkt: nat, len: nat): (pad: nat)
    requires c.Usable()
    ensures len <= cap ==> len + pad <= cap
  {
    if !c.sendZlp && len > minTxPkt then (if len <= cap then cap - len else 0)
    else if len < cap && len % c.maxPacket == 0 then 1
    else 0
  }

  function Finish(c: Cfg, cap: nat, minTxPkt: nat, ntb: Ntb, delayed: seq<Byte>): (r: Ntb)
    requires c.Usable()
    ensures r.seqno == ntb.seqno && r.placed == ntb.placed
  {
    var moved := if c.toEnd then MoveNdp(c, cap, ntb, delayed) else ntb;
    var b := moved.bytes + Zeros(TailPad(c, cap, minTxPkt, |moved.bytes|));
    moved.(bytes := Patch(b, c.fmt.BlockLengthAt(), Le(c.fmt.Width(), |b|)))
  }

  // ----- cdc_ncm_fill_tx_frame -----

  datatype Filled = Filled(tx: Tx, out: Option<Block>, drops: seq<Drop>, startTimer: bool)

  /** The state of the loop when it is entered. */
  function LoopStart(t: Tx, ntb: Ntb, skb: Option<Pkt>, rem: Option<Pkt>, ready: bool): Loop {
    Loop(ntb, t.delayed, skb, rem, t.frameNum, ready, [])
  }

  /** What happens after the loop: wait for more frames or send. */
  function Conclude(c: Cfg, t: Tx, l: Loop): Filled
    requires c.Usable()
  {
    var drops := if l.skb.Some? then l.drops + [Drop(l.skb.value, Dangling)] else l.drops;
    var t1 := t.(rem := l.rem, delayed := l.delayed, frameNum := l.n);
    if l.n == 0 then
      Filled(t1.(curr := Some(l.ntb)), None, drops, false)
    else if l.n < c.maxDatagrams && !l.ready && t.interval > 0 then
      var pending := if l.n < c.restartCnt then c.pendingCnt else t.pending;
      Filled(t1.(curr := Some(l.ntb), pending := pending), None, drops, true)
    else
      var ntb := Finish(c, t.currSize, t.minTxPkt, l.ntb, l.delayed);
      var delayed := if c.toEnd then Zeros(|l.delayed|) else l.delayed;
      Filled(t1.(curr := None, delayed := delayed), Some(Block(ntb, t.currSize)), drops, false)
  }

  /** A remaining frame goes first; the new one takes its place. */
  function SwapSkb(t: Tx, skb: Option<Pkt>): Option<Pkt> {
    if skb.Some? then t.rem else None
  }

  function SwapRem(t: Tx, skb: Option<Pkt>): Option<Pkt> {
    if skb.Some? then skb else t.rem
  }

  function FillTxFrame(c: Cfg, t: Tx, skb: Option<Pkt>, full: bool, small: bool): Filled
    requires c.Usable()
  {
    var first := SwapSkb(t, skb);
    var rem := SwapRem(t, skb);
    var got := Obtain(c, t, first, full, small);
    match got.ntb
    case None =>
      var drops := if first.Some? then [Drop(first.value, AllocFailed)] else [];
      Filled(got.tx.(rem := rem), None, drops, false)
    case Some(ntb) =>
      Conclude(c, got.tx, FillLoop(c, got.tx.currSize, LoopStart(got.tx, ntb, first, rem, skb.None?)))
  }
}
