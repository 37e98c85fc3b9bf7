/**
 * Whole runs of the transmitter: frames arrive, the coalescing timer fires, its tasklet runs
 * and the limits are changed, in any order. The history of a run is part of the state.
 */
module NcmSystem {
  import opened Bytes
  import opened Options
  import opened NcmFormat
  import opened NcmTx

  datatype Sys = Sys(
    tx: Tx,
    timer: bool,              // the hrtimer is active
    bh: bool,                 // the tasklet is scheduled
    submitted: seq<Pkt>,      // every frame handed to the driver
    blocks: seq<Block>,       // every NTB handed to usbnet
    drops: seq<Drop>,         // every frame counted in tx_dropped
    discarded: nat,           // empty NTBs freed by a tx_max increase
    skips: seq<nat>           // for every block, how many had been discarded when it was sent
  )

  /** `full` and `small` say whether a full-size and a small allocation would succeed. */
  datatype Op =
    | Submit(sig: nat, data: seq<Byte>, full: bool, small: bool)
    | TimerFires
    | BhRuns(full: bool, small: bool)
    | UpdateTxMax(newTx: nat, running: bool, full: bool, small: bool)
    | SetInterval(interval: nat)
    | SetMinTxPkt(size: nat)

  /** A signature is a non-zero 32-bit number, and a frame is small enough for its length field. */
  predicate ValidOp(c: Cfg, op: Op) {
    op.Submit? ==> 0 < op.sig < 0x1_0000_0000 && c.fmt.Addressable(|op.data|)
  }

  // ----- tx_max -----

  function Clamp(v: nat, lo: nat, hi: nat): nat {
    Min(Max(v, lo), hi)
  }

  /** cdc_ncm_check_tx_max */
  function CheckTxMax(c: Cfg, newTx: nat): nat {
    var max := if c.ntbOutMaxSize == 0 then c.maxTx else Clamp(c.ntbOutMaxSize, c.minOut, c.maxTx);
    var min := Min(c.maxDatagramSize + c.MaxNdp() + c.fmt.NthLen(), max);
    Clamp(newTx, min, max)
  }

  /** The new tx_max, with the pad byte that avoids zero-length packets. */
  function PaddedTxMax(c: Cfg, newTx: nat): nat
    requires c.Usable()
  {
    var val := CheckTxMax(c, newTx);
    if val != c.ntbOutMaxSize && val % c.maxPacket == 0 then val + 1 else val
  }

  /** The 16-bit clamp that sets min_tx_pkt. */
  function NewMinTxPkt(c: Cfg, txMax: nat): nat {
    Clamp((txMax - 3 * c.maxPacket) % 0x1_0000, c.minTxPktFloor % 0x1_0000, txMax % 0x1_0000)
  }

  // ----- steps -----

  function Record(s: Sys, f: Filled): Sys {
    s.(tx := f.tx,
       timer := s.timer || f.startTimer,
       blocks := s.blocks + (if f.out.Some? then [f.out.value] else []),
       drops := s.drops + f.drops,
       skips := s.skips + (if f.out.Some? then [s.discarded] else []))
  }

  /** usbnet_start_xmit(NULL): send what there is. */
  function Flush(c: Cfg, s: Sys, full: bool, small: bool): Sys
    requires c.Usable()
  {
    Record(s, FillTxFrame(c, s.tx, None, full, small))
  }

  /** The frame of a submission; its id is its place in the history. */
  function NewPkt(s: Sys, sig: nat, data: seq<Byte>): Pkt {
    Pkt(|s.submitted|, sig, data)
  }

  function SubmitStep(c: Cfg, s: Sys, sig: nat, data: seq<Byte>, full: bool, small: bool): Sys
    requires c.Usable()
  {
    var pkt := NewPkt(s, sig, data);
    Record(s.(submitted := s.submitted + [pkt]), FillTxFrame(c, s.tx, Some(pkt), full, small))
  }

  /** cdc_ncm_txpath_bh */
  function BhStep(c: Cfg, s: Sys, full: bool, small: bool): Sys
    requires c.Usable()
  {
    var s1 := s.(bh := false);
    if s.tx.pending != 0 then s1.(tx := s.tx.(pending := s.tx.pending - 1), timer := true)
    else Flush(c, s1, full, small)
  }

  /** The transmit half of cdc_ncm_update_rxtx_max. */
  function UpdateStep(c: Cfg, s: Sys, newTx: nat, running: bool, full: bool, small: bool): Sys
    requires c.Usable()
  {
    var val := PaddedTxMax(c, newTx);
    if running && val > s.tx.txMax then
      var s1 := Flush(c, s, full, small);
      s1.(tx := s1.tx.(curr := None, txMax := val, minTxPkt := NewMinTxPkt(c, val)),
          discarded := s1.discarded + (if s1.tx.curr.Some? then 1 else 0))
    else
      s.(tx := s.tx.(txMax := val, minTxPkt := NewMinTxPkt(c, val)))
  }

  function Step(c: Cfg, s: Sys, op: Op): Sys
    requires c.Usable()
  {
    match op
    case Submit(sig, data, full, small) => SubmitStep(c, s, sig, data, full, small)
    case TimerFires => if s.timer then s.(timer := false, bh := true) else s
    case BhRuns(full, small) => if s.bh then BhStep(c, s, full, small) else s
    case UpdateTxMax(newTx, running, full, small) => UpdateStep(c, s, newTx, running, full, small)
    case SetInterval(interval) =>
      s.(tx := s.tx.(interval := interval, pending := if interval == 0 then 0 else s.tx.pending))
    case SetMinTxPkt(size) => s.(tx := s.tx.(minTxPkt := size))
  }

  /** The state after cdc_ncm_setup has chosen tx_max. */
  function Init(c: Cfg, newTx: nat, interval: nat): Sys
    requires c.Usable()
  {
    var txMax := PaddedTxMax(c, newTx);
    Sys(Tx(None, None, Zeros(c.MaxNdp()), 0, 0, 0, 0, 0, 0, txMax, NewMinTxPkt(c, txMax), interval),
        false, false, [], [], [], 0, [])
  }

  ghost predicate ValidOps(c: Cfg, ops: seq<Op>) {
    forall i | 0 <= i < |ops| :: ValidOp(c, ops[i])
  }

  function Run(c: Cfg, newTx: nat, interval: nat, ops: seq<Op>): Sys
    requires c.Usable()
  {
    if ops == [] then Init(c, newTx, interval)
    else Step(c, Run(c, newTx, interval, ops[..|ops| - 1]), ops[|ops| - 1])
  }
}
