/** The receiver with its goto loop, proved to do what the recursive walk of NcmRx says. */
module NcmReceiver {
  import opened Bytes
  import opened NcmFormat
  import opened NcmRx

  class Receiver {
    const f: Format
    const rxMax: nat
    var rxSeq: nat       // rx_seq
    var glitches: nat    // debug messages about sequence numbers

    constructor (f: Format, rxMax: nat)
      ensures this.f == f && this.rxMax == rxMax && rxSeq == 0 && glitches == 0
    {
      this.f, this.rxMax, rxSeq, glitches := f, rxMax, 0, 0;
    }

    /** cdc_ncm_rx_verify_nth16 and cdc_ncm_rx_verify_nth32: the first offset, or a negative error. */
    method VerifyNth(skb: Skb) returns (ndpoffset: int)
      modifies this
      ensures HeaderOk(f, rxMax, skb) ==>
                && ndpoffset == FirstOffset(f, skb)
                && rxSeq == Sequence(skb)
                && glitches == old(glitches) + (if Glitch(old(rxSeq), Sequence(skb)) then 1 else 0)
      ensures !HeaderOk(f, rxMax, skb) ==> ndpoffset < 0 && rxSeq == old(rxSeq) && glitches == old(glitches)
    {
      ndpoffset := -22;
      if |skb.bytes| < f.NthLen() + f.NdpLen() {
        return;
      }
      if Read(skb, 0, 4) != f.NthSign() {
        return;
      }
      if Read(skb, f.BlockLengthAt(), f.Width()) > rxMax {
        return;
      }
      var seqno := Sequence(skb);
      if rxSeq + 1 != seqno && (rxSeq != 0 || seqno != 0) && !(rxSeq == 0xFFFF && seqno == 0) {
        glitches := glitches + 1;
      }
      rxSeq := seqno;
      ndpoffset := FirstOffset(f, skb);
    }

    /** The entries of one table. */
    method ReadEntries(skb: Skb, ndpoffset: int, nframes: nat, alloc: nat -> bool, before: seq<seq<Byte>>)
      returns (ok: bool, frames: seq<seq<Byte>>)
      ensures Progress(ok, frames) == WalkEntries(f, rxMax, skb, ndpoffset, 0, nframes, alloc, before)
    {
      hide Read, IndexOf, LengthOf;
      frames := before;
      var x := 0;
      while x < nframes
        invariant x <= nframes
        invariant WalkEntries(f, rxMax, skb, ndpoffset, x, nframes, alloc, frames)
               == WalkEntries(f, rxMax, skb, ndpoffset, 0, nframes, alloc, before)
      {
        var offset := IndexOf(f, skb, ndpoffset, x);
        var len := LengthOf(f, skb, ndpoffset, x);
        if offset == 0 || len == 0 {
          break;
        }
        if offset > |skb.bytes| || len > |skb.bytes| - offset || len > rxMax || len < ETH_HLEN {
          break;
        }
        if !alloc(|frames|) {
          return false, frames;
        }
        frames := frames + [skb.bytes[offset..offset + len]];
        x := x + 1;
      }
      ok := true;
    }

    /** cdc_ncm_rx_fixup */
    method Fixup(skb: Skb, alloc: nat -> bool) returns (ok: bool, frames: seq<seq<Byte>>)
      modifies this
      ensures Progress(ok, frames) == RxFixup(f, rxMax, skb, alloc)
      ensures rxSeq == (if HeaderOk(f, rxMax, skb) then Sequence(skb) else old(rxSeq))
      ensures glitches == old(glitches)
              + (if HeaderOk(f, rxMax, skb) && Glitch(old(rxSeq), Sequence(skb)) then 1 else 0)
    {
      hide WalkEntries, VerifyNdp, NextOffset, NoCrcTable, Glitch, HeaderOk, FirstOffset;
      frames := [];
      var ndpoffset := VerifyNth(skb);
      if ndpoffset < 0 {
        return false, [];
      }
      var loopcount := LOOP_COUNT;
      ok := true;
      while true
        invariant ok && HeaderOk(f, rxMax, skb) && rxSeq == Sequence(skb)
        invariant glitches == old(glitches) + (if Glitch(old(rxSeq), Sequence(skb)) then 1 else 0)
        invariant WalkChain(f, rxMax, skb, ndpoffset, loopcount, alloc, frames) == RxFixup(f, rxMax, skb, alloc)
        decreases loopcount
      {
        var nframes := VerifyNdp(f, skb, ndpoffset);
        if nframes.None? {
          return false, frames;
        }
        if NoCrcTable(f, skb, ndpoffset) {
          ok, frames := ReadEntries(skb, ndpoffset, nframes.value, alloc, frames);
          if !ok {
            return;
          }
        }
        var next := NextOffset(f, skb, ndpoffset);
        if next == 0 || loopcount == 0 {
          break;
        }
        ndpoffset, loopcount := next, loopcount - 1;
      }
    }
  }
}
