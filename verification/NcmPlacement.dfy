/**
 * Alignment end to end: from the parameters that the device reports to the place of every
 * payload and every inline table in every NTB that is sent.
 */
module NcmPlacement {
  import opened NcmFormat
  import opened NcmTx
  import opened NcmSystem
  import opened NcmParams
  import opened NcmAlign
  import opened NcmSizes
  import opened NcmEndTable

  /** cdc_ncm_align_tail with the mask form of ALIGN, in 32 bits. */
  function PadAsWritten(len: nat, modulus: nat, remainder: nat, max: int): int
    requires modulus <= Pow2(32) && len + modulus > 0
  {
    var align := BitAnd(len + modulus - 1, Pow2(32) - modulus) - len + remainder;
    if len + align <= max then align else if max < len then 0 else max - len
  }

  /** For powers of two the mask form pads as much as rounding up to a multiple does. */
  lemma MaskPads(len: nat, modulus: nat, remainder: nat, max: int)
    requires IsPow2(modulus) && modulus <= 0xFFFF && len < 0x8000_0000
    ensures 0 < modulus <= Pow2(32)
    ensures PadAsWritten(len, modulus, remainder, max) == AlignPad(len, modulus, remainder, max)
  {
    hide BitAnd, AlignUp;
    PowersOf2();
    var k: nat :| modulus == Pow2(k);
    FitsIn32(k);
    AlignMacro(len, 32, k);
  }

  /** The driver's alignment parameters are what cdc_ncm_fix_modulus makes of the device's. */
  ghost predicate Aligns(c: Cfg, device: Alignment, txMax: nat) {
    Sanitises(device, txMax, Alignment(c.ndpModulus, c.modulus, c.remainder))
  }

  /** The payload of a frame, behind its Ethernet header, is where the device wants it. */
  predicate PayloadPlaced(c: Cfg, device: Alignment, e: Entry)
    requires c.Usable()
  {
    (e.off + ETH_HLEN) % c.modulus == Wanted(device, c.modulus)
  }

  /** Both tails that are aligned are aligned as the mask form of ALIGN says. */
  ghost predicate PadsAsWritten(c: Cfg)
    requires c.Usable()
  {
    forall len: nat, max: int | len < 0x8000_0000 ::
      && c.modulus <= Pow2(32) && c.ndpModulus <= Pow2(32)
      && AlignPad(len, c.modulus, c.remainder, max) == PadAsWritten(len, c.modulus, c.remainder, max)
      && AlignPad(len, c.ndpModulus, 0, max) == PadAsWritten(len, c.ndpModulus, 0, max)
  }

  lemma MasksAgree(c: Cfg, device: Alignment, txMax: nat)
    requires c.Usable() && Aligns(c, device, txMax)
    ensures PadsAsWritten(c)
  {
    hide IsPow2, AlignPad, PadAsWritten;
    forall len: nat, max: int | len < 0x8000_0000
      ensures && c.modulus <= Pow2(32) && c.ndpModulus <= Pow2(32)
              && AlignPad(len, c.modulus, c.remainder, max) == PadAsWritten(len, c.modulus, c.remainder, max)
              && AlignPad(len, c.ndpModulus, 0, max) == PadAsWritten(len, c.ndpModulus, 0, max)
    {
      MaskPads(len, c.modulus, c.remainder, max);
      MaskPads(len, c.ndpModulus, 0, max);
    }
  }

  lemma NtbPlaced(c: Cfg, device: Alignment, txMax: nat, ntb: Ntb)
    requires c.Usable() && Aligns(c, device, txMax) && NtbAligned(c, ntb)
    ensures forall k | 0 <= k < |ntb.placed| :: PayloadPlaced(c, device, ntb.placed[k])
    ensures !c.toEnd ==> forall j | 0 <= j < |ntb.ndps| :: ntb.ndps[j].off % c.ndpModulus == 0
  {
    hide ModulusFrom;
    forall k | 0 <= k < |ntb.placed|
      ensures PayloadPlaced(c, device, ntb.placed[k])
    {
      PayloadOffset(ntb.placed[k].off, c.remainder, c.modulus, Wanted(device, c.modulus));
    }
  }

  /**
   * Over every run of non-empty frames, with the parameters that cdc_ncm_fix_modulus makes of
   * what the device reports: in every NTB that is sent, every payload is at the remainder the
   * device asked for and every inline table at a multiple of its modulus, and all of this with
   * the mask form of ALIGN.
   */
  lemma PayloadsPlaced(c: Cfg, device: Alignment, txMax: nat, newTx: nat, interval: nat, ops: seq<Op>, b: Block)
    requires c.Valid() && Aligns(c, device, txMax)
    requires forall i | 0 <= i < |ops| :: ops[i].Submit? ==> ops[i].data != []
    requires b in Run(c, newTx, interval, ops).blocks
    ensures PadsAsWritten(c)
    ensures forall k | 0 <= k < |b.ntb.placed| :: PayloadPlaced(c, device, b.ntb.placed[k])
    ensures !c.toEnd ==> forall j | 0 <= j < |b.ntb.ndps| :: b.ntb.ndps[j].off % c.ndpModulus == 0
  {
    hide Run, IsPow2, NtbAligned, AlignInv, PadsAsWritten, ModulusFrom, PayloadPlaced;
    AlwaysAligned(c, newTx, interval, ops);
    MasksAgree(c, device, txMax);
    NtbPlaced(c, device, txMax, b.ntb);
  }

  /** Of two powers of two one is a multiple of the other. */
  lemma PowersDivide(m: nat, n: nat)
    requires m > 0 && n > 0 && IsPow2(m) && IsPow2(n) && m <= n
    ensures n % m == 0
  {
    var j: nat, k: nat :| m == Pow2(j) && n == Pow2(k);
    if k < j {
      GrowingPow2(k, j);
      DividesPow2(k, j);
      DividesPow2(k, k);
    } else {
      DividesPow2(j, k);
      MultipleMod(m, Pow2(k - j));
    }
  }

  /** What EndTablesExactly asks of the moduli is what cdc_ncm_fix_modulus makes of any. */
  lemma AlignsCommensurate(c: Cfg, device: Alignment, txMax: nat)
    requires c.Usable() && Aligns(c, device, txMax)
    ensures Commensurate(c)
  {
    hide IsPow2;
    if c.modulus <= c.ndpModulus {
      PowersDivide(c.modulus, c.ndpModulus);
    } else {
      PowersDivide(c.ndpModulus, c.modulus);
    }
  }
}
