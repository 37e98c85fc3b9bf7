/**
 * The device's alignment parameters and how cdc_ncm_fix_modulus makes them safe to use. The
 * bit tricks of the source are spelled out on numbers and proved to mean what they are for.
 */
module NcmParams {
  import opened NcmFormat
  import opened NcmTx
  import opened NcmSizes

  const NDP_ALIGN_MIN_SIZE: nat := 4

  function Pow2(k: nat): (r: nat)
    ensures r > 0
  {
    if k == 0 then 1 else 2 * Pow2(k - 1)
  }

  /** The bitwise and. */
  function BitAnd(a: nat, b: nat): nat {
    if a == 0 || b == 0 then 0
    else (if a % 2 == 1 && b % 2 == 1 then 1 else 0) + 2 * BitAnd(a / 2, b / 2)
  }

  /** `-v` in `n` bits. */
  function Negate(v: nat, n: nat): nat
    requires v <= Pow2(n)
  {
    if v == 0 then 0 else Pow2(n) - v
  }

  // ----- masks -----

  lemma {:induction false} Complement(n: nat, w: nat)
    requires w < Pow2(n)
    ensures BitAnd(Pow2(n) - 1 - w, w) == 0
  {
    if n > 0 && w > 0 {
      Complement(n - 1, w / 2);
      assert (Pow2(n) - 1 - w) / 2 == Pow2(n - 1) - 1 - w / 2;
    }
  }

  /** The lowest bit that is set. */
  function LowBit(v: nat): nat
    requires v > 0
  {
    if v % 2 == 1 then 1 else 2 * LowBit(v / 2)
  }

  lemma {:induction false} AndNegate(n: nat, v: nat)
    requires 0 < v < Pow2(n)
    ensures BitAnd(Negate(v, n), v) == LowBit(v)
  {
    if v % 2 == 1 {
      Complement(n - 1, v / 2);
      assert (Pow2(n) - v) / 2 == Pow2(n - 1) - 1 - v / 2;
    } else {
      AndNegate(n - 1, v / 2);
      assert (Pow2(n) - v) / 2 == Pow2(n - 1) - v / 2;
    }
  }

  ghost predicate IsPow2(v: nat) {
    exists k: nat :: v == Pow2(k)
  }

  lemma {:induction false} LowBitIff(v: nat)
    requires v > 0
    ensures LowBit(v) == v <==> IsPow2(v)
  {
    if v % 2 == 1 {
      assert Pow2(0) == 1;
      if IsPow2(v) {
        var k: nat :| v == Pow2(k);
        assert k == 0;
      }
    } else {
      LowBitIff(v / 2);
      if IsPow2(v / 2) {
        var k: nat :| v / 2 == Pow2(k);
        assert v == Pow2(k + 1);
      }
      if IsPow2(v) {
        var k: nat :| v == Pow2(k);
        assert k > 0 && v / 2 == Pow2(k - 1);
      }
    }
  }

  lemma HalfMod(x: nat, p: nat)
    requires p > 0
    ensures x % (2 * p) == x % 2 + 2 * ((x / 2) % p)
  {
    var q := x / 2 / p;
    var r := x / 2 % p;
    assert x / 2 == p * q + r;
    assert x == (2 * p) * q + (2 * r + x % 2);
    ModUnique(x, 2 * p, q, 2 * r + x % 2);
  }

  lemma AndOdd(x: nat, p: nat)
    requires p > 0
    ensures BitAnd(x, 2 * p - 1) == x % 2 + 2 * BitAnd(x / 2, p - 1)
  {
    assert (2 * p - 1) / 2 == p - 1;
  }

  lemma AndEven(x: nat, b: nat)
    ensures BitAnd(x, 2 * b) == 2 * BitAnd(x / 2, b)
  {
  }

  /** Masking with 2^k - 1 takes the remainder. */
  lemma {:induction false} MaskIsMod(x: nat, k: nat)
    ensures BitAnd(x, Pow2(k) - 1) == x % Pow2(k)
  {
    if k > 0 {
      hide BitAnd;
      var p := Pow2(k - 1);
      MaskIsMod(x / 2, k - 1);
      AndOdd(x, p);
      HalfMod(x, p);
    }
  }

  /** Masking with the complement of 2^k - 1 rounds down. */
  lemma {:induction false} MaskRoundsDown(y: nat, n: nat, k: nat)
    requires y < Pow2(n) && k <= n
    ensures Pow2(k) <= Pow2(n)
    ensures BitAnd(y, Pow2(n) - Pow2(k)) == y - y % Pow2(k)
  {
    hide BitAnd;
    if k == 0 {
      MaskIsMod(y, n);
      SmallMod(y, Pow2(n));
    } else {
      var p := Pow2(k - 1);
      MaskRoundsDown(y / 2, n - 1, k - 1);
      HalfMod(y, p);
      AndEven(y, Pow2(n - 1) - p);
    }
  }

  lemma LastBelow(len: nat, m: nat)
    requires m > 0
    ensures var y := len + m - 1;
            y - y % m == AlignUp(len, m)
  {
    var q := len / m;
    assert len == m * q + len % m;
    if len % m == 0 {
      ModUnique(len + m - 1, m, q, m - 1);
    } else {
      assert m * (q + 1) == m * q + m;
      ModUnique(len + m - 1, m, q + 1, len % m - 1);
    }
  }

  /** The kernel's ALIGN macro rounds up to a multiple, for powers of two, in `n`-bit arithmetic. */
  lemma AlignMacro(len: nat, n: nat, k: nat)
    requires k <= n && len + Pow2(k) <= Pow2(n)
    ensures Pow2(n) - Pow2(k) >= 0
    ensures BitAnd(len + Pow2(k) - 1, Pow2(n) - Pow2(k)) == AlignUp(len, Pow2(k))
  {
    hide BitAnd, AlignUp;
    MaskRoundsDown(len + Pow2(k) - 1, n, k);
    LastBelow(len, Pow2(k));
  }

  // ----- cdc_ncm_fix_modulus -----

  /** The test on a modulus, with the lowest-bit trick of the source in 32 bits. */
  predicate Acceptable(val: nat, txMax: nat)
    requires val <= 0xFFFF
  {
    && NDP_ALIGN_MIN_SIZE <= val
    && (assert val <= Pow2(32) by { PowersOf2(); } val == BitAnd(Negate(val, 32), val))
    && val < txMax
  }

  lemma PowersOf2()
    ensures Pow2(2) == 4 && Pow2(32) == 0x1_0000_0000
  {
    assert Pow2(4) == 16;
    assert Pow2(8) == 256;
    assert Pow2(12) == 0x1000;
    assert Pow2(16) == 0x1_0000;
    assert Pow2(20) == 0x10_0000;
    assert Pow2(24) == 0x100_0000;
    assert Pow2(28) == 0x1000_0000;
  }

  function SaneModulus(val: nat, txMax: nat): nat
    requires val <= 0xFFFF
  {
    if Acceptable(val, txMax) then val else NDP_ALIGN_MIN_SIZE
  }

  /** The remainder for the start of a frame whose payload begins after the Ethernet header. */
  function AdjustedRemainder(remainder: nat, modulus: nat): nat
    requires modulus > 0
  {
    BitAnd((remainder - ETH_HLEN) % 0x1_0000_0000, modulus - 1)
  }

  /** A modulus that is kept or replaced is a power of two, at least 4; a good one is kept. */
  lemma ModulusIsSane(val: nat, txMax: nat)
    requires val <= 0xFFFF
    ensures var m := SaneModulus(val, txMax);
            && IsPow2(m) && 4 <= m <= 0xFFFF
            && (m == val || m == 4)
    ensures SaneModulus(val, txMax) == val <==> val == 4 || (IsPow2(val) && 4 <= val < txMax)
  {
    PowersOf2();
    if val > 0 {
      AndNegate(32, val);
      LowBitIff(val);
    }
  }

  lemma ModThenAdd(x: nat, h: nat, m: nat)
    requires m > 0
    ensures (x % m + h) % m == (x + h) % m
  {
    assert x + h == m * (x / m) + (x % m + h);
    ShiftMod(x + h, x % m + h, m, x / m);
  }

  /** The source's arithmetic on the remainder, in numbers. */
  lemma AdjustedIsMod(remainder: nat, modulus: nat)
    requires IsPow2(modulus) && modulus <= 0xFFFF && remainder <= 0xFFFF
    ensures AdjustedRemainder(remainder, modulus) < modulus
    ensures (AdjustedRemainder(remainder, modulus) + ETH_HLEN) % modulus == remainder % modulus
  {
    hide BitAnd, Pow2;
    var k: nat :| modulus == Pow2(k);
    var x := (remainder - ETH_HLEN) % 0x1_0000_0000;
    MaskIsMod(x, k);
    PowersOf2();
    FitsIn32(k);
    DividesPow2(k, 32);
    var d := Pow2(32 - k);
    ModThenAdd(x, ETH_HLEN, modulus);
    assert x + ETH_HLEN == remainder || x + ETH_HLEN == modulus * d + remainder;
    if x + ETH_HLEN != remainder {
      ShiftMod(x + ETH_HLEN, remainder, modulus, d);
    }
  }

  lemma {:induction false} FitsIn32(k: nat)
    requires Pow2(k) <= 0xFFFF
    ensures k <= 32
  {
    if k > 32 {
      GrowingPow2(32, k);
      PowersOf2();
    }
  }

  lemma {:induction false} GrowingPow2(j: nat, k: nat)
    requires j <= k
    ensures Pow2(j) <= Pow2(k)
    decreases k
  {
    if j < k {
      GrowingPow2(j, k - 1);
    }
  }

  lemma {:induction false} DividesPow2(k: nat, n: nat)
    requires k <= n
    ensures Pow2(n) == Pow2(k) * Pow2(n - k)
  {
    if k > 0 {
      DividesPow2(k - 1, n - 1);
      assert Pow2(n) == 2 * (Pow2(k - 1) * Pow2(n - k));
      assert 2 * (Pow2(k - 1) * Pow2(n - k)) == (2 * Pow2(k - 1)) * Pow2(n - k);
    }
  }

  lemma ShiftMod(a: nat, b: nat, m: nat, q: int)
    requires m > 0 && a == m * q + b
    ensures a % m == b % m
  {
    assert b == m * (b / m) + b % m;
    assert a == m * (q + b / m) + b % m;
    assert a == m * (a / m) + a % m;
    assert m * (q + b / m - a / m) == a % m - b % m;
    MultipleGrows(m, q + b / m - a / m);
  }

  /** The alignment parameters that a device reports, or those the driver works with. */
  datatype Alignment = Alignment(ndpModulus: nat, modulus: nat, remainder: nat) {
    predicate Reportable() { ndpModulus <= 0xFFFF && modulus <= 0xFFFF && remainder <= 0xFFFF }
  }

  /** A modulus that the driver keeps. */
  ghost predicate GoodModulus(m: nat, txMax: nat) {
    m == NDP_ALIGN_MIN_SIZE || (IsPow2(m) && NDP_ALIGN_MIN_SIZE <= m < txMax)
  }

  ghost predicate ModulusFrom(reported: nat, txMax: nat, m: nat) {
    && IsPow2(m) && NDP_ALIGN_MIN_SIZE <= m <= 0xFFFF
    && (m == reported <==> GoodModulus(reported, txMax))
    && (m == reported || m == NDP_ALIGN_MIN_SIZE)
  }

  /** Where the device wants the payload of a frame, if that makes sense. */
  function Wanted(device: Alignment, modulus: nat): nat {
    if device.remainder < modulus then device.remainder else 0
  }

  /**
   * `a` is what the driver makes of `device`: both moduli are powers of two of at least 4, a good
   * modulus is kept, and a frame that starts at the new remainder has its payload, behind the
   * Ethernet header, at the remainder the device asked for (or at 0 if it asked for nonsense).
   */
  ghost predicate Sanitises(device: Alignment, txMax: nat, a: Alignment) {
    && ModulusFrom(device.ndpModulus, txMax, a.ndpModulus)
    && ModulusFrom(device.modulus, txMax, a.modulus)
    && a.remainder < a.modulus
    && (a.remainder + ETH_HLEN) % a.modulus == Wanted(device, a.modulus)
  }

  /** The alignment fields of struct cdc_ncm_ctx. */
  class AlignmentParams {
    const txMax: nat
    var ndpModulus: nat
    var modulus: nat
    var remainder: nat

    ghost function State(): Alignment
      reads this
    {
      Alignment(ndpModulus, modulus, remainder)
    }

    constructor (txMax: nat, device: Alignment)
      ensures this.txMax == txMax && State() == device
    {
      this.txMax := txMax;
      ndpModulus, modulus, remainder := device.ndpModulus, device.modulus, device.remainder;
    }

    /** A remainder for the frame, from the one the device wants for the payload. */
    method FixRemainder()
      requires IsPow2(modulus) && modulus <= 0xFFFF && remainder <= 0xFFFF
      modifies `remainder
      ensures remainder < modulus
      ensures (remainder + ETH_HLEN) % modulus == if old(remainder) < modulus then old(remainder) else 0
    {
      if remainder >= modulus {
        remainder := 0;
      }
      AdjustedIsMod(remainder, modulus);
      SmallMod(remainder, modulus);
      remainder := BitAnd((remainder - ETH_HLEN) % 0x1_0000_0000, modulus - 1);
    }

    /** cdc_ncm_fix_modulus */
    method FixModulus()
      requires State().Reportable()
      modifies this
      ensures Sanitises(old(State()), txMax, State())
    {
      hide IsPow2, BitAnd, Acceptable;
      ModulusIsSane(ndpModulus, txMax);
      ModulusIsSane(modulus, txMax);
      if !Acceptable(ndpModulus, txMax) {
        ndpModulus := NDP_ALIGN_MIN_SIZE;
      }
      if !Acceptable(modulus, txMax) {
        modulus := NDP_ALIGN_MIN_SIZE;
      }
      FixRemainder();
    }
  }

  lemma SmallMod(a: nat, m: nat)
    requires a < m
    ensures a % m == a
  {
    ModUnique(a, m, 0, a);
  }

  /** With these parameters, the payload behind the Ethernet header is where the device wants it. */
  lemma PayloadOffset(off: nat, remainder: nat, modulus: nat, wanted: nat)
    requires modulus > 0 && wanted < modulus
    requires off % modulus == remainder % modulus && (remainder + ETH_HLEN) % modulus == wanted
    ensures (off + ETH_HLEN) % modulus == wanted
  {
    assert off == modulus * (off / modulus) + off % modulus;
    assert remainder == modulus * (remainder / modulus) + remainder % modulus;
    ShiftMod(off + ETH_HLEN, off % modulus + ETH_HLEN, modulus, off / modulus);
    ShiftMod(remainder + ETH_HLEN, remainder % modulus + ETH_HLEN, modulus, remainder / modulus);
  }

  /** The limit on datagrams after cdc_ncm_init. */
  function SaneMaxDatagrams(reported: nat, dptMax: nat): (r: nat)
    requires dptMax > 0
    ensures 1 <= r <= dptMax
    ensures 1 <= reported <= dptMax ==> r == reported
  {
    if reported == 0 || reported > dptMax then dptMax else reported
  }
}
