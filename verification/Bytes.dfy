/** Byte buffers and the little-endian fields that are stored in them. */
module Bytes {
  type Byte = x: int | 0 <= x < 256

  /** The number of values a field of `w` bytes can hold. */
  function Capacity(w: nat): (r: nat)
    ensures r > 0
  {
    if w == 0 then 1 else 256 * Capacity(w - 1)
  }

  /** The little-endian field of `w` bytes; higher bits of `v` are cut off. */
  function Le(w: nat, v: nat): (s: seq<Byte>)
    ensures |s| == w
  {
    if w == 0 then [] else [v % 256] + Le(w - 1, v / 256)
  }

  function FromLe(s: seq<Byte>): nat {
    if s == [] then 0 else s[0] + 256 * FromLe(s[1..])
  }

  lemma {:induction false} FieldRoundTrip(w: nat, v: nat)
    requires v < Capacity(w)
    ensures FromLe(Le(w, v)) == v
  {
    if w > 0 {
      FieldRoundTrip(w - 1, v / 256);
      assert Le(w, v)[1..] == Le(w - 1, v / 256);
    }
  }

  lemma {:induction false} FieldBound(s: seq<Byte>)
    ensures FromLe(s) < Capacity(|s|)
  {
    if s != [] {
      FieldBound(s[1..]);
    }
  }

  lemma Capacities()
    ensures Capacity(2) == 0x1_0000 && Capacity(4) == 0x1_0000_0000
  {
    assert Capacity(1) == 256;
    assert Capacity(3) == 256 * Capacity(2);
  }

  lemma {:induction false} ZeroField(w: nat)
    ensures Le(w, 0) == Zeros(w)
  {
    if w > 0 {
      ZeroField(w - 1);
    }
  }

  function Zeros(n: nat): (s: seq<Byte>)
    ensures |s| == n && forall i | 0 <= i < n :: s[i] == 0
  {
    seq(n, i => 0)
  }

  /** Overwrites the bytes from `off` on with `s`, as a store through a struct pointer does. */
  function Patch(b: seq<Byte>, off: nat, s: seq<Byte>): (r: seq<Byte>)
    ensures |r| == |b|
    ensures off + |s| <= |b| ==> r[off..off + |s|] == s
    ensures off + |s| <= |b| ==> forall i | 0 <= i < |b| && (i < off || off + |s| <= i) :: r[i] == b[i]
  {
    if off + |s| <= |b| then b[..off] + s + b[off + |s|..] else b
  }

  /** Reads the field of `w` bytes at `off`. */
  function Field(b: seq<Byte>, off: nat, w: nat): nat
    requires off + w <= |b|
  {
    FromLe(b[off..off + w])
  }

  /** Both buffers hold the same bytes from `lo` up to `hi`. */
  ghost predicate Agree(a: seq<Byte>, b: seq<Byte>, lo: nat, hi: nat) {
    && hi <= |a|
    && hi <= |b|
    && forall i | lo <= i < hi :: a[i] == b[i]
  }

  lemma AgreeSlice(a: seq<Byte>, b: seq<Byte>, lo: nat, hi: nat, from: nat, to: nat)
    requires Agree(a, b, lo, hi) && lo <= from <= to <= hi
    ensures a[from..to] == b[from..to]
  {
  }
}
