/**
 * Fixed-width unsigned integers and bit strings read most significant bit first.
 *
 * The touch controller answers on a serial line one bit per clock pulse, most
 * significant bit first; these definitions give the number such a run of bits
 * stands for, and the bits that stand for a given number.
 */
module Bits {

  type uint8 = x: int | 0 <= x < 0x100
  type uint16 = x: int | 0 <= x < 0x1_0000
  type uint32 = x: int | 0 <= x < 0x1_0000_0000

  function Pow2(n: nat): (p: nat)
    ensures p >= 1
  {
    if n == 0 then 1 else 2 * Pow2(n - 1)
  }

  /** The number whose binary digits, most significant first, are `bits`. */
  function BitsValue(bits: seq<bool>): (v: nat)
    ensures v < Pow2(|bits|)
  {
    if bits == [] then 0
    else 2 * BitsValue(bits[..|bits| - 1]) + (if bits[|bits| - 1] then 1 else 0)
  }

  /** The `n` low-order binary digits of `v`, most significant first. */
  function BitsOf(v: nat, n: nat): (bits: seq<bool>)
    ensures |bits| == n
  {
    if n == 0 then [] else BitsOf(v / 2, n - 1) + [v % 2 == 1]
  }

  /**
   * The number whose binary digits, most significant first, are the first `k`
   * of `bits`: `BitsValue(bits[..k])` (PrefixValueIsBitsValue), written
   * without slicing so that the shifting loops can carry it as an invariant
   * cheaply.
   */
  function PrefixValue(bits: seq<bool>, k: nat): (v: nat)
    requires k <= |bits|
    ensures v < Pow2(k)
  {
    if k == 0 then 0 else 2 * PrefixValue(bits, k - 1) + (if bits[k - 1] then 1 else 0)
  }

  lemma {:induction false} PrefixValueIsBitsValue(bits: seq<bool>, k: nat)
    requires k <= |bits|
    ensures PrefixValue(bits, k) == BitsValue(bits[..k])
  {
    if k > 0 {
      PrefixValueIsBitsValue(bits, k - 1);
      assert bits[..k][..k - 1] == bits[..k - 1];
    }
  }

  lemma {:induction false} Pow2Add(a: nat, b: nat)
    ensures Pow2(a) * Pow2(b) == Pow2(a + b)
  {
    if a > 0 {
      Pow2Add(a - 1, b);
      DoubleFactor(Pow2(b), Pow2(a - 1));
    }
  }

  lemma {:induction false} Pow2Monotonic(a: nat, b: nat)
    requires a <= b
    ensures Pow2(a) <= Pow2(b)
  {
    if a < b {
      Pow2Monotonic(a, b - 1);
    }
  }

  /** Writing `v` on `n` bits and reading them back gives `v` again when it fits. */
  lemma {:induction false} BitsOfRoundTrip(v: nat, n: nat)
    requires v < Pow2(n)
    ensures BitsValue(BitsOf(v, n)) == v
  {
    if n > 0 {
      BitsOfRoundTrip(v / 2, n - 1);
      var bits := BitsOf(v, n);
      assert bits[..n - 1] == BitsOf(v / 2, n - 1);
    }
  }

  /** Reading a run of bits and writing the number back on as many bits gives the same run. */
  lemma {:induction false} BitsValueRoundTrip(bits: seq<bool>)
    ensures BitsOf(BitsValue(bits), |bits|) == bits
  {
    if bits != [] {
      var n := |bits|;
      var v := BitsValue(bits);
      BitsValueRoundTrip(bits[..n - 1]);
      assert v / 2 == BitsValue(bits[..n - 1]);
      assert bits == bits[..n - 1] + [bits[n - 1]];
    }
  }

  /** Concatenating two runs of bits shifts the first left past the second. */
  lemma {:induction false} BitsValueAppend(a: seq<bool>, b: seq<bool>)
    ensures BitsValue(a + b) == BitsValue(a) * Pow2(|b|) + BitsValue(b)
  {
    if b == [] {
      assert a + b == a;
    } else {
      var n := |b|;
      var last := if b[n - 1] then 1 else 0;
      var front := b[..n - 1];
      assert (a + b)[..|a + b| - 1] == a + front;
      assert BitsValue(a + b) == 2 * BitsValue(a + front) + last;
      assert BitsValue(b) == 2 * BitsValue(front) + last;
      BitsValueAppend(a, front);
      var va, p := BitsValue(a), Pow2(n - 1);
      assert Pow2(n) == 2 * p;
      DoubleFactor(va, p);
    }
  }

  lemma DoubleFactor(x: int, y: int)
    ensures x * (2 * y) == 2 * (x * y) == (2 * y) * x
  {
  }

  lemma AddFactor(x: int, y: int, z: int)
    ensures (x + y) * z == x * z + y * z
  {
  }

  /** The leading bit of a run is worth 2^(length - 1). */
  lemma {:induction false} LeadingBit(bits: seq<bool>)
    requires bits != []
    ensures BitsValue(bits) == (if bits[0] then Pow2(|bits| - 1) else 0) + BitsValue(bits[1..])
  {
    var head, rest := [bits[0]], bits[1..];
    assert bits == head + rest;
    assert head[..0] == [];
    BitsValueAppend(head, rest);
    var p := Pow2(|rest|);
    if bits[0] {
      assert BitsValue(head) == 1;
      assert 1 * p == p;
    } else {
      assert BitsValue(head) == 0;
      assert 0 * p == 0;
    }
  }
}
