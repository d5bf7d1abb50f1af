/** Network masks: bytes in network order, prefix lengths, and masking. */
module Netmask {
  import opened Prelude
  import opened Arithmetic

  /** Bytes that hold the significant bits of a prefix. */
  function PrefixSize(prefixlen: nat): nat {
    (prefixlen + 7) / 8
  }

  /** Bits of a prefix of length `n` that fall into byte `i`. */
  function BitsIn(n: nat, i: nat): (k: nat)
    ensures k <= 8
  {
    if n <= 8 * i then 0 else if n >= 8 * i + 8 then 8 else n - 8 * i
  }

  /** A byte with its `k` highest bits set. */
  function HighBits(k: nat): uint8
    requires k <= 8
  {
    Pow2Mono(8 - k, 8);
    Pow2Bytes();
    0x100 - Pow2(8 - k)
  }

  function MaskBytes(n: nat): (m: Bytes)
    requires n <= 32
    ensures |m| == 4
  {
    [HighBits(BitsIn(n, 0)), HighBits(BitsIn(n, 1)), HighBits(BitsIn(n, 2)), HighBits(BitsIn(n, 3))]
  }

  /** Zero bits below the lowest set bit. */
  function TrailingZeros(v: nat): nat
    requires v > 0
  {
    if v % 2 == 1 then 0 else 1 + TrailingZeros(v / 2)
  }

  /** The prefix length read off a mask: 33 less the position of its lowest set
      bit, counted from 1. */
  function PrefixLen(mask: Bytes): (n: nat)
    requires |mask| == 4
    ensures n <= 32
  {
    if Word(mask) == 0 then 0 else TrailingBound(Word(mask)); 32 - TrailingZeros(Word(mask))
  }

  lemma {:induction false} TrailingPow(v: nat)
    requires v > 0
    ensures Pow2(TrailingZeros(v)) <= v
  {
    if v % 2 == 0 { TrailingPow(v / 2); }
  }

  lemma TrailingBound(v: uint32)
    requires v > 0
    ensures TrailingZeros(v) < 32
  {
    TrailingPow(v);
    Pow2Bytes();
    if TrailingZeros(v) >= 32 { Pow2Mono(32, TrailingZeros(v)); }
  }

  lemma {:induction false} TrailingShift(z: nat, odd: nat)
    requires odd % 2 == 1
    ensures Pow2(z) * odd > 0 && TrailingZeros(Pow2(z) * odd) == z
  {
    if z > 0 {
      TrailingShift(z - 1, odd);
      assert Pow2(z) * odd == 2 * (Pow2(z - 1) * odd);
    }
  }

  lemma HighBitsShift(k: nat, z: nat)
    requires k <= 8
    ensures HighBits(k) * Pow2(z) == Pow2(8 + z) - Pow2(8 - k + z)
  {
    hide Pow2;
    Pow2Bytes();
    Pow2Add(8, z);
    Pow2Add(8 - k, z);
    assert (0x100 - Pow2(8 - k)) * Pow2(z) == 0x100 * Pow2(z) - Pow2(8 - k) * Pow2(z);
  }

  /** The word of a mask is all ones down to the end of the prefix. */
  lemma MaskWord(n: nat)
    requires n <= 32
    ensures Word(MaskBytes(n)) == 0x1_0000_0000 - Pow2(32 - n)
  {
    hide Pow2, HighBits;
    var m := MaskBytes(n);
    HighBitsShift(BitsIn(n, 0), 24);
    HighBitsShift(BitsIn(n, 1), 16);
    HighBitsShift(BitsIn(n, 2), 8);
    HighBitsShift(BitsIn(n, 3), 0);
    Pow2Bytes();
    assert Pow2(0) == 1 by { PowZero(); }
  }

  lemma PowZero()
    ensures Pow2(0) == 1
  {}

  lemma OddBelow(n: nat)
    requires n > 0
    ensures (Pow2(n) - 1) % 2 == 1 && Pow2(n) >= 1
  {
    hide Pow2;
    Pow2Double(n);
  }

  lemma Pow2Double(n: nat)
    requires n > 0
    ensures Pow2(n) == 2 * Pow2(n - 1)
  {}

  lemma PrefixLenOfMask(n: nat)
    requires n <= 32
    ensures PrefixLen(MaskBytes(n)) == n
  {
    hide Pow2, TrailingZeros, MaskBytes, Word;
    MaskWord(n);
    Pow2Bytes();
    if n > 0 {
      OddBelow(n);
      var odd, low := Pow2(n) - 1, Pow2(32 - n);
      assert low * odd == 0x1_0000_0000 - low by {
        Pow2Add(32 - n, n);
        assert low * odd == low * Pow2(n) - low;
      }
      TrailingShift(32 - n, odd);
    }
  }

  // ---------------------------------------------------------------- masking

  /** Bitwise and of two `n`-bit numbers. */
  function And(a: nat, b: nat, n: nat): nat {
    if n == 0 then 0 else 2 * And(a / 2, b / 2, n - 1) + (a % 2) * (b % 2)
  }

  lemma {:induction false} AndBound(a: nat, b: nat, n: nat)
    ensures And(a, b, n) < Pow2(n)
  {
    if n > 0 { AndBound(a / 2, b / 2, n - 1); }
  }

  function AndByte(a: uint8, b: uint8): uint8 {
    AndBound(a, b, 8);
    Pow2Bytes();
    And(a, b, 8)
  }

  function AndBytes(a: Bytes, b: Bytes): (r: Bytes)
    requires |a| == 4 && |b| == 4
    ensures |r| == 4
  {
    [AndByte(a[0], b[0]), AndByte(a[1], b[1]), AndByte(a[2], b[2]), AndByte(a[3], b[3])]
  }

  /** Masking with ones above the lowest `z` bits clears those bits and leaves
      the others. */
  lemma {:induction false} AndHigh(a: nat, n: nat, z: nat)
    requires z <= n && a < Pow2(n)
    ensures Pow2(z) <= Pow2(n) && And(a, Pow2(n) - Pow2(z), n) == a - a % Pow2(z)
  {
    Pow2Mono(z, n);
    if n > 0 {
      HalfMask(n, z);
      AndHigh(a / 2, n - 1, if z == 0 then 0 else z - 1);
      HalfRest(a, z);
    } else {
      ModOne(a);
    }
  }

  lemma HalfMask(n: nat, z: nat)
    requires z <= n && 0 < n
    ensures Pow2(z) <= Pow2(n) && Pow2(n) == 2 * Pow2(n - 1)
    ensures z == 0 ==> (Pow2(n) - Pow2(z)) % 2 == 1 && (Pow2(n) - Pow2(z)) / 2 == Pow2(n - 1) - 1
    ensures z > 0 ==> (Pow2(n) - Pow2(z)) % 2 == 0 && (Pow2(n) - Pow2(z)) / 2 == Pow2(n - 1) - Pow2(z - 1)
  {
    Pow2Mono(z, n);
  }

  lemma HalfRest(a: nat, z: nat)
    ensures z == 0 ==> a % Pow2(z) == 0 == (a / 2) % Pow2(z)
    ensures z > 0 ==> a % Pow2(z) == 2 * ((a / 2) % Pow2(z - 1)) + a % 2
  {
    if z == 0 {
      ModOne(a);
      ModOne(a / 2);
    } else {
      HalfMod(a, Pow2(z - 1));
    }
  }

  lemma ModOne(a: nat)
    ensures a % 1 == 0
  {}

  /** Byte `x` has nothing below its `k` highest bits. */
  predicate ByteMasked(x: uint8, k: nat)
    requires k <= 8
  {
    x % Pow2(8 - k) == 0
  }

  /** The network number has no bits outside its prefix. */
  predicate Masked(net: Bytes, n: nat)
    requires |net| == 4
  {
    && ByteMasked(net[0], BitsIn(n, 0)) && ByteMasked(net[1], BitsIn(n, 1))
    && ByteMasked(net[2], BitsIn(n, 2)) && ByteMasked(net[3], BitsIn(n, 3))
  }

  lemma AndByteExact(x: uint8, k: nat)
    requires k <= 8
    ensures AndByte(x, HighBits(k)) == x - x % Pow2(8 - k)
  {
    Pow2Bytes();
    AndHigh(x, 8, 8 - k);
  }

  lemma AndByteKeeps(x: uint8, k: nat)
    requires k <= 8 && ByteMasked(x, k)
    ensures AndByte(x, HighBits(k)) == x
  {
    AndByteExact(x, k);
  }

  /** A byte outside the prefix is cleared, whatever it was. */
  lemma AndByteClears(x: uint8)
    ensures AndByte(x, HighBits(0)) == 0
  {
    AndByteExact(x, 0);
    Pow2Bytes();
  }

  lemma OutsideIsZero(x: uint8)
    requires ByteMasked(x, 0)
    ensures x == 0
  {
    Pow2Bytes();
  }

  /** Masking changes nothing in a masked number. */
  lemma MaskKeeps(net: Bytes, n: nat)
    requires |net| == 4 && n <= 32 && Masked(net, n)
    ensures AndBytes(net, MaskBytes(n)) == net
  {
    hide AndByte, HighBits, ByteMasked;
    AndByteKeeps(net[0], BitsIn(n, 0));
    AndByteKeeps(net[1], BitsIn(n, 1));
    AndByteKeeps(net[2], BitsIn(n, 2));
    AndByteKeeps(net[3], BitsIn(n, 3));
  }
}
