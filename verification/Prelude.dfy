/** Small vocabulary shared by every module: optional values, machine-width
    integers and the few facts about sequences the proofs keep reusing. */
module Prelude {
  import Arithmetic

  datatype Option<+T> = None | Some(value: T)

  type uint8 = x: int | 0 <= x < 0x100
  type uint16 = x: int | 0 <= x < 0x1_0000
  type uint32 = x: int | 0 <= x < 0x1_0000_0000

  type Bytes = seq<uint8>

  /** An IPv4 prefix. */
  datatype Prefix = Prefix(addr: uint32, len: uint8)

  const UINT32_MAX: uint32 := 0xFFFF_FFFF

  function Min(a: int, b: int): (m: int)
    ensures m <= a && m <= b && (m == a || m == b)
  {
    if a < b then a else b
  }

  function Max(a: int, b: int): (m: int)
    ensures m >= a && m >= b && (m == a || m == b)
  {
    if a < b then b else a
  }

  function Pow2(n: nat): (p: nat)
    ensures p >= 1
  {
    if n == 0 then 1 else 2 * Pow2(n - 1)
  }

  lemma {:induction false} Pow2Mono(n: nat, m: nat)
    requires n <= m
    ensures Pow2(n) <= Pow2(m)
  {
    if n < m { Pow2Mono(n, m - 1); }
  }

  lemma {:induction false} Pow2Add(n: nat, m: nat)
    ensures Pow2(n + m) == Pow2(n) * Pow2(m)
  {
    if n > 0 { Pow2Add(n - 1, m); }
  }

  lemma Pow2Bytes()
    ensures Pow2(8) == 0x100 && Pow2(16) == 0x1_0000 && Pow2(24) == 0x100_0000
    ensures Pow2(31) == 0x8000_0000 && Pow2(32) == 0x1_0000_0000
  {
    assert Pow2(4) == 16;
    Pow2Add(4, 4);
    Pow2Add(8, 8);
    Pow2Add(16, 8);
    Pow2Add(24, 8);
    assert Pow2(32) == 2 * Pow2(31);
  }

  /** The four bytes of `s` as one number, most significant first. */
  function Word(s: seq<uint8>): (w: uint32)
    requires |s| == 4
  {
    var a: int, b: int, c: int, d: int := s[0], s[1], s[2], s[3];
    a * 0x100_0000 + b * 0x1_0000 + c * 0x100 + d
  }

  function Be16(v: uint16): (b: seq<uint8>)
    ensures |b| == 2
  {
    [v / 0x100, v % 0x100]
  }

  lemma WordParts(v: uint32)
    ensures v / 0x100_0000 < 0x100
    ensures v == v / 0x100_0000 * 0x100_0000 + v / 0x1_0000 % 0x100 * 0x1_0000 + v / 0x100 % 0x100 * 0x100 + v % 0x100
  {
    var y, d := v / 0x100, v % 0x100;
    var x, c := y / 0x100, y % 0x100;
    var a, b := x / 0x100, x % 0x100;
    Arithmetic.ModUnique(v, 0x1_0000, x, c * 0x100 + d);
    Arithmetic.ModUnique(v, 0x100_0000, a, b * 0x1_0000 + c * 0x100 + d);
  }

  function Be32(v: uint32): (b: seq<uint8>)
    ensures |b| == 4 && Word(b) == v
  {
    WordParts(v);
    [v / 0x100_0000, v / 0x1_0000 % 0x100, v / 0x100 % 0x100, v % 0x100]
  }

  function Half(b: seq<uint8>): uint16
    requires |b| == 2
  {
    var hi: int, lo: int := b[0], b[1];
    hi * 0x100 + lo
  }

  lemma HalfOfBe16(v: uint16)
    ensures Half(Be16(v)) == v
  {}

  /** No element occurs twice. */
  predicate Distinct<T(==)>(s: seq<T>) {
    forall i, j :: 0 <= i < j < |s| ==> s[i] != s[j]
  }

  /** `s` without its first occurrence of `x` (a TAILQ_REMOVE of the entry found by scanning for `x`). */
  function RemoveFirst<T(==)>(s: seq<T>, x: T): (r: seq<T>) {
    if s == [] then [] else if s[0] == x then s[1..] else [s[0]] + RemoveFirst(s[1..], x)
  }

  lemma {:induction false} RemoveFirstFacts<T>(s: seq<T>, x: T)
    requires Distinct(s)
    ensures Distinct(RemoveFirst(s, x))
    ensures forall y :: y in RemoveFirst(s, x) <==> y in s && y != x
    ensures |RemoveFirst(s, x)| == if x in s then |s| - 1 else |s|
  {
    if s != [] {
      var t := s[1..];
      assert s == [s[0]] + t;
      if s[0] == x {
        assert forall i :: 0 <= i < |t| ==> t[i] == s[i + 1];
      } else {
        assert Distinct(t);
        RemoveFirstFacts(t, x);
        var u := RemoveFirst(t, x);
        assert s[0] !in t;
        assert s[0] !in u;
      }
    }
  }

  lemma {:induction false} RemoveFirstShrinks<T>(s: seq<T>, x: T)
    ensures |RemoveFirst(s, x)| <= |s|
  {
    if s != [] && s[0] != x { RemoveFirstShrinks(s[1..], x); }
  }

  /** Appending something new keeps a sequence distinct. */
  lemma DistinctAppend<T>(s: seq<T>, x: T)
    requires Distinct(s) && x !in s
    ensures Distinct(s + [x])
  {
  }
}
