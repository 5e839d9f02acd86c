/** Bytes, Go strings and fixed-width little-endian integers. */
module Bytes {

  // A Go string is a sequence of bytes. A byte is a character below 256, so
  // that the source's string constants are written as string literals.
  type byte = c: char | c as int < 256
  type Bytes = seq<byte>

  type i32 = x: int | -0x8000_0000 <= x < 0x8000_0000
  type u32 = x: int | 0 <= x < 0x1_0000_0000
  type i64 = x: int | -0x8000_0000_0000_0000 <= x < 0x8000_0000_0000_0000
  type u64 = x: int | 0 <= x < 0x1_0000_0000_0000_0000

  const NUL: byte := 0 as char

  function Pow256(n: nat): (p: nat)
    ensures p > 0
  {
    if n == 0 then 1 else 256 * Pow256(n - 1)
  }

  /** The low n bytes of v, least significant first. */
  function LE(v: nat, n: nat): (b: Bytes)
    ensures |b| == n
  {
    if n == 0 then [] else [(v % 256) as char] + LE(v / 256, n - 1)
  }

  function FromLE(b: Bytes): nat {
    if b == [] then 0 else b[0] as int + 256 * FromLE(b[1..])
  }

  lemma {:induction false} FromLEBound(b: Bytes)
    ensures FromLE(b) < Pow256(|b|)
  {
    if b == [] {
    } else {
      FromLEBound(b[1..]);
    }
  }

  lemma {:induction false} FromLEOfLE(v: nat, n: nat)
    requires v < Pow256(n)
    ensures FromLE(LE(v, n)) == v
  {
    if n == 0 {
    } else {
      FromLEOfLE(v / 256, n - 1);
      assert LE(v, n)[1..] == LE(v / 256, n - 1);
    }
  }

  lemma Widths()
    ensures Pow256(4) == 0x1_0000_0000
    ensures Pow256(8) == 0x1_0000_0000_0000_0000
  {
    assert Pow256(2) == 65536;
    assert Pow256(4) == 256 * (256 * Pow256(2));
    assert Pow256(6) == 256 * (256 * Pow256(4));
    assert Pow256(8) == 256 * (256 * Pow256(6));
  }

  /** Two's complement with the given modulus: the bits of v, and back. */
  function Unsigned(v: int, modulus: nat): (u: nat)
    requires 0 <= v + modulus && v < modulus
    ensures u < modulus
  {
    if v < 0 then v + modulus else v
  }

  function Signed(u: nat, modulus: nat): (v: int) {
    if 2 * u >= modulus then u - modulus else u
  }

  function Zeros(n: nat): (b: Bytes)
    ensures |b| == n
    ensures forall i | 0 <= i < n :: b[i] == NUL
  {
    seq(n, _ => NUL)
  }

  /** b with x written at offset off. */
  function Splice(b: Bytes, off: nat, x: Bytes): (r: Bytes)
    requires off + |x| <= |b|
    ensures |r| == |b|
  {
    b[..off] + x + b[off + |x|..]
  }

  /** Splice changes x's place and nothing else. */
  lemma SpliceSlices(b: Bytes, off: nat, x: Bytes, lo: nat, hi: nat)
    requires off + |x| <= |b| && lo <= hi <= |b|
    ensures Splice(b, off, x)[off..off + |x|] == x
    ensures hi <= off || off + |x| <= lo ==> Splice(b, off, x)[lo..hi] == b[lo..hi]
  {
  }

  lemma SpliceWithin(b: Bytes, off: nat, x: Bytes, lo: nat, hi: nat)
    requires lo <= off && off + |x| <= hi <= |b|
    ensures Splice(b, off, x)[lo..hi] == Splice(b[lo..hi], off - lo, x)
  {
    var l, r := Splice(b, off, x)[lo..hi], Splice(b[lo..hi], off - lo, x);
    forall k | 0 <= k < hi - lo ensures l[k] == r[k] {
      assert b[lo..hi][k] == b[lo + k];
    }
  }

  /** The position of the first NUL, or the length when there is none. */
  function IndexNul(b: Bytes): (n: nat)
    ensures n <= |b|
    ensures forall i | 0 <= i < n :: b[i] != NUL
    ensures n < |b| ==> b[n] == NUL
  {
    if b == [] || b[0] == NUL then 0 else 1 + IndexNul(b[1..])
  }
}
