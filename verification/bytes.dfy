/** Fixed-width unsigned integers as bounded mathematical integers, plus the
    little-endian and bit-level views of them that the wire formats use. */
module Bytes {

  type u8 = x: int | 0 <= x < 0x100
  type u16 = x: int | 0 <= x < 0x1_0000
  type u32 = x: int | 0 <= x < 0x1_0000_0000
  type u64 = x: int | 0 <= x < 0x1_0000_0000_0000_0000

  /** 2 to the power n. */
  function Pow2(n: nat): (r: nat)
    ensures r >= 1
  {
    if n == 0 then 1 else 2 * Pow2(n - 1)
  }

  /** Bit k (bit 0 is the least significant) of v. */
  predicate Bit(v: nat, k: nat)
    decreases k
  {
    if k == 0 then v % 2 == 1 else Bit(v / 2, k - 1)
  }

  /** Little-endian value of the bytes of s, least significant byte first. */
  function LittleEndian(s: seq<u8>): (r: nat)
  {
    if |s| == 0 then 0 else s[0] + 0x100 * LittleEndian(s[1..])
  }

  lemma {:induction false} LittleEndianBound(s: seq<u8>)
    ensures LittleEndian(s) < Pow2(8 * |s|)
  {
    if |s| > 0 {
      LittleEndianBound(s[1..]);
      assert Pow2(8 * |s|) == 0x100 * Pow2(8 * |s[1..]|) by {
        Pow2Add(8, 8 * |s[1..]|);
      }
    }
  }

  lemma {:induction false} Pow2Add(a: nat, b: nat)
    ensures Pow2(a + b) == Pow2(a) * Pow2(b)
    decreases a
  {
    if a > 0 {
      Pow2Add(a - 1, b);
    }
  }

  /** The n-byte little-endian encoding of v, least significant byte first;
      the inverse of LittleEndian for values that fit. */
  function LittleEndianBytes(v: nat, n: nat): (r: seq<u8>)
    ensures |r| == n
  {
    if n == 0 then [] else [v % 0x100] + LittleEndianBytes(v / 0x100, n - 1)
  }

  lemma {:induction false} LittleEndianRoundTrip(v: nat, n: nat)
    requires v < Pow2(8 * n)
    ensures LittleEndian(LittleEndianBytes(v, n)) == v
  {
    if n > 0 {
      assert Pow2(8 * n) == 0x100 * Pow2(8 * (n - 1)) by { Pow2Add(8, 8 * (n - 1)); }
      LittleEndianRoundTrip(v / 0x100, n - 1);
      assert LittleEndianBytes(v, n)[1..] == LittleEndianBytes(v / 0x100, n - 1);
    }
  }

  /** A slice of a suffix is a slice of the whole, shifted. */
  lemma SliceOfSuffix<T>(s: seq<T>, k: nat, a: nat, b: nat)
    requires a <= b && k + b <= |s|
    ensures s[k..][a..b] == s[k + a..k + b]
  {
  }

  /** Concatenation regroups. */
  lemma AppendAssoc<T>(a: seq<T>, b: seq<T>, c: seq<T>)
    ensures (a + b) + c == a + (b + c)
  {
  }

  /** A suffix of a suffix is a suffix of the whole. */
  lemma SuffixOfSuffix<T>(s: seq<T>, k: nat, a: nat)
    requires k + a <= |s|
    ensures s[k..][a..] == s[k + a..]
  {
  }

  /** The powers of two of the fixed integer widths. */
  lemma Pow2Byte()
    ensures Pow2(8) == 0x100
  {
    assert Pow2(2) == 4;
    assert Pow2(4) == 16;
    assert Pow2(6) == 64;
  }

  lemma Pow2Half()
    ensures Pow2(16) == 0x1_0000
  {
    Pow2Byte();
    Pow2Add(8, 8);
  }

  lemma Pow2Word()
    ensures Pow2(32) == 0x1_0000_0000
  {
    Pow2Half();
    Pow2Add(16, 16);
  }

  lemma Pow2Long()
    ensures Pow2(64) == 0x1_0000_0000_0000_0000
  {
    Pow2Word();
    Pow2Add(32, 32);
  }
}
