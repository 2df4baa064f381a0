/** The 64-bit FNV-1a hash of section 2 of draft-eastlake-fnv, with its multiplication modulo 2^64. */
module Fnv {

  const OFFSET_BASIS: bv64 := 14695981039346656037

  function Xored(h: bv64, b: bv8): bv64 { h ^ (b as bv64) }

  /** Multiplication by the FNV prime, wrapping around at 64 bits. */
  function Scaled(h: bv64): bv64 { h * 1099511628211 }

  function Mix(h: bv64, b: bv8): bv64 { Scaled(Xored(h, b)) }

  function HashFrom(h: bv64, data: seq<bv8>): bv64 {
    if |data| == 0 then h else Mix(HashFrom(h, data[..|data| - 1]), data[|data| - 1])
  }

  function Hash(data: seq<bv8>): bv64 { HashFrom(OFFSET_BASIS, data) }

  function Digit(d: bv64): char
    requires d < 16
  {
    if d == 0 then '0' else if d == 1 then '1' else if d == 2 then '2' else if d == 3 then '3'
    else if d == 4 then '4' else if d == 5 then '5' else if d == 6 then '6' else if d == 7 then '7'
    else if d == 8 then '8' else if d == 9 then '9' else if d == 10 then 'a' else if d == 11 then 'b'
    else if d == 12 then 'c' else if d == 13 then 'd' else if d == 14 then 'e' else 'f'
  }

  /** Hexadecimal without leading zeros. */
  function Hex(h: bv64): (s: string)
    ensures |s| >= 1 && (h >= 16 ==> |s| >= 2)
    decreases h
  {
    if h < 16 then [Digit(h)] else Hex(h >> 4) + [Digit(h & 15)]
  }

  lemma DigitIsInjective(c: bv64, d: bv64)
    requires c < 16 && d < 16 && Digit(c) == Digit(d)
    ensures c == d
  {
  }

  function Joined(top: bv64, low: bv64): bv64 { (top << 4) | low }

  lemma JoinsBack(h: bv64)
    ensures Joined(h >> 4, h & 15) == h && h & 15 < 16 && (h >= 16 ==> h >> 4 < h)
  {
  }

  lemma Parts(h: bv64) returns (top: bv64, low: bv64)
    requires h >= 16
    ensures low < 16 && top < h && Hex(h) == Hex(top) + [Digit(low)] && Joined(top, low) == h
  {
    top, low := h >> 4, h & 15;
    JoinsBack(h);
  }

  /** Two hashes never print alike. */
  lemma {:induction false} HexIsInjective(g: bv64, h: bv64)
    requires Hex(g) == Hex(h)
    ensures g == h
    decreases g
  {
    if g < 16 && h < 16 {
      DigitIsInjective(g, h);
    } else if g >= 16 && h >= 16 {
      var a, c := Parts(g);
      var b, d := Parts(h);
      LastSplits(Hex(a), Digit(c), Hex(b), Digit(d));
      HexIsInjective(a, b);
      DigitIsInjective(c, d);
    }
  }

  lemma LastSplits(s: string, c: char, t: string, d: char)
    requires s + [c] == t + [d]
    ensures s == t && c == d
  {
    assert (s + [c])[..|s|] == s && (t + [d])[..|t|] == t;
    assert (s + [c])[|s|] == c && (t + [d])[|t|] == d;
  }

  /** The hash loop. */
  method HashBytes(data: seq<bv8>) returns (h: bv64)
    ensures h == Hash(data)
  {
    h := OFFSET_BASIS;
    for i := 0 to |data|
      invariant h == Hash(data[..i])
    {
      assert data[..i + 1][..i] == data[..i];
      h := Xored(h, data[i]);
      h := Scaled(h);
    }
    assert data[..|data|] == data;
  }

  /** Two of the published test vectors: the empty text and "a". */
  lemma KnownHashes()
    ensures Hash([]) == 0xcbf29ce484222325 && Hash([0x61]) == 0xaf63dc4c8601ec8c
  {
    var a: seq<bv8> := [0x61];
    assert a[..0] == [];
    assert Hash(a) == Mix(OFFSET_BASIS, 0x61);
  }

  /** Digits run from 0 to 9 and on from a to f, the last one being the lowest. */
  lemma KnownPrints()
    ensures Hex(0) == "0" && Hex(0x9f) == "9f" && Hex(0xabcde) == "abcde"
  {
    PrintStep(0x9, 0xf);
    PrintStep(0xa, 0xb);
    PrintStep(0xab, 0xc);
    PrintStep(0xabc, 0xd);
    PrintStep(0xabcd, 0xe);
  }

  lemma PrintStep(top: bv64, low: bv64)
    requires 0 < top < 0x1000000000000000 && low < 16
    ensures Hex((top << 4) | low) == Hex(top) + [Digit(low)]
  {
  }

  function Unscaled(h: bv64): bv64 { h * 14886173955864302971 }

  lemma PrimeTimesInverse(x: bv64)
    ensures (x * 1099511628211) * 14886173955864302971 == x
  {
  }

  /** The odd prime has a multiplicative inverse modulo 2^64. */
  lemma PrimeIsInvertible(x: bv64)
    ensures Unscaled(Scaled(x)) == x
  {
    calc {
      Unscaled(Scaled(x));
      Unscaled(x * 1099511628211);
      (x * 1099511628211) * 14886173955864302971;
      { PrimeTimesInverse(x); }
      x;
    }
  }

  lemma XoredIsInjective(g: bv64, h: bv64, b: bv8, c: bv8)
    ensures Xored(g, b) == Xored(h, b) ==> g == h
    ensures Xored(h, b) == Xored(h, c) ==> b == c
  {
  }

  lemma ScaledIsInjective(x: bv64, y: bv64)
    requires Scaled(x) == Scaled(y)
    ensures x == y
  {
    PrimeIsInvertible(x);
    PrimeIsInvertible(y);
  }

  /** One step is injective in the running hash and in the byte. */
  lemma MixIsInjective(g: bv64, h: bv64, b: bv8, c: bv8)
    ensures Mix(g, b) == Mix(h, b) ==> g == h
    ensures Mix(h, b) == Mix(h, c) ==> b == c
  {
    if Mix(g, b) == Mix(h, b) { ScaledIsInjective(Xored(g, b), Xored(h, b)); }
    if Mix(h, b) == Mix(h, c) { ScaledIsInjective(Xored(h, b), Xored(h, c)); }
    XoredIsInjective(g, h, b, c);
  }

  lemma {:induction false} SuffixKeepsDifference(g: bv64, h: bv64, data: seq<bv8>)
    requires g != h
    ensures HashFrom(g, data) != HashFrom(h, data)
  {
    if |data| > 0 {
      var k := |data| - 1;
      SuffixKeepsDifference(g, h, data[..k]);
      MixIsInjective(HashFrom(g, data[..k]), HashFrom(h, data[..k]), data[k], data[k]);
    }
  }

  lemma {:induction false} HashOfConcat(h: bv64, a: seq<bv8>, b: seq<bv8>)
    ensures HashFrom(h, a + b) == HashFrom(HashFrom(h, a), b)
  {
    if |b| == 0 {
      assert a + b == a;
    } else {
      assert (a + b)[..|a + b| - 1] == a + b[..|b| - 1];
      HashOfConcat(h, a, b[..|b| - 1]);
    }
  }

  /** Inputs of equal length that differ in exactly one byte never collide. */
  lemma OneByteSeparates(before: seq<bv8>, b: bv8, c: bv8, after: seq<bv8>)
    requires b != c
    ensures Hash(before + [b] + after) != Hash(before + [c] + after)
  {
    HashOfConcat(OFFSET_BASIS, before + [b], after);
    HashOfConcat(OFFSET_BASIS, before + [c], after);
    assert (before + [b])[..|before|] == before && (before + [c])[..|before|] == before;
    MixIsInjective(Hash(before), Hash(before), b, c);
    SuffixKeepsDifference(Hash(before + [b]), Hash(before + [c]), after);
  }
}
