/** Case folding and case-insensitive search, as used on error messages, block tags and cache keys. */
module Text {

  function LowerChar(c: char): char {
    if 'A' <= c <= 'Z' then c - 'A' + 'a' else c
  }

  function ToLower(s: string): (r: string)
    ensures |r| == |s|
  {
    seq(|s|, i requires 0 <= i < |s| => LowerChar(s[i]))
  }

  /** The same letter, ignoring case: defined without reference to folding. */
  predicate SameLetter(a: char, b: char) {
    a == b
    || ('A' <= a <= 'Z' && b == a - 'A' + 'a')
    || ('A' <= b <= 'Z' && a == b - 'A' + 'a')
  }

  predicate EqualFold(s: string, t: string) {
    |s| == |t| && forall i :: 0 <= i < |s| ==> SameLetter(s[i], t[i])
  }

  /** Folding decides equality up to case, folding twice changes nothing, and what it does is move A to Z up by 32. */
  lemma LowerDecidesEqualFold(s: string, t: string)
    ensures ToLower(s) == ToLower(t) <==> EqualFold(s, t)
    ensures ToLower(ToLower(s)) == ToLower(s)
    ensures forall i :: 0 <= i < |s| ==>
      ToLower(s)[i] == if 65 <= s[i] as int <= 90 then (s[i] as int + 32) as char else s[i]
  {
    if ToLower(s) == ToLower(t) {
      assert |s| == |t|;
      forall i | 0 <= i < |s| ensures SameLetter(s[i], t[i]) {
        assert ToLower(s)[i] == ToLower(t)[i];
      }
    }
  }

  /** n characters of s from position i on. */
  function Window(s: string, i: nat, n: nat): string
    requires i + n <= |s|
  {
    s[i..i + n]
  }

  /** sub occurs somewhere in s, ignoring case. */
  predicate ContainsFold(s: string, sub: string) {
    exists i :: 0 <= i <= |s| - |sub| && EqualFold(Window(s, i, |sub|), sub)
  }

  /** s contains sub at position i, in any capitalisation. */
  predicate OccursAt(s: string, sub: string, i: int) {
    0 <= i <= |s| - |sub| && EqualFold(s[i..i + |sub|], sub)
  }

  /** Containment is occurrence at some position. */
  lemma OccursMeans(s: string, sub: string)
    ensures ContainsFold(s, sub) <==> exists i :: OccursAt(s, sub, i)
  {
    if i :| 0 <= i <= |s| - |sub| && EqualFold(Window(s, i, |sub|), sub) {
      assert OccursAt(s, sub, i);
    }
    if i :| OccursAt(s, sub, i) {
      assert EqualFold(Window(s, i, |sub|), sub);
    }
  }

  lemma ContainsFoldIgnoresCase(s: string, t: string, sub: string)
    requires EqualFold(s, t)
    ensures ContainsFold(s, sub) <==> ContainsFold(t, sub)
  {
    ContainsFoldOneWay(s, t, sub);
    ContainsFoldOneWay(t, s, sub);
  }

  lemma ContainsFoldOneWay(s: string, t: string, sub: string)
    requires EqualFold(s, t)
    ensures ContainsFold(s, sub) ==> ContainsFold(t, sub)
  {
    if ContainsFold(s, sub) {
      var i :| 0 <= i <= |s| - |sub| && EqualFold(Window(s, i, |sub|), sub);
      forall j | 0 <= j < |sub| ensures SameLetter(Window(t, i, |sub|)[j], sub[j]) {
        assert SameLetter(Window(s, i, |sub|)[j], sub[j]) && SameLetter(s[i + j], t[i + j]);
      }
      assert EqualFold(Window(t, i, |sub|), sub);
    }
  }

  /** toLower: fill a buffer byte by byte. */
  method LowerBytes(s: string) returns (r: string)
    ensures r == ToLower(s)
  {
    var b := new char[|s|];
    for i := 0 to |s|
      invariant forall j :: 0 <= j < i ==> b[j] == LowerChar(s[j])
    {
      var c := s[i];
      if 'A' <= c <= 'Z' {
        c := c - 'A' + 'a';
      }
      b[i] := c;
    }
    r := b[..];
  }

  method ContainsLower(s: string, sub: string) returns (found: bool)
    ensures found <==> exists i :: 0 <= i <= |s| - |sub| && Window(s, i, |sub|) == sub
  {
    var i := 0;
    while i <= |s| - |sub|
      invariant 0 <= i && (|s| >= |sub| ==> i <= |s| - |sub| + 1)
      invariant forall j :: 0 <= j < i && j <= |s| - |sub| ==> Window(s, j, |sub|) != sub
    {
      if Window(s, i, |sub|) == sub {
        return true;
      }
      i := i + 1;
    }
    return false;
  }

  lemma LowerOfSlice(s: string, i: nat, j: nat)
    requires i <= j <= |s|
    ensures ToLower(s)[i..j] == ToLower(s[i..j])
  {
  }

  /** contains: case-insensitive substring search by folding both sides. */
  method Contains(s: string, sub: string) returns (found: bool)
    ensures found <==> ContainsFold(s, sub)
  {
    if |s| < |sub| {
      return false;
    }
    var s' := LowerBytes(s);
    var sub' := LowerBytes(sub);
    found := ContainsLower(s', sub');
    forall i | 0 <= i <= |s| - |sub|
      ensures Window(s', i, |sub|) == sub' <==> EqualFold(Window(s, i, |sub|), sub)
    {
      LowerOfSlice(s, i, i + |sub|);
      LowerDecidesEqualFold(Window(s, i, |sub|), sub);
    }
  }

  // ----- Keys joined with colons

  predicate NoColon(s: string) { ':' !in s }

  lemma ColonSplitsOnce(a: string, b: string, c: string, d: string)
    requires NoColon(a) && NoColon(c) && a + ":" + b == c + ":" + d
    ensures a == c && b == d
  {
    var s := a + ":" + b;
    assert s[|a|] == ':' && s[|c|] == (c + ":" + d)[|c|] == ':';
    assert forall i :: 0 <= i < |a| ==> s[i] == a[i];
    assert forall i :: 0 <= i < |c| ==> s[i] == (c + ":" + d)[i] == c[i];
    assert a == s[..|a|] && c == (c + ":" + d)[..|c|];
    assert b == s[|a| + 1..] && d == (c + ":" + d)[|c| + 1..];
  }

  lemma LastColonSplits(a: string, b: string, c: string, d: string)
    requires NoColon(b) && NoColon(d) && a + ":" + b == c + ":" + d
    ensures a == c && b == d
  {
    var s, t := a + ":" + b, c + ":" + d;
    assert s[|a|] == ':' && t[|c|] == ':';
    assert forall i :: |a| < i < |s| ==> s[i] == b[i - |a| - 1];
    assert forall i :: |c| < i < |t| ==> t[i] == d[i - |c| - 1];
    assert |a| == |c|;
    assert a == s[..|a|] && c == t[..|c|] && b == s[|a| + 1..] && d == t[|c| + 1..];
  }
}
