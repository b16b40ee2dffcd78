/** UTF-8: section 4 of RFC 3629. */
module Utf8 {
  import opened Octets

  predicate RuneStart(b: Byte) { !(0x80 <= b < 0xC0) }

  /** One character. */
  predicate Rune(s: Bytes) {
    (forall i :: 0 < i < |s| ==> !RuneStart(s[i])) &&
    match |s|
    case 1 => s[0] < 0x80
    case 2 => 0xC2 <= s[0] <= 0xDF
    case 3 => 0xE0 <= s[0] <= 0xEF && (s[0] == 0xE0 ==> s[1] >= 0xA0) && (s[0] == 0xED ==> s[1] < 0xA0)
    case 4 => 0xF0 <= s[0] <= 0xF4 && (s[0] == 0xF0 ==> s[1] >= 0x90) && (s[0] == 0xF4 ==> s[1] < 0x90)
    case _ => false
  }

  function RuneLen(b: Byte): (n: nat)
    ensures 1 <= n <= 4
  {
    if b < 0x80 then 1 else if b < 0xE0 then 2 else if b < 0xF0 then 3 else 4
  }

  predicate ValidUtf8(s: Bytes) {
    s == [] || (RuneLen(s[0]) <= |s| && Rune(s[..RuneLen(s[0])]) && ValidUtf8(s[RuneLen(s[0])..]))
  }

  /** A valid text cut before the start of a character is valid. */
  lemma {:induction false} CutIsValid(s: Bytes, cut: nat)
    requires ValidUtf8(s) && cut < |s| && (cut == 0 || RuneStart(s[cut]))
    ensures ValidUtf8(s[..cut])
    decreases |s|
  {
    if cut > 0 {
      var n := RuneLen(s[0]);
      assert forall i :: 0 < i < n ==> s[..n][i] == s[i];
      assert cut >= n;
      hide Rune, RuneLen;
      CutTwice(s, n, cut);
      if cut > n {
        CutIsValid(s[n..], cut - n);
      }
    }
  }

  lemma CutTwice(s: Bytes, n: nat, cut: nat)
    requires n <= cut <= |s|
    ensures s[..cut][..n] == s[..n] && s[..cut][n..] == s[n..][..cut - n]
  {
  }

  lemma {:induction false} ValidConcat(s: Bytes, t: Bytes)
    requires ValidUtf8(s) && ValidUtf8(t)
    ensures ValidUtf8(s + t)
    decreases |s|
  {
    if s == [] {
      assert s + t == t;
    } else {
      hide Rune, RuneLen;
      var n := RuneLen(s[0]);
      ValidConcat(s[n..], t);
      CutConcat(s, t, n);
    }
  }

  lemma CutConcat(s: Bytes, t: Bytes, n: nat)
    requires n <= |s|
    ensures (s + t)[..n] == s[..n] && (s + t)[n..] == s[n..] + t
  {
  }

  lemma {:induction false} AsciiIsValid(s: Bytes)
    requires forall i :: 0 <= i < |s| ==> s[i] < 0x80
    ensures ValidUtf8(s)
  {
    if s != [] {
      AsciiIsValid(s[1..]);
    }
  }

  /** The six bits a byte after the first one carries. */
  function Low(b: Byte): int { b - 0x80 }

  /** The code point a character stands for. */
  function CodePoint(s: Bytes): nat
    requires Rune(s)
  {
    var first: int := s[0];
    match |s|
    case 1 => first
    case 2 => 0x40 * (first - 0xC0) + Low(s[1])
    case 3 => 0x1000 * (first - 0xE0) + 0x40 * Low(s[1]) + Low(s[2])
    case _ => 0x4_0000 * (first - 0xF0) + 0x1000 * Low(s[1]) + 0x40 * Low(s[2]) + Low(s[3])
  }

  function Runes(s: Bytes): seq<nat>
    requires ValidUtf8(s)
  {
    if s == [] then []
    else
      var n := RuneLen(s[0]);
      [CodePoint(s[..n])] + Runes(s[n..])
  }

  /** A byte below 0x80 is a character of its own wherever it stands. */
  lemma {:induction false} AsciiStandsAlone(s: Bytes, b: Byte)
    requires ValidUtf8(s) && b in s && b < 0x80
    ensures b in Runes(s)
    decreases |s|
  {
    var n := RuneLen(s[0]);
    assert s == s[..n] + s[n..];
    if b in s[..n] {
      var i :| 0 <= i < n && s[..n][i] == b;
      assert i == 0;
    } else {
      AsciiStandsAlone(s[n..], b);
    }
  }
}
