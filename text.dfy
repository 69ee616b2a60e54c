/**
 * String operations of Python's `str` used by the backend: whitespace
 * stripping, lower-casing, prefix and substring tests, joining, and the
 * decimal rendering of an integer.
 */
module Text {

  /** Python's `str.isspace` for a single character. */
  predicate IsSpace(c: char) {
    || ('\t' <= c <= '\r')
    || ('\U{1C}' <= c <= ' ')
    || c == '\U{85}' || c == '\U{A0}' || c == '\U{1680}'
    || ('\U{2000}' <= c <= '\U{200A}')
    || c == '\U{2028}' || c == '\U{2029}'
    || c == '\U{202F}' || c == '\U{205F}' || c == '\U{3000}'
  }

  /** Neither end of `s` satisfies `sp`. */
  predicate IsTrimmed(s: string, sp: char -> bool) {
    s == [] || (!sp(s[0]) && !sp(s[|s| - 1]))
  }

  /** Drops the leading and the trailing characters that satisfy `sp`. */
  function Trim(s: string, sp: char -> bool): (r: string)
    ensures |r| <= |s|
  {
    if |s| > 0 && sp(s[0]) then Trim(s[1..], sp)
    else if |s| > 0 && sp(s[|s| - 1]) then Trim(s[..|s| - 1], sp)
    else s
  }

  /**
   * `Trim(s, sp)` has no `sp` character at either end, leaves a string
   * without one at its ends unchanged, and is empty exactly when every
   * character of `s` satisfies `sp`.
   */
  lemma {:induction false} TrimSpec(s: string, sp: char -> bool)
    ensures IsTrimmed(Trim(s, sp), sp)
    ensures IsTrimmed(s, sp) ==> Trim(s, sp) == s
    ensures Trim(s, sp) == [] <==> forall i :: 0 <= i < |s| ==> sp(s[i])
  {
    if |s| > 0 && sp(s[0]) {
      TrimSpec(s[1..], sp);
      assert forall i :: 1 <= i < |s| ==> s[i] == s[1..][i - 1];
    } else if |s| > 0 && sp(s[|s| - 1]) {
      TrimSpec(s[..|s| - 1], sp);
      assert forall i :: 0 <= i < |s| - 1 ==> s[i] == s[..|s| - 1][i];
    }
  }

  /** Python's `str.strip()`. */
  function Strip(s: string): (r: string)
    ensures |r| <= |s|
  {
    Trim(s, IsSpace)
  }

  /**
   * `Strip(s)` has no whitespace at either end, leaves a string without
   * whitespace at its ends unchanged, and is empty exactly when `s` is all
   * whitespace.
   */
  lemma StripSpec(s: string)
    ensures IsTrimmed(Strip(s), IsSpace)
    ensures IsTrimmed(s, IsSpace) ==> Strip(s) == s
    ensures Strip(s) == [] <==> forall i :: 0 <= i < |s| ==> IsSpace(s[i])
  {
    TrimSpec(s, IsSpace);
  }

  /** `Trim(s, sp)` is a contiguous slice of `s`, so it holds only characters of `s`. */
  lemma {:induction false} TrimSlice(s: string, sp: char -> bool)
    ensures exists k :: OccursAt(s, Trim(s, sp), k)
  {
    var r := Trim(s, sp);
    if |s| > 0 && sp(s[0]) {
      TrimSlice(s[1..], sp);
      var k :| OccursAt(s[1..], r, k);
      assert s[1..][k..k + |r|] == s[k + 1..k + 1 + |r|];
      assert OccursAt(s, r, k + 1);
    } else if |s| > 0 && sp(s[|s| - 1]) {
      TrimSlice(s[..|s| - 1], sp);
      var k :| OccursAt(s[..|s| - 1], r, k);
      assert s[..|s| - 1][k..k + |r|] == s[k..k + |r|];
      assert OccursAt(s, r, k);
    } else {
      assert OccursAt(s, r, 0);
    }
  }

  /** Python's `str.lower()` on one character, for the ASCII letters. */
  function LowerChar(c: char): char {
    if 'A' <= c <= 'Z' then (c as int + 32) as char else c
  }

  /** Python's `str.lower()` (ASCII case mapping). */
  function Lower(s: string): (r: string)
    ensures |r| == |s|
    ensures forall i :: 0 <= i < |s| ==> r[i] == LowerChar(s[i])
  {
    seq(|s|, i requires 0 <= i < |s| => LowerChar(s[i]))
  }

  /** Every string of the list, lowercased. */
  function LowerAll(v: seq<string>): (r: seq<string>)
    ensures |r| == |v|
    ensures forall i :: 0 <= i < |v| ==> r[i] == Lower(v[i])
  {
    seq(|v|, i requires 0 <= i < |v| => Lower(v[i]))
  }

  predicate IsLower(s: string) {
    forall i :: 0 <= i < |s| ==> !('A' <= s[i] <= 'Z')
  }

  lemma LowerIsLower(s: string)
    ensures IsLower(Lower(s))
    ensures Lower(Lower(s)) == Lower(s)
  {
  }

  /** Python's `s.startswith(p)`. */
  predicate StartsWith(s: string, p: string) {
    |p| <= |s| && s[..|p|] == p
  }

  /** `sub` occurs in `s` starting at index `i`. */
  predicate OccursAt(s: string, sub: string, i: int) {
    0 <= i <= |s| - |sub| && s[i..i + |sub|] == sub
  }

  /** Python's `sub in s` for strings. */
  predicate Contains(s: string, sub: string) {
    exists i | 0 <= i <= |s| - |sub| :: OccursAt(s, sub, i)
  }

  lemma StartsWithContains(s: string, p: string)
    requires StartsWith(s, p)
    ensures Contains(s, p)
  {
    assert OccursAt(s, p, 0);
  }

  /** Python's `sep.join(parts)`. */
  function Join(parts: seq<string>, sep: string): (r: string)
    ensures parts == [] ==> r == ""
    ensures |parts| == 1 ==> r == parts[0]
  {
    if |parts| == 0 then ""
    else if |parts| == 1 then parts[0]
    else parts[0] + sep + Join(parts[1..], sep)
  }

  /** The decimal digits of a natural number, as Python's `str` writes it. */
  function NatToString(n: nat): (r: string)
    ensures |r| > 0
    decreases n
  {
    var d := ['0' + (n % 10) as char];
    if n < 10 then d else NatToString(n / 10) + d
  }

  /** Python's `str(n)` for an integer. */
  function IntToString(n: int): (r: string)
    ensures |r| > 0
  {
    if n < 0 then "-" + NatToString(-n) else NatToString(n)
  }
}
