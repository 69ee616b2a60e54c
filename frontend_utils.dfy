/**
 * `matchesQuery` and `truncate` from the frontend's string helpers, with
 * JavaScript's own notion of whitespace for `String.prototype.trim`.
 */
module FrontendUtils {
  import opened Seqs
  import opened Text

  /** The characters `String.prototype.trim` removes: WhiteSpace and LineTerminator. */
  predicate JsIsSpace(c: char) {
    || ('\t' <= c <= '\r')
    || c == ' ' || c == '\U{A0}' || c == '\U{1680}'
    || ('\U{2000}' <= c <= '\U{200A}')
    || c == '\U{2028}' || c == '\U{2029}'
    || c == '\U{202F}' || c == '\U{205F}' || c == '\U{3000}' || c == '\U{FEFF}'
  }

  /** `s.trim()`. */
  function JsTrim(s: string): string {
    Trim(s, JsIsSpace)
  }

  /** `matchesQuery(title, q)`. */
  predicate MatchesQuery(title: string, q: string) {
    JsTrim(q) == "" || Contains(Lower(title), Lower(JsTrim(q)))
  }

  /**
   * A query of JavaScript whitespace only matches every title; any other
   * query matches exactly the titles that contain it, trimmed, ignoring case.
   */
  lemma MatchesQuerySpec(title: string, q: string)
    ensures (forall i :: 0 <= i < |q| ==> JsIsSpace(q[i])) ==> MatchesQuery(title, q)
    ensures (exists i :: 0 <= i < |q| && !JsIsSpace(q[i])) ==>
              (MatchesQuery(title, q) <==> Contains(Lower(title), Lower(JsTrim(q))))
  {
    TrimSpec(q, JsIsSpace);
  }

  /** A title that starts with the trimmed query, ignoring case, matches it. */
  lemma PrefixMatches(title: string, q: string)
    requires StartsWith(Lower(title), Lower(JsTrim(q)))
    ensures MatchesQuery(title, q)
  {
    StartsWithContains(Lower(title), Lower(JsTrim(q)));
  }

  /** The two trims differ: U+FEFF is JavaScript whitespace but not Python whitespace, U+85 the reverse. */
  lemma TrimsDiffer()
    ensures JsTrim("\U{FEFF}") == "" && Strip("\U{FEFF}") == "\U{FEFF}"
    ensures JsTrim("\U{85}") == "\U{85}" && Strip("\U{85}") == ""
  {
    assert !IsSpace('\U{FEFF}') && JsIsSpace('\U{FEFF}');
    assert IsSpace('\U{85}') && !JsIsSpace('\U{85}');
  }

  /** `truncate(s, n)`: empty stays empty; longer than `n` is cut to `s.slice(0, n)` plus an ellipsis. */
  function Truncate(s: string, n: int): (r: string)
    ensures s == "" ==> r == ""
    ensures s != "" && |s| <= n ==> r == s
    ensures s != "" && 0 <= n < |s| ==> r == s[..n] + "…" && |r| == n + 1
    ensures n >= 0 ==> |r| <= n + 1
  {
    if s == "" then ""
    else if |s| > n then s[..SliceEnd(|s|, n)] + "…"
    else s
  }

  /** The result is the string itself or a proper prefix of it followed by an ellipsis. */
  lemma TruncateShape(s: string, n: int)
    ensures Truncate(s, n) == s ||
            exists k :: 0 <= k < |s| && Truncate(s, n) == s[..k] + "…"
  {
    if s != "" && |s| > n {
      var k := SliceEnd(|s|, n);
      assert Truncate(s, n) == s[..k] + "…";
    }
  }
}
