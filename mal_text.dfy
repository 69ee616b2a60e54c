/**
 * The text helpers of the MyAnimeList fetcher: `clean_text`, the NSFW
 * classifier `is_nsfw`, and `clean_title`, whose six regular-expression
 * substitutions are modelled as explicit left-to-right scans.
 */
module MalText {
  import opened Wrappers
  import opened Text

  // ---------- clean_text ----------

  /** Replace U+2028 and U+2029 by spaces. */
  function ReplaceSeparators(s: string): (r: string)
    ensures |r| == |s|
    ensures forall i :: 0 <= i < |r| ==> r[i] != '\U{2028}' && r[i] != '\U{2029}'
  {
    seq(|s|, i requires 0 <= i < |s| => if s[i] == '\U{2028}' || s[i] == '\U{2029}' then ' ' else s[i])
  }

  /** `clean_text`: falsy input gives `""`; otherwise separators become spaces and the ends are stripped. */
  function CleanText(text: Option<string>): string {
    if text.None? || text.value == "" then "" else Strip(ReplaceSeparators(text.value))
  }

  /** A falsy input is `""`; no result holds a line or paragraph separator or has whitespace at either end. */
  lemma CleanTextSpec(text: Option<string>)
    ensures text.None? || text.value == "" ==> CleanText(text) == ""
    ensures forall i :: 0 <= i < |CleanText(text)| ==>
              CleanText(text)[i] != '\U{2028}' && CleanText(text)[i] != '\U{2029}'
    ensures IsTrimmed(CleanText(text), IsSpace)
  {
    if text.Some? && text.value != "" {
      var s := ReplaceSeparators(text.value);
      StripSpec(s);
      TrimSlice(s, IsSpace);
      var k :| OccursAt(s, Strip(s), k);
      forall i | 0 <= i < |Strip(s)|
        ensures Strip(s)[i] != '\U{2028}' && Strip(s)[i] != '\U{2029}'
      {
        assert Strip(s)[i] == s[k + i];
      }
    }
  }

  // ---------- is_nsfw ----------

  /** The words the synopsis regex looks for, in its order. */
  const NsfwWords: seq<string> := ["fuck", "sex", "intercourse", "rape", "orgasm", "ejaculate", "seduce", "nudity"]

  /** `\w` for the ASCII range: letters, digits and underscore. */
  predicate IsWordChar(c: char) {
    ('a' <= c <= 'z') || ('A' <= c <= 'Z') || ('0' <= c <= '9') || c == '_'
  }

  /** `w` occurs at `i` with a word boundary `\b` on both sides. */
  predicate WholeWordAt(s: string, w: string, i: int) {
    && OccursAt(s, w, i)
    && (i == 0 || !IsWordChar(s[i - 1]))
    && (i + |w| == |s| || !IsWordChar(s[i + |w|]))
  }

  /** `re.search(r"\b(fuck|sex|...)\b", synopsis)` on the lowercased synopsis. */
  predicate SynopsisFlag(synopsis: Option<string>) {
    var s := Lower(if synopsis.Some? then synopsis.value else "");
    exists k, i | 0 <= k < |NsfwWords| && 0 <= i <= |s| :: WholeWordAt(s, NsfwWords[k], i)
  }

  /** The lowercased rating mentions `r+` or `rx`. */
  predicate RatingFlag(rating: Option<string>) {
    var r := Lower(if rating.Some? then rating.value else "");
    Contains(r, "r+") || Contains(r, "rx")
  }

  /** Some genre is hentai or ecchi, ignoring case. */
  predicate GenreFlag(genres: seq<string>) {
    exists k | 0 <= k < |genres| :: Lower(genres[k]) == "hentai" || Lower(genres[k]) == "ecchi"
  }

  /** Some theme is sexual content or adult cast, ignoring case. */
  predicate ThemeFlag(themes: seq<string>) {
    exists k | 0 <= k < |themes| :: Lower(themes[k]) == "sexual content" || Lower(themes[k]) == "adult cast"
  }

  /** `is_nsfw`: the rating test, then the genre and theme tests, then the synopsis regex. */
  function IsNsfw(rating: Option<string>, genres: seq<string>, themes: seq<string>, synopsis: Option<string>)
    : (r: bool)
    ensures RatingFlag(rating) || GenreFlag(genres) || ThemeFlag(themes) ==> r
    ensures !(RatingFlag(rating) || GenreFlag(genres) || ThemeFlag(themes)) ==> (r <==> SynopsisFlag(synopsis))
  {
    if RatingFlag(rating) then true
    else if GenreFlag(genres) || ThemeFlag(themes) then true
    else SynopsisFlag(synopsis)
  }

  /** A listed word counts only as a whole word: "Sex." is flagged, "Sussex" is not. */
  lemma WordBoundaries()
    ensures SynopsisFlag(Some("Sex."))
    ensures !SynopsisFlag(Some("Sussex"))
  {
    var s := Lower("Sex.");
    assert s == "sex.";
    assert WholeWordAt(s, NsfwWords[1], 0);
    var t := Lower("Sussex");
    assert t == "sussex";
    forall k, i | 0 <= k < |NsfwWords| && 0 <= i <= |t|
      ensures !WholeWordAt(t, NsfwWords[k], i)
    {
      var w := NsfwWords[k];
      if OccursAt(t, w, i) {
        assert t[i..i + |w|][0] == w[0] && t[i..i + |w|][1] == w[1];
        assert k == 1 && i == 3;
        assert IsWordChar(t[2]);
      }
    }
  }

  // ---------- clean_title ----------

  /**
   * The six patterns: `\s*Season\s*\d+`, `\s*Part\s*\d+` and `\s*\(X\)` for
   * Movie, TV, OVA and ONA, all matched ignoring case. The word or the
   * parenthesised tag is kept in lowercase.
   */
  datatype Pattern = Numbered(word: string) | Tagged(tag: string)

  const TitlePatterns: seq<Pattern> :=
    [Numbered("season"), Numbered("part"), Tagged("(movie)"), Tagged("(tv)"), Tagged("(ova)"), Tagged("(ona)")]

  /** The length of the run of `\s` characters starting at `i`. */
  function SpaceRun(s: string, i: nat): (n: nat)
    requires i <= |s|
    ensures i + n <= |s|
    decreases |s| - i
  {
    if i < |s| && IsSpace(s[i]) then 1 + SpaceRun(s, i + 1) else 0
  }

  /** The length of the run of digits starting at `i`. */
  function DigitRun(s: string, i: nat): (n: nat)
    requires i <= |s|
    ensures i + n <= |s|
    decreases |s| - i
  {
    if i < |s| && '0' <= s[i] <= '9' then 1 + DigitRun(s, i + 1) else 0
  }

  /** `s` has `w` at `i`, ignoring ASCII case (`w` is lowercase). */
  predicate WordAt(s: string, i: nat, w: string) {
    i + |w| <= |s| && Lower(s[i..i + |w|]) == w
  }

  /**
   * The length of the match of `p` starting at `i`, 0 when there is none.
   * Greedy `\s*` and `\d+` need no backtracking here: giving back a space
   * leaves a space where a letter, a parenthesis or a digit is required.
   */
  function MatchAt(s: string, i: nat, p: Pattern): (n: nat)
    requires i <= |s|
    ensures i + n <= |s|
  {
    var a := i + SpaceRun(s, i);
    match p
    case Numbered(w) =>
      if WordAt(s, a, w) then
        var b := a + |w|;
        var c := b + SpaceRun(s, b);
        var d := DigitRun(s, c);
        if d > 0 then c + d - i else 0
      else 0
    case Tagged(t) =>
      if WordAt(s, a, t) && |t| > 0 then a + |t| - i else 0
  }

  /** `re.sub(p, '', s[i:])`: scan left to right, deleting each match and resuming after it. */
  function SubFrom(s: string, i: nat, p: Pattern): (r: string)
    requires i <= |s|
    ensures |r| <= |s| - i
    decreases |s| - i
  {
    if i == |s| then ""
    else
      var n := MatchAt(s, i, p);
      if n > 0 then SubFrom(s, i + n, p) else [s[i]] + SubFrom(s, i + 1, p)
  }

  function Sub(s: string, p: Pattern): string {
    SubFrom(s, 0, p)
  }

  /** No match of `p` starts anywhere in `s`. */
  predicate NoMatch(s: string, p: Pattern) {
    forall i :: 0 <= i < |s| ==> MatchAt(s, i, p) == 0
  }

  /** Without a match the substitution leaves the text as it is. */
  lemma {:induction false} SubFromNoMatch(s: string, i: nat, p: Pattern)
    requires i <= |s| && NoMatch(s, p)
    ensures SubFrom(s, i, p) == s[i..]
    decreases |s| - i
  {
    if i < |s| {
      SubFromNoMatch(s, i + 1, p);
      assert s[i..] == [s[i]] + s[i + 1..];
    }
  }

  /** Apply the patterns in order. */
  function SubAll(s: string, ps: seq<Pattern>): (r: string)
    ensures |r| <= |s|
    decreases |ps|
  {
    if |ps| == 0 then s else SubAll(Sub(s, ps[0]), ps[1..])
  }

  /** `clean_title`. */
  function CleanTitle(title: string): string {
    Strip(SubAll(title, TitlePatterns))
  }

  /**
   * The cleaned title is stripped and no longer than the title; a title in
   * which none of the six patterns matches is only stripped.
   */
  lemma {:induction false} CleanTitleSpec(title: string)
    ensures IsTrimmed(CleanTitle(title), IsSpace) && |CleanTitle(title)| <= |title|
    ensures (forall p :: p in TitlePatterns ==> NoMatch(title, p)) ==> CleanTitle(title) == Strip(title)
  {
    StripSpec(SubAll(title, TitlePatterns));
    if forall p :: p in TitlePatterns ==> NoMatch(title, p) {
      SubAllNoMatch(title, TitlePatterns);
    }
  }

  lemma {:induction false} SubAllNoMatch(s: string, ps: seq<Pattern>)
    requires forall p :: p in ps ==> NoMatch(s, p)
    ensures SubAll(s, ps) == s
  {
    if |ps| > 0 {
      SubFromNoMatch(s, 0, ps[0]);
      assert Sub(s, ps[0]) == s;
      assert forall p :: p in ps[1..] ==> p in ps;
      SubAllNoMatch(s, ps[1..]);
    }
  }

  /** A season suffix is removed together with the spaces before it. */
  lemma SeasonSuffix()
    ensures Sub("K Season 2", Numbered("season")) == "K"
  {
    var s := "K Season 2";
    assert MatchAt(s, 0, Numbered("season")) == 0 by {
      assert SpaceRun(s, 0) == 0;
      assert !WordAt(s, 0, "season");
    }
    assert SpaceRun(s, 1) == 1 by { assert SpaceRun(s, 2) == 0; }
    assert WordAt(s, 2, "season") by { assert Lower(s[2..8]) == "season"; }
    assert SpaceRun(s, 8) == 1 by { assert SpaceRun(s, 9) == 0; }
    assert DigitRun(s, 9) == 1 by { assert DigitRun(s, 10) == 0; }
    assert MatchAt(s, 1, Numbered("season")) == 9;
    assert SubFrom(s, 10, Numbered("season")) == "";
  }
}
