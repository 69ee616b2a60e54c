/**
 * `get_by_titles`: resolve free-text titles to catalog ids, by exact match
 * on a normalised title first and by fuzzy score otherwise.
 */
module TitleResolver {
  import opened Wrappers
  import opened Seqs
  import opened Text
  import opened Catalog

  /** A fuzzy similarity score between 0 and 100. */
  type Percent = x: int | 0 <= x <= 100

  const DefaultThreshold := 80

  /**
   * An input entry: `None` stands for a value that is not a string (or is
   * null); such entries and empty strings are skipped.
   */
  predicate IsQuery(t: Option<string>) {
    t.Some? && t.value != ""
  }

  /** The normalised form of an input title. */
  function Query(t: Option<string>): string
    requires IsQuery(t)
  {
    Lower(Strip(t.value))
  }

  /** The raw candidates of a row: its title when set, then its alternate titles. */
  function Candidates(a: Anime): seq<string> {
    (if OrEmpty(a.title) != "" then [a.title.value] else []) + a.allTitles
  }

  /** Non-empty candidates, stripped and lowercased, in order. */
  function NormalizedKeys(ts: seq<string>): seq<string> {
    if |ts| == 0 then []
    else
      var t := ts[|ts| - 1];
      NormalizedKeys(ts[..|ts| - 1]) + (if t != "" then [Lower(Strip(t))] else [])
  }

  /** The keys are the stripped, lowercased forms of the non-empty candidates. */
  lemma {:induction false} NormalizedKeysSpec(ts: seq<string>)
    ensures forall k :: k in NormalizedKeys(ts) <==> exists t :: t in ts && t != "" && k == Lower(Strip(t))
  {
    if |ts| > 0 {
      var init := ts[..|ts| - 1];
      NormalizedKeysSpec(init);
      assert forall x :: x in ts <==> x in init || x == ts[|ts| - 1];
    }
  }

  /** `all_titles_lower` for one row. */
  function TitleKeys(a: Anime): seq<string> {
    NormalizedKeys(Candidates(a))
  }

  /** Some key scores at least `threshold` against the query. */
  predicate FuzzyHit(q: string, keys: seq<string>, threshold: int, ratio: (string, string) -> Percent) {
    exists k | 0 <= k < |keys| :: ratio(q, keys[k]) >= threshold
  }

  /** A row matches a query exactly or fuzzily. */
  predicate Matches(q: string, a: Anime, threshold: int, ratio: (string, string) -> Percent) {
    q in TitleKeys(a) || FuzzyHit(q, TitleKeys(a), threshold, ratio)
  }

  /** The ids appended for one query, one per matching row, in catalog order. */
  function RowHits(q: string, data: seq<Anime>, threshold: int, ratio: (string, string) -> Percent): seq<int> {
    if |data| == 0 then []
    else
      var a := data[|data| - 1];
      RowHits(q, data[..|data| - 1], threshold, ratio) + (if Matches(q, a, threshold, ratio) then [a.id] else [])
  }

  /** The list `matched_ids` after the outer loop. */
  function MatchedIds(titles: seq<Option<string>>, data: seq<Anime>, threshold: int,
                      ratio: (string, string) -> Percent): seq<int>
  {
    if |titles| == 0 then []
    else
      var t := titles[|titles| - 1];
      MatchedIds(titles[..|titles| - 1], data, threshold, ratio)
      + (if IsQuery(t) then RowHits(Query(t), data, threshold, ratio) else [])
  }

  lemma {:induction false} RowHitsSpec(q: string, data: seq<Anime>, threshold: int, ratio: (string, string) -> Percent)
    ensures forall id :: id in RowHits(q, data, threshold, ratio) <==>
              exists a :: a in data && a.id == id && Matches(q, a, threshold, ratio)
  {
    if |data| > 0 {
      var init := data[..|data| - 1];
      RowHitsSpec(q, init, threshold, ratio);
      assert forall a :: a in data <==> a in init || a == data[|data| - 1];
    }
  }

  /**
   * An id is resolved iff some usable input, stripped and lowercased,
   * matches a row carrying that id exactly or with a fuzzy score of at
   * least `threshold`.
   */
  lemma {:induction false} MatchedIdsSpec(titles: seq<Option<string>>, data: seq<Anime>, threshold: int,
                                          ratio: (string, string) -> Percent)
    ensures forall id :: id in MatchedIds(titles, data, threshold, ratio) <==>
              exists t, a :: t in titles && IsQuery(t) && a in data && a.id == id &&
                             Matches(Query(t), a, threshold, ratio)
  {
    if |titles| > 0 {
      var init := titles[..|titles| - 1];
      var t := titles[|titles| - 1];
      MatchedIdsSpec(init, data, threshold, ratio);
      if IsQuery(t) {
        RowHitsSpec(Query(t), data, threshold, ratio);
      }
      assert forall x :: x in titles <==> x in init || x == t;
    }
  }

  /** Empty and non-string entries contribute no ids. */
  lemma SkippedEntry(titles: seq<Option<string>>, t: Option<string>, data: seq<Anime>, threshold: int,
                     ratio: (string, string) -> Percent)
    requires !IsQuery(t)
    ensures MatchedIds(titles + [t], data, threshold, ratio) == MatchedIds(titles, data, threshold, ratio)
  {
    assert (titles + [t])[..|titles|] == titles;
  }

  /**
   * A row one of whose normalised titles equals a normalised input is
   * resolved, whatever the fuzzy scores are.
   */
  lemma ExactMatchWins(titles: seq<Option<string>>, data: seq<Anime>, threshold: int,
                       ratio: (string, string) -> Percent, t: Option<string>, a: Anime)
    requires t in titles && IsQuery(t) && a in data
    requires Query(t) in TitleKeys(a)
    ensures a.id in MatchedIds(titles, data, threshold, ratio)
  {
    MatchedIdsSpec(titles, data, threshold, ratio);
  }

  /** The inner loop of `get_by_titles`: scan the keys, stopping at the first good fuzzy score. */
  method FirstFuzzyHit(q: string, keys: seq<string>, threshold: int, ratio: (string, string) -> Percent)
    returns (hit: bool)
    ensures hit <==> exists k :: 0 <= k < |keys| && ratio(q, keys[k]) >= threshold
  {
    for k := 0 to |keys|
      invariant forall m :: 0 <= m < k ==> ratio(q, keys[m]) < threshold
    {
      if ratio(q, keys[k]) >= threshold {
        return true;
      }
    }
    return false;
  }

  /** The body of the outer loop of `get_by_titles`: append the id of every row matching `tNorm`. */
  method AppendRowHits(matchedIds: seq<int>, tNorm: string, data: seq<Anime>, threshold: int,
                       ratio: (string, string) -> Percent)
    returns (r: seq<int>)
    ensures r == matchedIds + RowHits(tNorm, data, threshold, ratio)
  {
    r := matchedIds;
    for j := 0 to |data|
      invariant r == matchedIds + RowHits(tNorm, data[..j], threshold, ratio)
    {
      var anime := data[j];
      assert data[..j + 1][..j] == data[..j];
      assert RowHits(tNorm, data[..j + 1], threshold, ratio) ==
             RowHits(tNorm, data[..j], threshold, ratio)
             + (if Matches(tNorm, anime, threshold, ratio) then [anime.id] else []);
      var allTitlesLower := TitleKeys(anime);

      // exact match
      if tNorm in allTitlesLower {
        r := r + [anime.id];
        continue;
      }

      // fuzzy match
      var fuzzy := FirstFuzzyHit(tNorm, allTitlesLower, threshold, ratio);
      assert fuzzy == Matches(tNorm, anime, threshold, ratio);
      if fuzzy {
        r := r + [anime.id];
      }
    }
    assert data[..|data|] == data;
  }

  /** `get_by_titles`: the resolved ids, each once, in no particular order. */
  method GetByTitles(titles: seq<Option<string>>, data: seq<Anime>, threshold: int,
                     ratio: (string, string) -> Percent)
    returns (ids: seq<int>)
    ensures titles == [] ==> ids == []
    ensures NoDup(ids)
    ensures forall id :: id in ids <==> id in MatchedIds(titles, data, threshold, ratio)
  {
    if |titles| == 0 {
      return [];
    }

    var matchedIds: seq<int> := [];
    for i := 0 to |titles|
      invariant matchedIds == MatchedIds(titles[..i], data, threshold, ratio)
    {
      var titleToMatch := titles[i];
      assert titles[..i + 1][..i] == titles[..i];
      if !IsQuery(titleToMatch) {
        continue;
      }
      var tNorm := Query(titleToMatch);
      matchedIds := AppendRowHits(matchedIds, tNorm, data, threshold, ratio);
    }
    assert titles[..|titles|] == titles;

    ids := SetToSeq(set id | id in matchedIds);
  }
}
