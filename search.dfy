/**
 * `/search`: catalog rows whose lowercased title or alternate title starts
 * with the query come first, then rows where the query only occurs inside
 * a title; NSFW rows are skipped unless allowed, and the list is cut to
 * `limit`.
 */
module Search {
  import opened Wrappers
  import opened Seqs
  import opened Text
  import opened Catalog

  /** One entry of the response. */
  datatype SearchHit = SearchHit(
    id: int,
    title: Option<string>,
    allTitles: seq<string>,
    mainPicture: Option<Picture>,
    tags: seq<string>,
    synopsis: Option<string>,
    totalEpisodes: int,
    isNsfw: bool)

  /** `[t.lower() for t in [title] + all_titles if t]`. */
  function SearchKeys(a: Anime): seq<string> {
    var titles := [OrEmpty(a.title)] + a.allTitles;
    var present := Filter(titles, (t: string) => t != "");
    seq(|present|, i requires 0 <= i < |present| => Lower(present[i]))
  }

  /** `any(t.startswith(q) for t in keys)`. */
  predicate AnyStartsWith(keys: seq<string>, q: string) {
    exists k | 0 <= k < |keys| :: StartsWith(keys[k], q)
  }

  /** `any(q in t for t in keys)`. */
  predicate AnyContains(keys: seq<string>, q: string) {
    exists k | 0 <= k < |keys| :: Contains(keys[k], q)
  }

  predicate Visible(a: Anime, nsfwOk: bool) {
    nsfwOk || !a.isNsfw
  }

  /** Rows that go into `prefix_matches`. */
  function PrefixGroup(q: string, nsfwOk: bool): Anime -> bool {
    a => Visible(a, nsfwOk) && AnyStartsWith(SearchKeys(a), q)
  }

  /** Rows that go into `substring_matches`. */
  function SubstringGroup(q: string, nsfwOk: bool): Anime -> bool {
    a => Visible(a, nsfwOk) && !AnyStartsWith(SearchKeys(a), q) && AnyContains(SearchKeys(a), q)
  }

  function Format(a: Anime): SearchHit {
    SearchHit(a.id, a.title, a.allTitles, a.mainPicture, a.tags, a.synopsis, a.totalEpisodes, a.isNsfw)
  }

  function FormatAll(rows: seq<Anime>): (r: seq<SearchHit>)
    ensures |r| == |rows|
    ensures forall i :: 0 <= i < |rows| ==> r[i] == Format(rows[i])
  {
    seq(|rows|, i requires 0 <= i < |rows| => Format(rows[i]))
  }

  /** The stripped, lowercased query. */
  function QueryKey(q: string): string {
    Lower(Strip(q))
  }

  /** Prefix matches, then substring-only matches, in catalog order. */
  function Matches(q: string, data: seq<Anime>, nsfwOk: bool): seq<Anime> {
    Filter(data, PrefixGroup(q, nsfwOk)) + Filter(data, SubstringGroup(q, nsfwOk))
  }

  /** The response of `search(q, limit, nsfw_ok)`. */
  function SearchResults(q: string, data: seq<Anime>, nsfwOk: bool, limit: int): seq<SearchHit> {
    if QueryKey(q) == "" then []
    else Take(FormatAll(Matches(QueryKey(q), data, nsfwOk)), limit)
  }

  /** A blank or all-whitespace query finds nothing. */
  lemma BlankQuery(q: string, data: seq<Anime>, nsfwOk: bool, limit: int)
    requires forall i :: 0 <= i < |q| ==> IsSpace(q[i])
    ensures SearchResults(q, data, nsfwOk, limit) == []
  {
    StripSpec(q);
  }

  /** With `limit >= 0` at most `limit` hits are returned. */
  lemma AtMostLimit(q: string, data: seq<Anime>, nsfwOk: bool, limit: int)
    requires limit >= 0
    ensures |SearchResults(q, data, nsfwOk, limit)| <= limit
  {
  }

  /**
   * The matched rows are exactly the visible rows with a lowercased title
   * containing the query; every prefix match precedes every substring-only match; and no
   * row is listed more often than it occurs in the catalog.
   */
  lemma MatchesSpec(q: string, data: seq<Anime>, nsfwOk: bool)
    ensures forall a :: a in Matches(q, data, nsfwOk) ==>
              a in data && Visible(a, nsfwOk) &&
              exists k :: k in SearchKeys(a) && Contains(k, q)
    ensures forall a :: a in data && Visible(a, nsfwOk) && (exists k :: k in SearchKeys(a) && Contains(k, q)) ==>
              a in Matches(q, data, nsfwOk)
    ensures var m := Matches(q, data, nsfwOk);
            forall i, j :: 0 <= i < j < |m| && AnyStartsWith(SearchKeys(m[j]), q) ==>
              AnyStartsWith(SearchKeys(m[i]), q)
    ensures multiset(Matches(q, data, nsfwOk)) <= multiset(data)
  {
    var p := Filter(data, PrefixGroup(q, nsfwOk));
    var s := Filter(data, SubstringGroup(q, nsfwOk));
    forall a | a in p + s
      ensures a in data && Visible(a, nsfwOk) && exists k :: k in SearchKeys(a) && Contains(k, q)
    {
      var keys := SearchKeys(a);
      if a in p {
        var k :| 0 <= k < |keys| && StartsWith(keys[k], q);
        StartsWithContains(keys[k], q);
        assert keys[k] in keys;
      } else {
        var k :| 0 <= k < |keys| && Contains(keys[k], q);
        assert keys[k] in keys;
      }
    }
    forall a | a in data && Visible(a, nsfwOk) && (exists k :: k in SearchKeys(a) && Contains(k, q))
      ensures a in p + s
    {
      var keys := SearchKeys(a);
      var key :| key in keys && Contains(key, q);
      var i :| 0 <= i < |keys| && keys[i] == key;
      assert AnyContains(keys, q);
      if AnyStartsWith(keys, q) {
        assert PrefixGroup(q, nsfwOk)(a);
      } else {
        assert SubstringGroup(q, nsfwOk)(a);
      }
    }
    assert forall k :: |p| <= k < |p + s| ==> (p + s)[k] in s;
    forall i, j | 0 <= i < j < |p + s| && AnyStartsWith(SearchKeys((p + s)[j]), q)
      ensures AnyStartsWith(SearchKeys((p + s)[i]), q)
    {
      assert j < |p|;
      assert (p + s)[i] in p;
    }
    FilterDisjoint(data, PrefixGroup(q, nsfwOk), SubstringGroup(q, nsfwOk));
  }

  /** Each hit is a catalog row, formatted, and the rows are those of `Matches`, in order. */
  lemma ResultsSpec(q: string, data: seq<Anime>, nsfwOk: bool, limit: int)
    requires QueryKey(q) != ""
    ensures var r := SearchResults(q, data, nsfwOk, limit);
            var m := Matches(QueryKey(q), data, nsfwOk);
            |r| <= |m| && forall i :: 0 <= i < |r| ==> r[i] == Format(m[i])
  {
  }

  /** `search`: one pass over the catalog filling the two groups, then formatting and the cut. */
  method SearchCatalog(q: string, limit: int, nsfwOk: bool, data: seq<Anime>) returns (results: seq<SearchHit>)
    ensures results == SearchResults(q, data, nsfwOk, limit)
  {
    var qLower := Lower(Strip(q));
    if qLower == "" {
      return [];
    }

    var prefixMatches: seq<Anime> := [];
    var substringMatches: seq<Anime> := [];
    for i := 0 to |data|
      invariant prefixMatches == Filter(data[..i], PrefixGroup(qLower, nsfwOk))
      invariant substringMatches == Filter(data[..i], SubstringGroup(qLower, nsfwOk))
    {
      var anime := data[i];
      assert data[..i + 1] == data[..i] + [anime];
      FilterSnoc(data[..i], anime, PrefixGroup(qLower, nsfwOk));
      FilterSnoc(data[..i], anime, SubstringGroup(qLower, nsfwOk));
      if !nsfwOk && anime.isNsfw {
        continue;
      }
      var titlesLower := SearchKeys(anime);
      if AnyStartsWith(titlesLower, qLower) {
        prefixMatches := prefixMatches + [anime];
      } else if AnyContains(titlesLower, qLower) {
        substringMatches := substringMatches + [anime];
      }
    }
    assert data[..|data|] == data;

    var formattedResults := FormatAll(prefixMatches + substringMatches);
    results := Take(formattedResults, limit);
  }
}
