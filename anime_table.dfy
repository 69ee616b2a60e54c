/**
 * The row both ingestion scripts upsert into the `anime` table, and the
 * defaulting they share.
 */
module AnimeTable {
  import opened Wrappers
  import opened Seqs
  import opened Catalog

  /** The parameters of one upsert. */
  datatype UpsertRow = UpsertRow(
    id: int,
    title: Option<string>,
    allTitles: seq<string>,
    mainPicture: Option<Picture>,
    tags: seq<string>,
    synopsis: Option<string>,
    rating: Option<string>,
    isNsfw: bool,
    totalEpisodes: int,
    childrenIds: seq<int>,
    lastUpdated: Option<int>,
    embedding: Option<seq<real>>)

  /** The truthy entries of a list, in order. */
  function TruthyOf(xs: seq<Option<string>>): (r: seq<string>)
    ensures forall t :: t in r <==> t != "" && Some(t) in xs
  {
    if |xs| == 0 then []
    else
      var x := xs[|xs| - 1];
      assert forall y :: y in xs <==> y in xs[..|xs| - 1] || y == x;
      TruthyOf(xs[..|xs| - 1]) + (if x.Some? && x.value != "" then [x.value] else [])
  }

  /** Entries of `xs or []` that are truthy: present and non-empty, in order. */
  function Truthy(xs: Option<seq<Option<string>>>): (r: seq<string>)
    ensures forall t :: t in r <==> t != "" && xs.Some? && Some(t) in xs.value
  {
    if xs.None? then [] else TruthyOf(xs.value)
  }

  /**
   * `list({t for t in ... if t})`: the truthy entries, each once. Python
   * leaves the order of a set unspecified; this model keeps first occurrences.
   */
  function DistinctTruthy(xs: Option<seq<Option<string>>>): (r: seq<string>)
    ensures NoDup(r)
    ensures forall t :: t in r <==> t != "" && xs.Some? && Some(t) in xs.value
  {
    Dedup(Truthy(xs))
  }

  /** `x or None` for an embedding: an absent or empty vector is stored as null. */
  function EmbeddingOrNull(e: Option<seq<real>>): (r: Option<seq<real>>)
    ensures r.None? <==> e.None? || e.value == []
    ensures r.Some? ==> r == e
  {
    if e.Some? && e.value != [] then e else None
  }

  /** `int(x or 0)`. */
  function CountOrZero(n: Option<int>): int {
    if n.Some? then n.value else 0
  }
}
