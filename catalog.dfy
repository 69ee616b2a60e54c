/**
 * The catalog snapshot that `load_anime_data` materialises from the store,
 * the defaulting it applies to list-valued columns, and the in-place
 * title fallback `_normalize_titles_inplace`.
 */
module Catalog {
  import opened Wrappers
  import opened Text

  datatype Picture = Picture(medium: string, large: string)

  /**
   * One catalog row. A missing or null string in a list column is written
   * as the empty string (both are falsy); an absent or empty embedding is
   * the empty sequence; `lastUpdated` is a timestamp on an ordered scale.
   */
  datatype Anime = Anime(
    id: int,
    title: Option<string>,
    allTitles: seq<string>,
    mainPicture: Option<Picture>,
    tags: seq<string>,
    synopsis: Option<string>,
    rating: Option<string>,
    isNsfw: bool,
    totalEpisodes: int,
    childrenIds: seq<int>,
    lastUpdated: Option<int>,
    embedding: seq<real>)

  /** `value or ""` for an optional string. */
  function OrEmpty(t: Option<string>): string {
    if t.Some? then t.value else ""
  }

  /** The tag list of every row, in catalog order. */
  function TagLists(data: seq<Anime>): (r: seq<seq<string>>)
    ensures |r| == |data| && forall i :: 0 <= i < |data| ==> r[i] == data[i].tags
  {
    seq(|data|, i requires 0 <= i < |data| => data[i].tags)
  }

  /** A list-valued column as the driver hands it over. */
  datatype RawList<T> = NullList | JsonText(text: string) | ListValue(items: seq<T>)

  predicate IsFalsy<T>(v: RawList<T>) {
    v.NullList? || (v.JsonText? && v.text == "") || (v.ListValue? && v.items == [])
  }

  /**
   * `ensure_list`: a falsy value becomes `[]`, text is decoded as JSON (and
   * kept as a one-element list when it does not decode), a list is kept.
   * `lift` is how the undecodable text itself is stored as an element.
   */
  function EnsureList<T>(v: RawList<T>, decode: string -> Option<seq<T>>, lift: string -> T): (r: seq<T>)
    ensures IsFalsy(v) ==> r == []
    ensures v.ListValue? ==> r == v.items
    ensures v.JsonText? && v.text != "" && decode(v.text).Some? ==> r == decode(v.text).value
    ensures v.JsonText? && v.text != "" && decode(v.text).None? ==> r == [lift(v.text)]
  {
    match v
    case NullList => []
    case JsonText(text) =>
      if text == "" then []
      else if decode(text).Some? then decode(text).value
      else [lift(text)]
    case ListValue(items) => items
  }

  /** The first alternate title that is not blank, stripped. */
  function FirstNonBlank(titles: seq<string>): (r: Option<string>)
    ensures r.Some? ==> r.value != [] && IsTrimmed(r.value, IsSpace)
    ensures r.None? <==> forall i :: 0 <= i < |titles| ==> Strip(titles[i]) == ""
  {
    if |titles| == 0 then None
    else if Strip(titles[0]) != "" then
      StripSpec(titles[0]);
      Some(Strip(titles[0]))
    else
      var r := FirstNonBlank(titles[1..]);
      assert forall i :: 1 <= i < |titles| ==> titles[i] == titles[1..][i - 1];
      r
  }

  /** The title written for a row without any usable title. */
  function PlaceholderTitle(id: int): string {
    "Untitled #" + IntToString(id)
  }

  /** What `_normalize_titles_inplace` does to one row. */
  function WithTitleFallback(a: Anime): Anime
  {
    if Strip(OrEmpty(a.title)) != "" then a
    else
      match FirstNonBlank(a.allTitles)
      case Some(t) => a.(title := Some(t))
      case None =>
        a.(title := Some(PlaceholderTitle(a.id)))
  }

  /**
   * A row with a non-blank title is left alone; otherwise the title becomes
   * the first non-blank alternate title, stripped, or else the placeholder.
   * Either way the result has a non-blank title and no other field changes.
   */
  lemma WithTitleFallbackSpec(a: Anime)
    ensures Strip(OrEmpty(a.title)) != "" ==> WithTitleFallback(a) == a
    ensures Strip(OrEmpty(a.title)) == "" && FirstNonBlank(a.allTitles).Some? ==>
              WithTitleFallback(a).title == FirstNonBlank(a.allTitles)
    ensures Strip(OrEmpty(a.title)) == "" && FirstNonBlank(a.allTitles).None? ==>
              WithTitleFallback(a).title == Some(PlaceholderTitle(a.id))
    ensures WithTitleFallback(a).title.Some? && Strip(WithTitleFallback(a).title.value) != ""
    ensures WithTitleFallback(a).(title := a.title) == a
  {
    if Strip(OrEmpty(a.title)) == "" && FirstNonBlank(a.allTitles).None? {
      var p := PlaceholderTitle(a.id);
      assert p[0] == 'U' && !IsSpace(p[0]);
    }
  }

  /** The body of the loop in `_normalize_titles_inplace`, for one row. */
  method NormalizeRow(a: Anime) returns (b: Anime)
    ensures b == WithTitleFallback(a)
  {
    b := a;
    var title := Strip(OrEmpty(a.title));
    if title == "" {
      var ats := FirstNonBlank(a.allTitles);
      b := a.(title := Some(if ats.Some? then ats.value else PlaceholderTitle(a.id)));
    }
  }

  /** `_normalize_titles_inplace`: every row of the list is updated in place. */
  method NormalizeTitlesInPlace(rows: array<Anime>)
    modifies rows
    ensures forall i :: 0 <= i < rows.Length ==> rows[i] == WithTitleFallback(old(rows[i]))
  {
    ghost var orig := rows[..];
    var i := 0;
    while i < rows.Length
      invariant 0 <= i <= rows.Length
      invariant forall k :: 0 <= k < i ==> rows[k] == WithTitleFallback(orig[k])
      invariant rows[i..] == orig[i..]
    {
      assert rows[i] == orig[i..][0];
      rows[i] := NormalizeRow(rows[i]);
      i := i + 1;
    }
  }
}
