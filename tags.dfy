/**
 * The `/tags` endpoint: the tag vocabulary over the `tags` column of every
 * stored row, cached per `nsfw_ok` flag as `{"tags": vocabulary}`.
 */
module Tags {
  import opened Wrappers
  import opened Text
  import opened Lex
  import opened Catalog
  import opened TagVocabulary
  import opened FlagCaches
  import Config

  /** The cached response body `{"tags": ...}`. */
  datatype TagsValue = TagsValue(tags: seq<string>)

  /** `row["tags"] or []` for every fetched row. */
  function RowTags(rows: seq<Option<seq<string>>>): (r: seq<seq<string>>)
    ensures |r| == |rows|
    ensures forall i :: 0 <= i < |rows| ==> r[i] == (if rows[i].Some? then rows[i].value else [])
  {
    seq(|rows|, i requires 0 <= i < |rows| => if rows[i].Some? then rows[i].value else [])
  }

  /** `{"tags": _build_tags(nsfw_ok)}` over the fetched rows. */
  function TagsOf(rows: seq<Option<seq<string>>>, nsfwOk: bool): TagsValue {
    TagsValue(VocabularyOf(Flatten(RowTags(rows)), DropSet(nsfwOk)))
  }

  /** `_build_tags`: the nested loop over rows and tags, then the sort. */
  method BuildTags(rows: seq<Option<seq<string>>>, nsfwOk: bool) returns (sortedTags: seq<string>)
    ensures sortedTags == TagsOf(rows, nsfwOk).tags
  {
    sortedTags := BuildVocabulary(RowTags(rows), nsfwOk);
  }

  /** A row whose `tags` is null contributes nothing. */
  lemma NullRowIgnored(rows: seq<Option<seq<string>>>, nsfwOk: bool)
    ensures TagsOf(rows + [None], nsfwOk) == TagsOf(rows, nsfwOk)
  {
    assert RowTags(rows + [None]) == RowTags(rows) + [[]];
    FlattenSnoc(RowTags(rows), []);
    assert Flatten(RowTags(rows)) + [] == Flatten(RowTags(rows));
  }

  /** The entries are in strictly increasing lowercase order and omit the NSFW tags unless allowed. */
  lemma TagsSpec(rows: seq<Option<seq<string>>>, nsfwOk: bool)
    ensures StrictlySorted(LowerAll(TagsOf(rows, nsfwOk).tags))
    ensures !nsfwOk ==> forall e :: e in TagsOf(rows, nsfwOk).tags ==> Lower(e) !in NsfwTags
  {
    VocabularySorted(Flatten(RowTags(rows)), DropSet(nsfwOk));
  }

  /** Over the same rows, `/tags` lists exactly the tags that `/config` lists. */
  lemma TagsAgreeWithConfig(data: seq<Anime>, nsfwOk: bool)
    ensures TagsOf(seq(|data|, i requires 0 <= i < |data| => Some(data[i].tags)), nsfwOk).tags ==
            Config.ConfigOf(data, nsfwOk).tags
  {
    var rows := seq(|data|, i requires 0 <= i < |data| => Some(data[i].tags));
    assert RowTags(rows) == TagLists(data);
  }

  /**
   * `get_tags`: answer from the slot of `nsfwOk` unless it is empty or the
   * shared timestamp has expired, in which case rebuild and store.
   */
  method GetTags(cache: FlagCache<TagsValue>, rows: seq<Option<seq<string>>>, nsfwOk: bool, now: real)
    returns (v: TagsValue)
    modifies cache
    ensures v == Served(old(cache.State()), nsfwOk, now, TagsOf(rows, nsfwOk))
    ensures cache.State() == After(old(cache.State()), nsfwOk, now, TagsOf(rows, nsfwOk))
  {
    var slot := if nsfwOk then cache.nsfwTrue else cache.nsfwFalse;
    if slot.None? || now - cache.lastUpdated > CacheTtl {
      var built := BuildTags(rows, nsfwOk);
      cache.Store(nsfwOk, TagsValue(built), now);
      v := TagsValue(built);
    } else {
      v := slot.value;
    }
  }
}
