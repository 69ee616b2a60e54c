/**
 * The `/config` endpoint: the tag vocabulary of the catalog, its size and
 * its latest update time, cached per `nsfw_ok` flag.
 */
module Config {
  import opened Wrappers
  import opened Text
  import opened Lex
  import opened Catalog
  import opened TagVocabulary
  import Metadata
  import opened FlagCaches

  /** The body of the `/config` response. */
  datatype ConfigValue = ConfigValue(tags: seq<string>, totalEntries: nat, lastUpdated: Option<int>)

  /** `_build_config(nsfw_ok)` over a catalog snapshot. */
  function ConfigOf(data: seq<Anime>, nsfwOk: bool): ConfigValue {
    ConfigValue(VocabularyOf(Flatten(TagLists(data)), DropSet(nsfwOk)), |data|, Metadata.LatestUpdate(data))
  }

  /** `_build_config`: count the rows, take the latest update, and build the vocabulary. */
  method BuildConfig(data: seq<Anime>, nsfwOk: bool) returns (c: ConfigValue)
    ensures c == ConfigOf(data, nsfwOk)
  {
    var totalEntries := |data|;
    var lastUpdated := Metadata.LatestUpdate(data);
    var sortedTags := BuildVocabulary(TagLists(data), nsfwOk);
    c := ConfigValue(sortedTags, totalEntries, lastUpdated);
  }

  /**
   * The configured tags are in strictly increasing lowercase order, none of
   * them is an NSFW tag unless those are allowed, and every tag of every
   * row that is kept is represented.
   */
  lemma ConfigTags(data: seq<Anime>, nsfwOk: bool)
    ensures StrictlySorted(LowerAll(ConfigOf(data, nsfwOk).tags))
    ensures !nsfwOk ==> forall e :: e in ConfigOf(data, nsfwOk).tags ==> Lower(e) !in NsfwTags
    ensures forall t :: t in Flatten(TagLists(data)) && Key(t) !in DropSet(nsfwOk) ==>
              exists e :: e in ConfigOf(data, nsfwOk).tags && Lower(e) == Key(t)
  {
    VocabularySorted(Flatten(TagLists(data)), DropSet(nsfwOk));
    VocabularyCovers(Flatten(TagLists(data)), DropSet(nsfwOk));
  }

  /**
   * `get_config`: answer from the slot of `nsfwOk` unless it is empty or the
   * shared timestamp has expired, in which case rebuild and store.
   */
  method GetConfig(cache: FlagCache<ConfigValue>, data: seq<Anime>, nsfwOk: bool, now: real)
    returns (v: ConfigValue)
    modifies cache
    ensures v == Served(old(cache.State()), nsfwOk, now, ConfigOf(data, nsfwOk))
    ensures cache.State() == After(old(cache.State()), nsfwOk, now, ConfigOf(data, nsfwOk))
  {
    var slot := if nsfwOk then cache.nsfwTrue else cache.nsfwFalse;
    if slot.None? || now - cache.lastUpdated > CacheTtl {
      var built := BuildConfig(data, nsfwOk);
      cache.Store(nsfwOk, built, now);
      v := built;
    } else {
      v := slot.value;
    }
  }
}
