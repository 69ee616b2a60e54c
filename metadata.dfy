/**
 * The `/metadata` endpoint: the size of the catalog and its most recent
 * update time, cached for sixty seconds in a single slot.
 */
module Metadata {
  import opened Wrappers
  import opened Catalog

  const CacheTtl: real := 60.0

  /** `max(last_updated of the rows that have one, default=None)`. */
  function LatestUpdate(data: seq<Anime>): Option<int> {
    if |data| == 0 then None
    else
      var r := LatestUpdate(data[..|data| - 1]);
      var u := data[|data| - 1].lastUpdated;
      if u.None? then r
      else if r.None? || r.value < u.value then u
      else r
  }

  /**
   * The latest update is absent exactly when no row has one; otherwise it
   * is the timestamp of some row and no row has a later one.
   */
  lemma {:induction false} LatestUpdateSpec(data: seq<Anime>)
    ensures LatestUpdate(data).None? <==> forall a :: a in data ==> a.lastUpdated.None?
    ensures LatestUpdate(data).Some? ==>
              (exists a :: a in data && a.lastUpdated == LatestUpdate(data)) &&
              forall a :: a in data && a.lastUpdated.Some? ==> a.lastUpdated.value <= LatestUpdate(data).value
  {
    if |data| > 0 {
      var init := data[..|data| - 1];
      var last := data[|data| - 1];
      LatestUpdateSpec(init);
      assert forall a :: a in data <==> a in init || a == last;
      var r := LatestUpdate(init);
      if last.lastUpdated.Some? && (r.None? || r.value < last.lastUpdated.value) {
        assert last in data;
      } else if r.Some? {
        var w :| w in init && w.lastUpdated == r;
        assert w in data;
      }
    }
  }

  /** The body of the `/metadata` response. */
  datatype MetadataValue = MetadataValue(totalEntries: nat, lastUpdated: Option<int>)

  /** `_build_metadata` over a catalog snapshot. */
  function MetadataOf(data: seq<Anime>): (r: MetadataValue)
    ensures r.totalEntries == |data|
    ensures r.lastUpdated.None? <==> forall a :: a in data ==> a.lastUpdated.None?
  {
    LatestUpdateSpec(data);
    MetadataValue(|data|, LatestUpdate(data))
  }

  /** The cache is rebuilt when it is empty or more than the TTL old. */
  predicate Stale(slot: Option<MetadataValue>, lastUpdated: real, now: real) {
    slot.None? || now - lastUpdated > CacheTtl
  }

  /** The single-slot cache behind `/metadata`. */
  class MetadataCache {
    var data: Option<MetadataValue>
    var lastUpdated: real

    constructor ()
      ensures data.None? && lastUpdated == 0.0
    {
      data := None;
      lastUpdated := 0.0;
    }
  }

  /**
   * `get_metadata`: a stale or empty cache is rebuilt from the catalog and
   * stamped with `now`; otherwise the stored value is returned untouched.
   */
  method GetMetadata(cache: MetadataCache, catalog: seq<Anime>, now: real) returns (v: MetadataValue)
    modifies cache
    ensures Stale(old(cache.data), old(cache.lastUpdated), now) ==>
              v == MetadataOf(catalog) && cache.data == Some(v) && cache.lastUpdated == now
    ensures !Stale(old(cache.data), old(cache.lastUpdated), now) ==>
              v == old(cache.data).value && unchanged(cache)
  {
    if cache.data.None? || now - cache.lastUpdated > CacheTtl {
      cache.data := Some(MetadataOf(catalog));
      cache.lastUpdated := now;
    }
    v := cache.data.value;
  }
}
