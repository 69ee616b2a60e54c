/**
 * The per-flag response caches of the `/config` and `/tags` endpoints: one
 * slot for `nsfw_ok = false`, one for `nsfw_ok = true`, and a single
 * timestamp shared by both slots.
 */
module FlagCaches {
  import opened Wrappers

  /** Seconds an entry may be served after the last rebuild of either slot. */
  const CacheTtl: real := 60.0

  /** The contents of a cache: both slots and the shared timestamp. */
  datatype FlagEntries<V> = FlagEntries(nsfwFalse: Option<V>, nsfwTrue: Option<V>, lastUpdated: real)

  /** The state at start-up: both slots empty, timestamp 0. */
  function Initial<V>(): FlagEntries<V> {
    FlagEntries(None, None, 0.0)
  }

  /** The slot selected by `nsfwOk`. */
  function Entry<V>(c: FlagEntries<V>, nsfwOk: bool): Option<V> {
    if nsfwOk then c.nsfwTrue else c.nsfwFalse
  }

  /** The slot is empty, or the shared timestamp is more than the TTL old. */
  predicate NeedsRebuild<V>(c: FlagEntries<V>, nsfwOk: bool, now: real) {
    Entry(c, nsfwOk).None? || now - c.lastUpdated > CacheTtl
  }

  /** Store a freshly built value in one slot and stamp the cache with `now`. */
  function Put<V>(c: FlagEntries<V>, nsfwOk: bool, v: V, now: real): (r: FlagEntries<V>)
    ensures Entry(r, nsfwOk) == Some(v) && Entry(r, !nsfwOk) == Entry(c, !nsfwOk)
    ensures r.lastUpdated == now
  {
    if nsfwOk then FlagEntries(c.nsfwFalse, Some(v), now)
    else FlagEntries(Some(v), c.nsfwTrue, now)
  }

  /** The value a request answers with, when `built` is what a rebuild would produce. */
  function Served<V>(c: FlagEntries<V>, nsfwOk: bool, now: real, built: V): V {
    if NeedsRebuild(c, nsfwOk, now) then built else Entry(c, nsfwOk).value
  }

  /** The cache after a request. */
  function After<V>(c: FlagEntries<V>, nsfwOk: bool, now: real, built: V): FlagEntries<V> {
    if NeedsRebuild(c, nsfwOk, now) then Put(c, nsfwOk, built, now) else c
  }

  /** A request within the TTL on a filled slot returns the stored value and changes nothing. */
  lemma Hit<V>(c: FlagEntries<V>, nsfwOk: bool, now: real, built: V)
    requires Entry(c, nsfwOk).Some? && now - c.lastUpdated <= CacheTtl
    ensures Served(c, nsfwOk, now, built) == Entry(c, nsfwOk).value
    ensures After(c, nsfwOk, now, built) == c
  {
  }

  /**
   * A request on an empty or expired slot returns the rebuilt value, stores
   * it, restamps the cache, and leaves the other slot as it was.
   */
  lemma Miss<V>(c: FlagEntries<V>, nsfwOk: bool, now: real, built: V)
    requires Entry(c, nsfwOk).None? || now - c.lastUpdated > CacheTtl
    ensures Served(c, nsfwOk, now, built) == built
    ensures Entry(After(c, nsfwOk, now, built), nsfwOk) == Some(built)
    ensures Entry(After(c, nsfwOk, now, built), !nsfwOk) == Entry(c, !nsfwOk)
    ensures After(c, nsfwOk, now, built).lastUpdated == now
  {
  }

  /** The first request for either flag always builds. */
  lemma FirstRequestBuilds<V>(nsfwOk: bool, now: real, built: V)
    ensures NeedsRebuild(Initial<V>(), nsfwOk, now)
    ensures Served(Initial(), nsfwOk, now, built) == built
  {
  }

  /**
   * Because the timestamp is shared, rebuilding one slot renews the other:
   * an entry already in the other slot, however old, is served unchanged by
   * any request within the TTL of the rebuild.
   */
  lemma SharedTimestamp<V>(c: FlagEntries<V>, nsfwOk: bool, now: real, built: V, later: real, other: V)
    requires NeedsRebuild(c, nsfwOk, now)
    requires Entry(c, !nsfwOk).Some?
    requires now <= later <= now + CacheTtl
    ensures !NeedsRebuild(After(c, nsfwOk, now, built), !nsfwOk, later)
    ensures Served(After(c, nsfwOk, now, built), !nsfwOk, later, other) == Entry(c, !nsfwOk).value
  {
  }

  /** The mutable cache object behind a `/config` or `/tags` endpoint. */
  class FlagCache<V> {
    var nsfwFalse: Option<V>
    var nsfwTrue: Option<V>
    var lastUpdated: real

    function State(): FlagEntries<V>
      reads this
    {
      FlagEntries(nsfwFalse, nsfwTrue, lastUpdated)
    }

    constructor ()
      ensures State() == Initial()
    {
      nsfwFalse := None;
      nsfwTrue := None;
      lastUpdated := 0.0;
    }

    /** Store `v` in the slot of `nsfwOk` and set the shared timestamp. */
    method Store(nsfwOk: bool, v: V, now: real)
      modifies this
      ensures State() == Put(old(State()), nsfwOk, v, now)
    {
      if nsfwOk {
        nsfwTrue := Some(v);
      } else {
        nsfwFalse := Some(v);
      }
      lastUpdated := now;
    }
  }
}
