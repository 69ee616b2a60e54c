/**
 * The update run of the MyAnimeList fetcher: which seasons it fetches,
 * which fetched entries it keeps for update, and the rows it upserts in
 * batches of fifty.
 */
module MalUpdate {
  import opened Wrappers
  import opened Seqs
  import opened Text
  import opened Catalog
  import opened AnimeTable
  import opened MalGrouping

  // ---------- Season arithmetic ----------

  datatype Season = Winter | Spring | Summer | Fall

  /** The name the season endpoint expects. */
  function SeasonName(s: Season): string {
    match s
    case Winter => "winter"
    case Spring => "spring"
    case Summer => "summer"
    case Fall => "fall"
  }

  /** The position of a season in the year, from 0 (winter) to 3 (fall). */
  function Ordinal(s: Season): (k: nat)
    ensures k < 4
  {
    match s
    case Winter => 0
    case Spring => 1
    case Summer => 2
    case Fall => 3
  }

  /** The season of a month. */
  function CurrentSeason(month: int): Season {
    if month <= 3 then Winter
    else if month <= 6 then Spring
    else if month <= 9 then Summer
    else Fall
  }

  /** The season before `s`. */
  function PrevSeason(s: Season): Season {
    if s == Winter then Fall
    else if s == Spring then Winter
    else if s == Summer then Spring
    else Summer
  }

  /** The year of the season before `s` in year `year`. */
  function PrevYear(year: int, s: Season): int {
    if s == Winter then year - 1 else year
  }

  /** Each quarter of the calendar is one season, in order. */
  lemma SeasonOfMonth(month: int)
    requires 1 <= month <= 12
    ensures Ordinal(CurrentSeason(month)) == (month - 1) / 3
    ensures SeasonName(CurrentSeason(month)) in ["winter", "spring", "summer", "fall"]
  {
  }

  /** The previous season is the cyclic predecessor, and it belongs to the previous year only for winter. */
  lemma PrevSeasonCyclic(year: int, s: Season)
    ensures Ordinal(PrevSeason(s)) == (Ordinal(s) + 3) % 4
    ensures PrevYear(year, s) == year - 1 <==> s == Winter
    ensures PrevYear(year, s) == year <==> s != Winter
  {
  }

  /**
   * The season and year fetched as "previous" are those of the month three
   * months earlier.
   */
  lemma PreviousQuarter(year: int, month: int)
    requires 1 <= month <= 12
    ensures var (y, m) := if month > 3 then (year, month - 3) else (year - 1, month + 9);
            && CurrentSeason(m) == PrevSeason(CurrentSeason(month))
            && y == PrevYear(year, CurrentSeason(month))
  {
  }

  // ---------- Filter: new or airing ----------

  /** An entry is kept when it is not stored yet or its lowercased status is currently airing. */
  predicate NeedsUpdate(a: MalAnime, existing: set<int>) {
    a.id !in existing || Lower(if a.status.Some? then a.status.value else "") == "currently_airing"
  }

  /** `fetched_unique`: its keys in insertion order and the entry kept for each. */
  datatype Selection = Selection(keys: seq<int>, chosen: map<int, MalAnime>)

  /** The dictionary after the loop over `fetched`: a kept entry overwrites an earlier one with its id. */
  function Select(fetched: seq<MalAnime>, existing: set<int>): Selection {
    if |fetched| == 0 then Selection([], map[])
    else
      var s := Select(fetched[..|fetched| - 1], existing);
      var a := fetched[|fetched| - 1];
      if NeedsUpdate(a, existing) then
        Selection(if a.id in s.chosen then s.keys else s.keys + [a.id], s.chosen[a.id := a])
      else s
  }

  /** The entry kept for `id` is the last entry with that id that needs an update. */
  ghost predicate LastKept(fetched: seq<MalAnime>, existing: set<int>, id: int, a: MalAnime) {
    exists j :: 0 <= j < |fetched| && fetched[j] == a && a.id == id && NeedsUpdate(a, existing)
                && forall k :: j < k < |fetched| && fetched[k].id == id ==> !NeedsUpdate(fetched[k], existing)
  }

  /**
   * The keys are distinct and are exactly the ids of the entries that need
   * an update.
   */
  lemma {:induction false} SelectKeys(fetched: seq<MalAnime>, existing: set<int>)
    ensures var s := Select(fetched, existing);
            && NoDup(s.keys)
            && (forall k :: k in s.keys <==> k in s.chosen)
            && (forall k :: k in s.chosen <==> exists j :: 0 <= j < |fetched| && fetched[j].id == k && NeedsUpdate(fetched[j], existing))
  {
    if |fetched| > 0 {
      var init := fetched[..|fetched| - 1];
      SelectKeys(init, existing);
      var s := Select(fetched, existing);
      forall k | (exists j :: 0 <= j < |fetched| && fetched[j].id == k && NeedsUpdate(fetched[j], existing))
        ensures k in s.chosen
      {
        var j :| 0 <= j < |fetched| && fetched[j].id == k && NeedsUpdate(fetched[j], existing);
        if j < |init| {
          assert init[j] == fetched[j];
        }
      }
      forall k | k in s.chosen
        ensures exists j :: 0 <= j < |fetched| && fetched[j].id == k && NeedsUpdate(fetched[j], existing)
      {
        if k in Select(init, existing).chosen {
          var j :| 0 <= j < |init| && init[j].id == k && NeedsUpdate(init[j], existing);
          assert fetched[j] == init[j];
        } else {
          assert fetched[|fetched| - 1].id == k;
        }
      }
    }
  }

  /** Each key maps to the last entry with that id that needs an update: later duplicates overwrite earlier ones. */
  /** An entry that does not need an update, or has another id, keeps the last-kept entry of `id`. */
  lemma LastKeptExtend(init: seq<MalAnime>, a: MalAnime, existing: set<int>, id: int, x: MalAnime)
    requires LastKept(init, existing, id, x)
    requires a.id == id ==> !NeedsUpdate(a, existing)
    ensures LastKept(init + [a], existing, id, x)
  {
    var fetched := init + [a];
    var j :| 0 <= j < |init| && init[j] == x && x.id == id && NeedsUpdate(x, existing)
             && forall m :: j < m < |init| && init[m].id == id ==> !NeedsUpdate(init[m], existing);
    assert fetched[j] == init[j];
    forall m | j < m < |fetched| && fetched[m].id == id
      ensures !NeedsUpdate(fetched[m], existing)
    {
      if m < |init| {
        assert fetched[m] == init[m];
      }
    }
  }

  lemma {:induction false} SelectLast(fetched: seq<MalAnime>, existing: set<int>)
    ensures forall k :: k in Select(fetched, existing).chosen ==>
              LastKept(fetched, existing, k, Select(fetched, existing).chosen[k])
  {
    if |fetched| > 0 {
      var init := fetched[..|fetched| - 1];
      var a := fetched[|fetched| - 1];
      assert fetched == init + [a];
      SelectLast(init, existing);
      var s0 := Select(init, existing);
      var s := Select(fetched, existing);
      forall k | k in s.chosen
        ensures LastKept(fetched, existing, k, s.chosen[k])
      {
        if NeedsUpdate(a, existing) && k == a.id {
          assert fetched[|fetched| - 1] == s.chosen[k];
        } else {
          LastKeptExtend(init, a, existing, k, s0.chosen[k]);
        }
      }
    }
  }

  /** The filtering loop of the update run. */
  method FilterNewOrAiring(fetched: seq<MalAnime>, existing: set<int>) returns (keys: seq<int>, chosen: map<int, MalAnime>)
    ensures Selection(keys, chosen) == Select(fetched, existing)
  {
    keys := [];
    chosen := map[];
    for i := 0 to |fetched|
      invariant Selection(keys, chosen) == Select(fetched[..i], existing)
    {
      var a := fetched[i];
      assert fetched[..i + 1][..i] == fetched[..i];
      var aid := a.id;
      var status := Lower(if a.status.Some? then a.status.value else "");
      if aid !in existing || status == "currently_airing" {
        if aid !in chosen {
          keys := keys + [aid];
        }
        chosen := chosen[aid := a];
      }
    }
    assert fetched[..|fetched|] == fetched;
  }

  // ---------- Upsert ----------

  const UpsertBatchSize: nat := 50

  /** `anime_list`: the row stored under each kept id, in key order. */
  function UpdatedList(keys: seq<int>, updated: map<int, Anime>): seq<Anime> {
    if |keys| == 0 then []
    else
      var k := keys[|keys| - 1];
      UpdatedList(keys[..|keys| - 1], updated) + (if k in updated then [updated[k]] else [])
  }

  /** `missing_ids`: the kept ids with no stored row (members of a group rooted elsewhere). */
  function MissingIds(keys: seq<int>, updated: map<int, Anime>): seq<int> {
    if |keys| == 0 then []
    else
      var k := keys[|keys| - 1];
      MissingIds(keys[..|keys| - 1], updated) + (if k in updated then [] else [k])
  }

  /** Every kept id is either listed with its row or reported missing, never both. */
  lemma {:induction false} UpdatedSplit(keys: seq<int>, updated: map<int, Anime>)
    ensures |UpdatedList(keys, updated)| + |MissingIds(keys, updated)| == |keys|
    ensures forall k :: k in MissingIds(keys, updated) <==> k in keys && k !in updated
    ensures forall a :: a in UpdatedList(keys, updated) <==> exists k :: k in keys && k in updated && updated[k] == a
  {
    if |keys| > 0 {
      var init := keys[..|keys| - 1];
      UpdatedSplit(init, updated);
      assert forall x :: x in keys <==> x in init || x == keys[|keys| - 1];
    }
  }

  /** The loop that collects `anime_list` and `missing_ids`. */
  method CollectUpdated(keys: seq<int>, updated: map<int, Anime>) returns (animeList: seq<Anime>, missing: seq<int>)
    ensures animeList == UpdatedList(keys, updated)
    ensures missing == MissingIds(keys, updated)
  {
    animeList := [];
    missing := [];
    for i := 0 to |keys|
      invariant animeList == UpdatedList(keys[..i], updated)
      invariant missing == MissingIds(keys[..i], updated)
    {
      var aid := keys[i];
      assert keys[..i + 1][..i] == keys[..i];
      if aid in updated {
        animeList := animeList + [updated[aid]];
      } else {
        missing := missing + [aid];
      }
    }
    assert keys[..|keys|] == keys;
  }

  /** A non-empty string, the truth test the script applies to titles and tags. */
  predicate NonEmptyText(t: string) {
    t != ""
  }

  /** The row upserted for one grouped entry. */
  function MalRow(a: Anime): UpsertRow {
    UpsertRow(
      a.id,
      a.title,
      Dedup(Filter(a.allTitles, NonEmptyText)),
      a.mainPicture,
      Filter(a.tags, NonEmptyText),
      a.synopsis,
      a.rating,
      a.isNsfw,
      a.totalEpisodes,
      a.childrenIds,
      a.lastUpdated,
      EmbeddingOrNull(Some(a.embedding)))
  }

  /**
   * Tags keep their case and order with empty ones dropped; alternate titles
   * are the non-empty ones, each once; an empty embedding is stored as null.
   */
  lemma MalRowSpec(a: Anime)
    ensures forall t :: t in MalRow(a).tags <==> t in a.tags && t != ""
    ensures forall i :: 0 <= i < |a.tags| && a.tags[i] != "" ==>
              var k := |Filter(a.tags[..i], NonEmptyText)|;
              k < |MalRow(a).tags| && MalRow(a).tags[k] == a.tags[i]
    ensures |MalRow(a).tags| <= |a.tags|
    ensures NoDup(MalRow(a).allTitles)
    ensures forall t :: t in MalRow(a).allTitles <==> t in a.allTitles && t != ""
    ensures MalRow(a).embedding.None? <==> a.embedding == []
  {
    FilterPositions(a.tags, NonEmptyText);
  }

  function MalRows(list: seq<Anime>): (r: seq<UpsertRow>)
    ensures |r| == |list| && forall i :: 0 <= i < |list| ==> r[i] == MalRow(list[i])
  {
    seq(|list|, i requires 0 <= i < |list| => MalRow(list[i]))
  }

  /** The rows of one batch, in order. */
  method BuildMalRows(batch: seq<Anime>) returns (rows: seq<UpsertRow>)
    ensures rows == MalRows(batch)
  {
    rows := [];
    for k := 0 to |batch|
      invariant rows == MalRows(batch[..k])
    {
      rows := rows + [MalRow(batch[k])];
    }
    assert batch[..|batch|] == batch;
  }

  /** The rows of a slice are the slice of the rows. */
  lemma MalRowsSlice(list: seq<Anime>, i: nat, end: nat)
    requires i <= end <= |list|
    ensures MalRows(list[i..])[..end - i] == MalRows(list[i..end])
    ensures MalRows(list[i..])[end - i..] == MalRows(list[end..])
  {
    assert forall k :: 0 <= k < end - i ==> list[i..][k] == list[i..end][k];
    assert forall k :: 0 <= k < |list| - end ==> list[i..][end - i + k] == list[end..][k];
  }

  /** The upsert loop: the batches are the rows of consecutive slices of fifty entries. */
  method UpsertBatches(animeList: seq<Anime>) returns (batches: seq<seq<UpsertRow>>)
    ensures batches == Chunks(MalRows(animeList), UpsertBatchSize)
  {
    batches := [];
    var i := 0;
    while i < |animeList|
      invariant 0 <= i <= |animeList|
      invariant batches + Chunks(MalRows(animeList[i..]), UpsertBatchSize) == Chunks(MalRows(animeList), UpsertBatchSize)
      decreases |animeList| - i
    {
      var end := if i + UpsertBatchSize < |animeList| then i + UpsertBatchSize else |animeList|;
      var rows := BuildMalRows(animeList[i..end]);
      MalRowsSlice(animeList, i, end);
      ChunksCons(MalRows(animeList[i..]), UpsertBatchSize);
      batches := batches + [rows];
      i := end;
    }
    assert |MalRows(animeList[i..])| == 0;
    assert batches + Chunks(MalRows(animeList[i..]), UpsertBatchSize) == batches;
  }
}
