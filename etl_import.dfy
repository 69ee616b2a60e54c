/**
 * The JSON-to-Postgres import script: the snapshot file is required, each
 * entry is normalised into an upsert row, and rows are sent in batches of
 * fifty.
 */
module EtlImport {
  import opened Wrappers
  import opened Seqs
  import opened Text
  import opened Catalog
  import opened AnimeTable

  const BatchSize: nat := 50

  /** One object of the snapshot file; `None` is a missing key or null. */
  datatype JsonEntry = JsonEntry(
    id: int,
    title: Option<string>,
    allTitles: Option<seq<Option<string>>>,
    mainPicture: Option<Picture>,
    tags: Option<seq<Option<string>>>,
    synopsis: Option<string>,
    rating: Option<string>,
    isNsfw: Option<bool>,
    totalEpisodes: Option<int>,
    childrenIds: Option<seq<int>>,
    lastUpdated: Option<int>,
    embedding: Option<seq<real>>)

  /** The snapshot file: absent, or present with its decoded entries. */
  datatype DataFile = Missing | Present(entries: seq<JsonEntry>)

  datatype EtlError = FileNotFound

  /** The row built for one entry. */
  function EtlRow(a: JsonEntry): UpsertRow {
    UpsertRow(
      a.id,
      a.title,
      DistinctTruthy(a.allTitles),
      a.mainPicture,
      LowerAll(Truthy(a.tags)),
      a.synopsis,
      a.rating,
      a.isNsfw == Some(true),
      CountOrZero(a.totalEpisodes),
      if a.childrenIds.Some? then a.childrenIds.value else [],
      a.lastUpdated,
      EmbeddingOrNull(a.embedding))
  }

  /**
   * Tags are the truthy tags lowercased, in order; alternate titles are the
   * truthy ones, each once; the flag defaults to false, the episode count
   * to 0, and an empty embedding becomes null.
   */
  lemma EtlRowSpec(a: JsonEntry)
    ensures |EtlRow(a).tags| == |Truthy(a.tags)|
    ensures forall i :: 0 <= i < |Truthy(a.tags)| ==> EtlRow(a).tags[i] == Lower(Truthy(a.tags)[i])
    ensures forall t :: t in EtlRow(a).tags ==> IsLower(t)
    ensures NoDup(EtlRow(a).allTitles)
    ensures forall t :: t in EtlRow(a).allTitles <==> t != "" && a.allTitles.Some? && Some(t) in a.allTitles.value
    ensures a.isNsfw.None? ==> !EtlRow(a).isNsfw
    ensures a.totalEpisodes.None? ==> EtlRow(a).totalEpisodes == 0
    ensures EtlRow(a).embedding.None? <==> a.embedding.None? || a.embedding.value == []
  {
    forall t | t in EtlRow(a).tags ensures IsLower(t) {
      var i :| 0 <= i < |EtlRow(a).tags| && EtlRow(a).tags[i] == t;
      LowerIsLower(Truthy(a.tags)[i]);
    }
  }

  function EtlRows(batch: seq<JsonEntry>): (r: seq<UpsertRow>)
    ensures |r| == |batch| && forall i :: 0 <= i < |batch| ==> r[i] == EtlRow(batch[i])
  {
    seq(|batch|, i requires 0 <= i < |batch| => EtlRow(batch[i]))
  }

  lemma EtlRowsAppend(a: seq<JsonEntry>, b: seq<JsonEntry>)
    ensures EtlRows(a + b) == EtlRows(a) + EtlRows(b)
  {
  }

  /** The inner loop: one row per entry of the batch, in order. */
  method BuildRows(batch: seq<JsonEntry>) returns (rows: seq<UpsertRow>)
    ensures rows == EtlRows(batch)
  {
    rows := [];
    for k := 0 to |batch|
      invariant rows == EtlRows(batch[..k])
    {
      EtlRowsAppend(batch[..k], [batch[k]]);
      assert batch[..k + 1] == batch[..k] + [batch[k]];
      rows := rows + EtlRows([batch[k]]);
    }
    assert batch[..|batch|] == batch;
  }

  /**
   * `main`: a missing file fails before any batch is built; otherwise the
   * batches handed to `executemany` are the rows of consecutive slices of
   * fifty entries.
   */
  method Import(file: DataFile) returns (res: Result<seq<seq<UpsertRow>>, EtlError>)
    ensures file.Missing? <==> res == Failure(FileNotFound)
    ensures file.Present? ==> res == Success(Chunks(EtlRows(file.entries), BatchSize))
  {
    if file.Missing? {
      return Failure(FileNotFound);
    }
    var data := file.entries;
    var batches: seq<seq<UpsertRow>> := [];
    var i := 0;
    while i < |data|
      invariant 0 <= i <= |data|
      invariant batches + Chunks(EtlRows(data[i..]), BatchSize) == Chunks(EtlRows(data), BatchSize)
      decreases |data| - i
    {
      var end := if i + BatchSize < |data| then i + BatchSize else |data|;
      var batch := data[i..end];
      var rows := BuildRows(batch);
      assert data[i..] == batch + data[end..];
      EtlRowsAppend(batch, data[end..]);
      assert EtlRows(data[i..])[..|rows|] == rows;
      assert EtlRows(data[i..])[|rows|..] == EtlRows(data[end..]);
      ChunksCons(EtlRows(data[i..]), BatchSize);
      batches := batches + [rows];
      i := end;
    }
    assert |EtlRows(data[i..])| == 0;
    assert batches + Chunks(EtlRows(data[i..]), BatchSize) == batches;
    return Success(batches);
  }

  /** The batches cover every entry exactly once and in order, at most fifty at a time. */
  lemma ImportCovers(entries: seq<JsonEntry>)
    ensures Concat(Chunks(EtlRows(entries), BatchSize)) == EtlRows(entries)
    ensures forall b :: b in Chunks(EtlRows(entries), BatchSize) ==> 0 < |b| <= BatchSize
  {
    ChunksConcat(EtlRows(entries), BatchSize);
    ChunksSizes(EtlRows(entries), BatchSize);
  }
}
