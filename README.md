# AnimeRecommender core, modelled in Dafny

This project models the logic of the AnimeRecommender service and proves properties about it.

On the backend it covers:

- **Hybrid scorer.** `score_candidates` filters catalog rows and scores each one from tag overlap, disliked-tag penalties, mood boosts and two cosine similarities. It then normalises the scores by their maximum and sorts them stably in descending order.
- **Title resolver.** `get_by_titles` matches free-text titles exactly on their stripped, lowercased form and otherwise by fuzzy score. Alongside it are the in-place title fallback and the defaulting of list columns in the catalog loader.
- **Recommendation pipeline.** `_generate_recommendations` covers:
  - the keyed 60-second result cache;
  - the merge of parsed free-text preferences;
  - id validation and the exclusion set;
  - truncation to `limit`.
- **Title search.** Prefix matches come before substring matches, followed by the NSFW filter and the limit.
- **Tag vocabulary.** The same algorithm appears in `/config`, `/tags` and the preference parser: a case-insensitive dedup that keeps the first spelling, the NSFW filter and a lowercase sort.
- **Caches.** The two flag-keyed caches share one timestamp. `/metadata` has its own cache.
- **Preference parser.** The post-processing of the language model's reply.
- **By-id lookup.**

The two ingestion scripts are modelled too:

- **MAL data fetcher.** It covers:
  - `clean_text`, `is_nsfw` and `clean_title`, including the regular expressions, written out;
  - `find_root_anime` over given relations;
  - `build_grouped_db` with the title log and episode totals;
  - the season arithmetic;
  - the new-or-airing filter;
  - the upsert rows in batches of fifty.
- **JSON-to-Postgres import.** It normalises each row and partitions the rows into batches.

On the frontend, the `HeaderSearch` component is a class. Its fields are the component state. Each handler is a method, proved against a pure transition on a snapshot of that state, and the transitions carry their own lemmas. The `matchesQuery` and `truncate` helpers are modelled as functions.

Each module follows one source file: `hybrid.dfy`, `title_resolver.dfy`, `recommend.dfy`, `search.dfy`, `config.dfy`, `tags.dfy`, `metadata.dfy`, `preferences.dfy`, `anime_lookup.dfy`, `mal_text.dfy`, `mal_grouping.dfy`, `mal_update.dfy`, `etl_import.dfy`, `header_search.dfy` and `frontend_utils.dfy`. These modules share:

- the catalog row (`catalog.dfy`) and the upsert row (`anime_table.dfy`);
- the vocabulary algorithm (`vocabulary.dfy`) and the flag caches (`flag_cache.dfy`);
- Python's string operations (`text.dfy`), string order and `sorted` (`lex.dfy`);
- the stable descending sort (`stable_sort.dfy`) and sequence helpers (`seqs.dfy`).

## Model

| member | source | states |
|---|---|---|
| Text.StripSpec | backend/app/api/search.py:13 | The result has no Python whitespace at either end. It is empty iff every character is whitespace. Already-trimmed input is returned unchanged. |
| Text.TrimSpec | frontend/src/lib/utils.ts:2 | Trimming with any whitespace predicate leaves no whitespace at either end, is empty iff every character is whitespace, and leaves already-trimmed input unchanged. |
| Text.LowerIsLower | backend/app/recommender/hybrid_recommender.py:5 | A lowercased string has no upper-case ASCII letter, and lowercasing twice is the same as once. |
| Seqs.Dedup | frontend/src/components/search/HeaderSearch.tsx:167 | `[...new Set(xs)]` has no duplicates, holds exactly the elements of `xs`, and is no longer than `xs`. |
| Seqs.Take | backend/app/api/search.py:54 | `s[:k]` is a prefix of length `min(k, len)`. A negative `k` counts from the end. |
| Seqs.SetToSeq | backend/app/services/db_loader.py:123 | `list(set(...))` lists each element of the set exactly once. |
| Seqs.ChunksConcat | backend/scripts/etl_import_to_pg.py:51-52 | The batches, put back together, are the original list. |
| Seqs.ChunksSizes | backend/scripts/etl_import_to_pg.py:51-52 | Every batch holds between 1 and `n` entries, and every batch but the last holds exactly `n`. |
| Lex.SortedSeqSpec | backend/app/api/config.py:43 | `sorted` of a set of strings lists exactly its elements, in strictly increasing Python string order. |
| Lex.StrictlySortedUnique | backend/app/api/config.py:43 | Only one strictly increasing sequence enumerates a given set, so the sort result is determined. |
| Lex.SortStrings | backend/app/api/config.py:43 | Repeatedly taking the least remaining element computes `sorted`. |
| StableSort.SortDescSpec | backend/app/recommender/hybrid_recommender.py:78 | `sort(key, reverse=True)` gives a permutation that is non-increasing by key. Elements with equal keys keep their input order. |
| StableSort.SortInPlace | backend/app/recommender/hybrid_recommender.py:78 | The in-place insertion sort leaves the array holding the stable descending sort of its old contents. |
| StableSort.InsertIntoPrefix | backend/app/recommender/hybrid_recommender.py:78 | One insertion step places the element after every element whose key is at least its own. The rest of the array is untouched. |
| Catalog.EnsureList | backend/app/services/db_loader.py:43-51 | A falsy value becomes `[]` and a list is kept. Text that decodes becomes the decoded list, and undecodable text becomes a one-element list. |
| Catalog.FirstNonBlank | backend/app/services/db_loader.py:23 | The first non-blank alternate title, stripped. It is absent iff every alternate title is blank. |
| Catalog.WithTitleFallbackSpec | backend/app/services/db_loader.py:19-24 | A non-blank title is left alone. Otherwise the title becomes the first non-blank stripped alternate title, else `Untitled #<id>`. The result always has a non-blank title, and no other field changes. |
| Catalog.NormalizeTitlesInPlace | backend/app/services/db_loader.py:19-24 | Every element of the array is replaced by its title-fallback form. |
| Catalog.NormalizeRow | backend/app/services/db_loader.py:21-24 | The loop body computes exactly the title-fallback form of one row, whose properties `WithTitleFallbackSpec` states. |
| AnimeLookup.FindById | backend/app/api/anime.py:12-14 | The row found has the id asked for and is the first row with that id. None is found iff no row has that id. |
| AnimeLookup.GetAnime | backend/app/api/anime.py:7-17 | It succeeds with a catalog row carrying the id, and fails with not-found iff no row has that id. |
| Hybrid.TagSetSpec | backend/app/recommender/hybrid_recommender.py:4-5 | `_tags` is a set of lowercase strings. It is empty iff the row has no tags. |
| Hybrid.PoolSpec | backend/app/recommender/hybrid_recommender.py:26-27 | The liked (or disliked) tag pool is exactly the union of the items' tag sets. |
| Hybrid.CosineSimSpec | backend/app/recommender/hybrid_recommender.py:7-11 | A zero norm on either side gives similarity 0. Otherwise the similarity times the product of the norms is the dot product. |
| Hybrid.LikedEmbeddings | backend/app/recommender/hybrid_recommender.py:30 | There is no liked embedding iff no liked item has one. |
| Hybrid.MaxScoreSpec | backend/app/recommender/hybrid_recommender.py:74 | The maximum bounds every score and is attained. |
| Hybrid.Normalize | backend/app/recommender/hybrid_recommender.py:73-76 | Normalisation keeps the items and their order. |
| Hybrid.SurvivorsSpec | backend/app/recommender/hybrid_recommender.py:33-70 | The survivors are exactly the rows that pass the NSFW and untagged filters and have a positive raw score, in catalog order. Each carries its raw score and the sorted overlap with the liked pool. |
| Hybrid.NormalizeSpec | backend/app/recommender/hybrid_recommender.py:73-76 | Dividing positive scores by their maximum puts every score in (0, 1], and some score is exactly 1. |
| Hybrid.NormalizeSurvivors | backend/app/recommender/hybrid_recommender.py:69-76 | After normalisation every survivor's score is in (0, 1], with a maximum of exactly 1. |
| Hybrid.RankIgnoresQuery | backend/app/recommender/hybrid_recommender.py:57-60 | When no item has an embedding, the ranking does not depend on the query embedding. |
| Hybrid.RankSpec | backend/app/recommender/hybrid_recommender.py:78 | The output is a permutation of the normalised survivors. It is non-increasing by score, equal scores keep catalog order, and it is no longer than the input. |
| Hybrid.RankScores | backend/app/recommender/hybrid_recommender.py:69-78 | Every output score is in (0, 1], and a non-empty output starts with score 1. |
| Hybrid.RankItems | backend/app/recommender/hybrid_recommender.py:34-70 | Every output item is a catalog row. It is NSFW only if allowed, has a non-empty lowercase tag set and a positive raw score, and its overlap is the sorted intersection of its tags with the liked pool. |
| Hybrid.ScoreCandidates | backend/app/recommender/hybrid_recommender.py:13-79 | The loop, the normalisation and the in-place sort return exactly `Rank`, whose properties are the lemmas above. |
| Hybrid.ScoreOne | backend/app/recommender/hybrid_recommender.py:35-70 | One pass of the loop keeps the item iff it passes the filters and scores above zero, and then yields exactly its candidate row. |
| TitleResolver.NormalizedKeysSpec | backend/app/services/db_loader.py:106-110 | A row's keys are exactly the stripped, lowercased forms of its non-empty title and alternate titles. |
| TitleResolver.RowHitsSpec | backend/app/services/db_loader.py:105-121 | For one query, an id is appended iff some row with that id matches exactly or fuzzily. |
| TitleResolver.MatchedIdsSpec | backend/app/services/db_loader.py:100-121 | An id is matched iff some non-empty string input, stripped and lowercased, matches a row with that id. The match is exact on a key, or has a fuzzy ratio of at least the threshold on some key. |
| TitleResolver.SkippedEntry | backend/app/services/db_loader.py:101-102 | Empty and non-string entries add no ids. |
| TitleResolver.ExactMatchWins | backend/app/services/db_loader.py:112-115 | An exact key match resolves the row whatever the fuzzy scores are. |
| TitleResolver.FirstFuzzyHit | backend/app/services/db_loader.py:118-121 | The scan with `break` reports a hit iff some key scores at least the threshold. |
| TitleResolver.AppendRowHits | backend/app/services/db_loader.py:105-121 | The inner loop with `continue` appends exactly the row hits, in catalog order. |
| TitleResolver.GetByTitles | backend/app/services/db_loader.py:90-123 | An empty input gives `[]`. The result has no duplicates, and its ids are exactly the matched ids. |
| TagVocabulary.AddTagSpec | backend/app/api/config.py:34-41 | Filing a tag adds only its own key, when that is not dropped. It never overwrites an entry, and a new entry holds the stripped spelling. |
| TagVocabulary.TagMapKeys | backend/app/api/config.py:32-41 | The map's keys are exactly the stripped, lowercased tags that are not dropped. |
| TagVocabulary.TagMapFirstKey | backend/app/api/config.py:40-41 | Each entry lowercases to its key and is the stripped spelling of the first tag with that key. |
| TagVocabulary.TagMapFirst | backend/app/api/config.py:32-41 | The first-spelling property holds for every key of the map. |
| TagVocabulary.SortedVocabularyKeys | backend/app/api/config.py:43 | Sorting the spellings by lowercase gives the sorted keys. |
| TagVocabulary.VocabularySorted | backend/app/api/config.py:37-43 | The vocabulary is strictly increasing by lowercase form, so no two entries are equal ignoring case. No entry is a dropped tag. |
| TagVocabulary.VocabularyCovers | backend/app/api/config.py:32-41 | Every kept tag is represented by an entry with its key. |
| TagVocabulary.VocabularyFirstSpelling | backend/app/api/config.py:32-41 | Every entry is the stripped spelling of the first occurrence of its lowercase key. |
| TagVocabulary.FileRowTags | backend/app/api/config.py:33-41 | The inner loop files one row's tags as the specification map does. |
| TagVocabulary.BuildVocabulary | backend/app/api/config.py:31-43 | The nested loop and the sort compute exactly `VocabularyOf` of the concatenated tag lists. |
| Metadata.LatestUpdateSpec | backend/app/api/metadata.py:16-19 | `max(..., default=None)` is absent iff no row has a timestamp. Otherwise it is some row's timestamp and no row's is later. |
| Metadata.MetadataOf | backend/app/api/metadata.py:13-20 | `total_entries` is the row count, and `last_updated` is absent iff no row has one. |
| Metadata.MetadataCache.constructor | backend/app/api/metadata.py:8-11 | The cache starts empty with timestamp 0. |
| Metadata.GetMetadata | backend/app/api/metadata.py:23-33 | An empty or stale cache is rebuilt and stamped with `now`. Otherwise the stored value is returned and nothing changes. |
| FlagCaches.Put | backend/app/api/config.py:61-62 | Storing fills the requested slot, keeps the other slot, and sets the shared timestamp. |
| FlagCaches.Hit | backend/app/api/config.py:57-64 | A filled slot within the TTL is served as stored and the cache is unchanged. |
| FlagCaches.Miss | backend/app/api/config.py:57-62 | An empty or expired slot is rebuilt. The value is stored and returned, the timestamp becomes `now`, and the other slot is kept. |
| FlagCaches.FirstRequestBuilds | backend/app/api/config.py:16-20 | From the initial state the first request for either flag builds. |
| FlagCaches.SharedTimestamp | backend/app/api/config.py:57-62 | Rebuilding one slot renews the other slot's entry, however old, for the next TTL. |
| FlagCaches.FlagCache.constructor | backend/app/api/config.py:16-20 | Both slots start empty with timestamp 0. |
| FlagCaches.FlagCache.Store | backend/app/api/config.py:61-62 | The object's new state is `Put` of its old state. |
| Config.BuildConfig | backend/app/api/config.py:23-49 | The response has the vocabulary of all tags, the row count and the latest update. |
| Config.ConfigTags | backend/app/api/config.py:37-43 | The tags are strictly sorted by lowercase and contain no NSFW tag unless allowed. Every kept tag of the catalog is represented. |
| Config.GetConfig | backend/app/api/config.py:52-64 | It serves the slot unless the slot is empty or older than the TTL. On a rebuild it stores the new value and restamps the shared timestamp. |
| Tags.RowTags | backend/app/api/tags.py:33 | `row["tags"] or []` row by row. |
| Tags.BuildTags | backend/app/api/tags.py:26-43 | The nested loop and the sort compute the vocabulary of the fetched rows. |
| Tags.NullRowIgnored | backend/app/api/tags.py:33 | A row whose tags are null changes nothing. |
| Tags.TagsSpec | backend/app/api/tags.py:37-43 | The entries are strictly sorted by lowercase and contain no NSFW tag unless allowed. |
| Tags.TagsAgreeWithConfig | backend/app/api/tags.py:26-43 | Over the same rows, `/tags` lists exactly the tags that `/config` lists. |
| Tags.GetTags | backend/app/api/tags.py:47-58 | It is the same cache discipline as `/config`, and it caches `{"tags": vocabulary}`. |
| PreferenceParser.LoadKnownTags | backend/app/services/openai_preference_parser.py:11-23 | The known tags are the catalog vocabulary. |
| PreferenceParser.KnownTagsSpec | backend/app/services/openai_preference_parser.py:19-23 | The known tags are strictly sorted by lowercase and contain no NSFW tag unless allowed. |
| PreferenceParser.Postprocess | backend/app/services/openai_preference_parser.py:42-66 | The parser raises exactly when the model call fails or the reply decodes to something other than an object. A decode failure gives three empty lists plus `[query]`. An object with truthy moods is returned unchanged; otherwise only its moods change, to `[query]`. The moods of a result are always truthy. |
| PreferenceParser.ParsePreferences | backend/app/services/openai_preference_parser.py:25-66 | The result is the post-processed reply of the model, asked with the known tags. When there is one, its moods are truthy. |
| Recommend.EndpointKeysDiffer | backend/app/api/recommend.py:18-27 | `/recommend` and `/recommend/more` never share a cache key, whatever the bodies. |
| Recommend.InvalidIdsOf | backend/app/api/recommend.py:62 | The invalid list holds exactly the unknown ids. It is empty iff every id is in the catalog. |
| Recommend.ExcludedIds | backend/app/api/recommend.py:70 | The excluded set is liked ∪ disliked ∪ exclude. |
| Recommend.CandidatesOf | backend/app/api/recommend.py:71 | The candidates are exactly the catalog rows whose id is not excluded. |
| Recommend.GetByIds | backend/app/services/db_loader.py:78-88 | No ids give `[]`. Otherwise every catalog row with a requested id is returned, as its selected columns, and every returned row is such a projection. |
| Recommend.OutcomeInvalid | backend/app/api/recommend.py:61-67 | The request fails with `InvalidIds` iff some liked or disliked id is unknown. The error then lists exactly those ids, in order. |
| Recommend.OutcomeEmbedding | backend/app/api/recommend.py:77-90 | With valid ids, the request fails with status 500 iff the semantic query is non-empty and the embedding call fails. |
| Recommend.ScoredItemOk | backend/app/api/recommend.py:69-102 | Every ranked item is a non-excluded catalog row. It is NSFW only if allowed, it is tagged, and its score is in (0, 1]. |
| Recommend.RespondTake | backend/app/api/recommend.py:104-118 | The response is the first `min(limit, n)` ranked items, in order, with their scores and overlaps and the fixed note. |
| Recommend.OutcomeSuccess | backend/app/api/recommend.py:61-118 | A success holds the first `limit` ranked items. Every item is acceptable and the scores are non-increasing. |
| Recommend.ResponseOkExtends | backend/app/api/recommend.py:53-55 | A response acceptable for the merged request is acceptable for the original one. |
| Recommend.InvalidSurvivesMerge | backend/app/api/recommend.py:53-67 | Merging only adds ids, so an unknown id in the request still fails it. |
| Recommend.Union | backend/app/api/recommend.py:53-55 | `list(set(a + b))` holds each element of either list exactly once. |
| Recommend.Resolve | backend/app/api/recommend.py:39-56 | Without a query the request is unchanged. With one, it raises exactly when the parser raises or `mapped_tags` is null or not a list. Otherwise liked, disliked and moods are the duplicate-free unions with the resolved titles and mapped tags. The semantic query is the space-join of the moods, or of a string's characters when the moods are a string. |
| Recommend.BuildResponse | backend/app/api/recommend.py:104-118 | The response loop builds exactly the projected prefix. |
| Recommend.SemanticQueryOnlyFails | backend/app/api/recommend.py:77-102 | When no catalog row carries an embedding, as `load_anime_data` loads them, a successful outcome is the same with the semantic query dropped. |
| Recommend.Evaluate | backend/app/api/recommend.py:61-118 | Validation, exclusion, the embedding and scoring compute exactly `Outcome`. |
| Recommend.RecommendCache.constructor | backend/app/api/recommend.py:13 | The cache starts empty. |
| Recommend.GenerateRecommendations | backend/app/api/recommend.py:26-125 | A hit younger than the TTL is returned with the cache unchanged. On a miss, a resolution that raises gives a 500. Otherwise the result is exactly `Outcome` of the resolved request, which is the request itself when there is no query. A success is stored under the key, stamped with `now`, and is acceptable for the request. A failure leaves the cache unchanged, and an unknown id always fails. |
| Search.FormatAll | backend/app/api/search.py:39-51 | Each row is formatted, in order. |
| Search.BlankQuery | backend/app/api/search.py:13-15 | A blank or whitespace-only query returns `[]`. |
| Search.AtMostLimit | backend/app/api/search.py:54 | For `limit >= 0` at most `limit` hits are returned. |
| Search.MatchesSpec | backend/app/api/search.py:22-37 | The matches are exactly the visible catalog rows with a lowercased title containing the query. Prefix matches precede substring-only matches, and no row is listed more often than it occurs. |
| Search.ResultsSpec | backend/app/api/search.py:37-54 | The hits are the formatted matches, in order, cut to the limit. |
| Search.SearchCatalog | backend/app/api/search.py:7-54 | The single pass with two accumulators computes exactly `SearchResults`. |
| FrontendUtils.MatchesQuerySpec | frontend/src/lib/utils.ts:1-2 | A whitespace-only query matches every title. Any other query matches iff the lowercased title contains the trimmed, lowercased query. |
| FrontendUtils.PrefixMatches | frontend/src/lib/utils.ts:1-2 | A title that starts with the query, ignoring case, matches it. |
| FrontendUtils.TrimsDiffer | frontend/src/lib/utils.ts:2 | JavaScript `trim` and Python `strip` disagree on U+FEFF and U+0085. |
| FrontendUtils.Truncate | frontend/src/lib/utils.ts:4-5 | Empty stays empty and a string of at most `n` characters is kept. A longer one becomes its first `n` characters plus "…", `n + 1` long. |
| FrontendUtils.TruncateShape | frontend/src/lib/utils.ts:4-5 | The result is the string or a proper prefix of it followed by an ellipsis. |
| AnimeTable.Truthy | backend/scripts/etl_import_to_pg.py:60 | The truthy entries of `xs or []`, in order. |
| AnimeTable.DistinctTruthy | backend/scripts/etl_import_to_pg.py:58 | The truthy entries, each once. |
| AnimeTable.EmbeddingOrNull | backend/scripts/etl_import_to_pg.py:67 | An absent or empty embedding becomes null. Any other is kept. |
| EtlImport.EtlRowSpec | backend/scripts/etl_import_to_pg.py:55-68 | Tags are the truthy tags lowercased, in order. Alternate titles are the truthy ones, each once. The flag defaults to false and the episode count to 0, and an empty embedding becomes null. |
| EtlImport.EtlRows | backend/scripts/etl_import_to_pg.py:54-69 | There is one row per entry, in order. |
| EtlImport.BuildRows | backend/scripts/etl_import_to_pg.py:53-69 | The inner loop builds exactly the rows of the batch. |
| EtlImport.Import | backend/scripts/etl_import_to_pg.py:15-73 | A missing file fails before any batch is built. Otherwise the batches are the rows of consecutive slices of fifty entries. |
| EtlImport.ImportCovers | backend/scripts/etl_import_to_pg.py:50-53 | The batches cover every row exactly once, in order, with 1 to 50 rows each. |
| MalText.ReplaceSeparators | backend/scripts/mal_data_fetcher.py:35 | The length is kept and no U+2028 or U+2029 remains. |
| MalText.CleanTextSpec | backend/scripts/mal_data_fetcher.py:33-36 | Falsy input gives "". No result holds U+2028 or U+2029 or has whitespace at either end. |
| MalText.IsNsfw | backend/scripts/mal_data_fetcher.py:39-52 | A rating containing `r+`/`rx`, a hentai or ecchi genre, or a sexual-content or adult-cast theme makes it true. Otherwise it is true iff the synopsis has a listed whole word. |
| MalText.WordBoundaries | backend/scripts/mal_data_fetcher.py:50 | `\b` matters: "Sex." is flagged and "Sussex" is not. |
| MalText.SubFromNoMatch | backend/scripts/mal_data_fetcher.py:56-61 | A substitution with no match leaves the text unchanged. |
| MalText.SubAll | backend/scripts/mal_data_fetcher.py:56-61 | Deleting matches never lengthens the title. |
| MalText.CleanTitleSpec | backend/scripts/mal_data_fetcher.py:55-62 | The cleaned title is stripped and not longer. A title with none of the six patterns is only stripped. |
| MalText.SubAllNoMatch | backend/scripts/mal_data_fetcher.py:56-61 | With no pattern matching, the substitutions change nothing. |
| MalText.SeasonSuffix | backend/scripts/mal_data_fetcher.py:56 | A season suffix goes together with the spaces before it: "K Season 2" becomes "K". |
| MalGrouping.FirstPrequelSpec | backend/scripts/mal_data_fetcher.py:139-141 | The prequel followed is the first relation of type "prequel", ignoring case. There is none iff no relation has that type. |
| MalGrouping.PrequelIsTarget | backend/scripts/mal_data_fetcher.py:139-141 | The prequel followed is a relation target. |
| MalGrouping.LogSetValid | backend/scripts/mal_data_fetcher.py:184 | Logging a title records it and keeps each id once in insertion order. |
| MalGrouping.FirstWhereSpec | backend/scripts/mal_data_fetcher.py:143-147 | A first-match search finds nothing iff no key qualifies; otherwise it finds a qualifying key with none before it. |
| MalGrouping.FirstSameTitleSpec | backend/scripts/mal_data_fetcher.py:143-147 | The title fallback returns the first other logged id, in insertion order, with an equal cleaned title. There is none iff no such id exists. |
| MalGrouping.FindRootWalk | backend/scripts/mal_data_fetcher.py:109-141 | Without a title, the root is where the first-prequel walk stops: at a visited id, an id without a prequel, or a repeat. |
| MalGrouping.FindRootTitle | backend/scripts/mal_data_fetcher.py:143-148 | With no prequel and a non-empty title, the root is the first other logged id with the same cleaned title, else the id itself. |
| MalGrouping.FindRootIgnoresTitle | backend/scripts/mal_data_fetcher.py:112-141 | A visited id or one with a prequel is resolved without looking at the title. |
| MalGrouping.Attach | backend/scripts/mal_data_fetcher.py:214-218 | The member is added once, existing children are kept, and no other child appears. A stored title is kept. A row without one takes the member's own title when the member is the root, and stays without one otherwise. No other field changes. |
| MalGrouping.NewGroupRow | backend/scripts/mal_data_fetcher.py:189-212 | A new group row has the root id and the stripped distinct titles. It has the first member's data, zero episodes, no children and `now`. |
| MalGrouping.GroupOne | backend/scripts/mal_data_fetcher.py:182-218 | One entry logs its title, finds its root, and opens the group from the open row, the stored row or a new row. Then the entry is attached to it. |
| MalGrouping.RootsOfSpec | backend/scripts/mal_data_fetcher.py:181-185 | Entry `j`'s root is `find_root_anime` of it, with the titles of entries `0..j` logged. |
| MalGrouping.ProcessedSnoc | backend/scripts/mal_data_fetcher.py:185-215 | Processing one more entry puts exactly its own id under its own root. |
| MalGrouping.StepMembers | backend/scripts/mal_data_fetcher.py:185-215 | Entries already processed stay members of their roots' groups, and the new entry joins its root's group. |
| MalGrouping.StepChildren | backend/scripts/mal_data_fetcher.py:187-215 | After a step, a group's members are still its stored members and the entries rooted at it. |
| MalGrouping.StepRows | backend/scripts/mal_data_fetcher.py:187-218 | After a step, each group row is still its stored row, or else the new row of its first entry, outside members, title and total. |
| MalGrouping.RootTitleSpec | backend/scripts/mal_data_fetcher.py:202-218 | The title a root's own entries give its group exists iff the root has been processed, and it is the title of the first processed entry that is the root itself. |
| MalGrouping.RootTitleSnoc | backend/scripts/mal_data_fetcher.py:202-218 | One more entry sets that title only if none was set yet and the entry is its own root. |
| MalGrouping.StepTitles | backend/scripts/mal_data_fetcher.py:202-218 | After a step, a group's title is its stored title when it had one, else the title of the first processed entry that is the root itself, else none. |
| MalGrouping.StepOrder | backend/scripts/mal_data_fetcher.py:187-215 | Each group is opened once, in order, and members stay listed once when the stored rows list them once. |
| MalGrouping.StepGrouped | backend/scripts/mal_data_fetcher.py:185-218 | One step keeps members, keys, rows and titles of the grouping as specified, with the new entry and its root added. |
| MalGrouping.GroupStep | backend/scripts/mal_data_fetcher.py:181-218 | One step keeps the grouping invariant, with the new entry and its root added. |
| MalGrouping.GroupNext | backend/scripts/mal_data_fetcher.py:182-218 | Pass `i` logs entry `i`'s title and keeps the grouping invariant, with entry `i` and its root added. |
| MalGrouping.GroupAll | backend/scripts/mal_data_fetcher.py:181-218 | After the first loop each group is opened once, in order. Every entry is a member of its own root's group, and every group is some entry's root. A group's members are its stored members plus the entries rooted at it. Its row is the stored row or the new row of its first entry. Its title is the stored title when present, else the title of the first processed entry that is the root itself, else none. |
| MalGrouping.EpisodeSumAppend | backend/scripts/mal_data_fetcher.py:229 | The episode total is additive over concatenation. |
| MalGrouping.EpisodeSumBound | backend/scripts/mal_data_fetcher.py:229 | Every member's count is part of its group's total. |
| MalGrouping.FillTotals | backend/scripts/mal_data_fetcher.py:225-230 | The second loop writes every group row back with its episode total and leaves every other stored row as it was. |
| MalGrouping.GroupedWithTotals | backend/scripts/mal_data_fetcher.py:229-230 | Filling in the totals keeps each group's members, title and row. |
| MalGrouping.BuildGroupedDb | backend/scripts/mal_data_fetcher.py:177-236 | Every processed entry is a member of its own root's group, and every group is some entry's root. A group's members are its stored members plus the entries rooted at it, each listed once when the stored rows list each once. Outside members, title and total, a group row is its stored row or the new row of its first entry. Its title is the stored title when present, else the title of the first processed entry that is the root itself, else none. Each group's total is the sum of its members' counts, and other stored rows are untouched. |
| MalUpdate.SeasonOfMonth | backend/scripts/mal_data_fetcher.py:260 | Months 1-3, 4-6, 7-9 and 10-12 are winter, spring, summer and fall. |
| MalUpdate.PrevSeasonCyclic | backend/scripts/mal_data_fetcher.py:261-262 | The previous season is the cyclic predecessor. The year drops by one iff the season is winter. |
| MalUpdate.PreviousQuarter | backend/scripts/mal_data_fetcher.py:260-262 | The previous season and year are those of the month three months earlier. |
| MalUpdate.SelectKeys | backend/scripts/mal_data_fetcher.py:270-275 | The kept ids are distinct. They are exactly the ids that are new or currently airing. |
| MalUpdate.SelectLast | backend/scripts/mal_data_fetcher.py:270-275 | Each id keeps its last qualifying entry, so later duplicates overwrite earlier ones. |
| MalUpdate.FilterNewOrAiring | backend/scripts/mal_data_fetcher.py:270-275 | The filtering loop computes exactly `Select`. |
| MalUpdate.UpdatedSplit | backend/scripts/mal_data_fetcher.py:284-288 | Every kept id is either listed with its row or reported missing, never both. |
| MalUpdate.CollectUpdated | backend/scripts/mal_data_fetcher.py:281-288 | The collecting loop computes both lists. |
| MalUpdate.MalRowSpec | backend/scripts/mal_data_fetcher.py:342-355 | Tags are the non-empty ones, unchanged and in order: a non-empty tag lands at the index that counts the non-empty tags before it. Alternate titles are the non-empty ones, each once, and an empty embedding is null. |
| MalUpdate.MalRows | backend/scripts/mal_data_fetcher.py:341-356 | There is one row per entry, in order. |
| MalUpdate.BuildMalRows | backend/scripts/mal_data_fetcher.py:340-356 | The inner loop builds exactly the rows of a batch. |
| MalUpdate.UpsertBatches | backend/scripts/mal_data_fetcher.py:338-356 | The batches are the rows of consecutive slices of fifty entries. |
| HeaderSearchUi.Without | frontend/src/components/search/HeaderSearch.tsx:168 | Filtering out an id keeps every other element and preserves duplicate-freedom. |
| HeaderSearchUi.AddOnceSpec | frontend/src/components/search/HeaderSearch.tsx:167 | Adding through a `Set` keeps each id once. On a duplicate-free list it appends the id unless it is already present. |
| HeaderSearchUi.LikeSpec | frontend/src/components/search/HeaderSearch.tsx:166-170 | After `like(id)` the id is liked, not disliked and not in the results. The liked list is only extended, and the invariant is kept. |
| HeaderSearchUi.DislikeSpec | frontend/src/components/search/HeaderSearch.tsx:171-175 | After `dislike(id)` the id is disliked, not liked and not in the results. The invariant is kept. |
| HeaderSearchUi.RemoveSpec | frontend/src/components/search/HeaderSearch.tsx:176-189 | Removal takes the id out and keeps the invariant. A known item that matches the text in search mode heads the results once; otherwise the results are unchanged. |
| HeaderSearchUi.FindRec | frontend/src/components/search/HeaderSearch.tsx:76 | `recs.find` returns the first recommendation with the id, or nothing iff none has it. |
| HeaderSearchUi.RecIds | frontend/src/components/search/HeaderSearch.tsx:247 | The ids of the recommendations, in order. |
| HeaderSearchUi.WatchedSpec | frontend/src/components/search/HeaderSearch.tsx:74-87 | Marking adds the id to watched once and drops it from the recommendations, keeping the others. It remembers the item and keeps the invariant. Unmarking removes the id. |
| HeaderSearchUi.AddQuerySpec | frontend/src/components/search/HeaderSearch.tsx:157-163 | A trimmed, non-empty, new query is appended and clears the text. Otherwise nothing changes, and the invariant is kept. |
| HeaderSearchUi.RemoveQuerySpec | frontend/src/components/search/HeaderSearch.tsx:164 | Removal drops exactly that query and keeps the invariant. |
| HeaderSearchUi.ToggleFiltersTwice | frontend/src/components/search/HeaderSearch.tsx:198-201 | Toggling the filters from another panel opens them. Toggling twice returns to that panel, open. |
| HeaderSearchUi.ToggleModeSpec | frontend/src/components/search/HeaderSearch.tsx:191-196 | The mode alternates. Query mode shows the lists, and search mode stays open iff the text is non-blank. |
| HeaderSearchUi.ToggleTagSpec | frontend/src/components/search/HeaderSearch.tsx:327 | The toggle flips membership of the tag and leaves every other tag as it was. |
| HeaderSearchUi.MoreRecsAreNew | frontend/src/components/search/HeaderSearch.tsx:241-251 | A backend response honouring the "more" payload repeats no watched, shown, liked or disliked id and has at most 20 items. |
| HeaderSearchUi.PayloadSpec | frontend/src/components/search/HeaderSearch.tsx:216-249 | Both payloads ask for 20 items, send the queries only in query mode and exclude the watched ids. The "more" payload also excludes the current recommendations. |
| HeaderSearchUi.HeaderSearch.constructor | frontend/src/components/search/HeaderSearch.tsx:17-55 | The initial state comes from the stored watched list and satisfies the invariant. |
| HeaderSearchUi.HeaderSearch.Like | frontend/src/components/search/HeaderSearch.tsx:166-170 | The new state is `LikeOf` of the old one. |
| HeaderSearchUi.HeaderSearch.Dislike | frontend/src/components/search/HeaderSearch.tsx:171-175 | The new state is `DislikeOf` of the old one. |
| HeaderSearchUi.HeaderSearch.RemoveFromLiked | frontend/src/components/search/HeaderSearch.tsx:176-182 | The new state is `RemoveFromLikedOf` of the old one. |
| HeaderSearchUi.HeaderSearch.RemoveFromDisliked | frontend/src/components/search/HeaderSearch.tsx:183-189 | The new state is `RemoveFromDislikedOf` of the old one. |
| HeaderSearchUi.HeaderSearch.MarkWatched | frontend/src/components/search/HeaderSearch.tsx:74-83 | The new state is `MarkWatchedOf` of the old one. |
| HeaderSearchUi.HeaderSearch.UnmarkWatched | frontend/src/components/search/HeaderSearch.tsx:85-87 | The new state is `UnmarkWatchedOf` of the old one. |
| HeaderSearchUi.HeaderSearch.AddQuery | frontend/src/components/search/HeaderSearch.tsx:157-163 | The new state is `AddQueryOf` of the old one. |
| HeaderSearchUi.HeaderSearch.RemoveQuery | frontend/src/components/search/HeaderSearch.tsx:164 | The new state is `RemoveQueryOf` of the old one. |
| HeaderSearchUi.HeaderSearch.ToggleMode | frontend/src/components/search/HeaderSearch.tsx:191-196 | The new state is `ToggleModeOf` of the old one. |
| HeaderSearchUi.HeaderSearch.ToggleFilters | frontend/src/components/search/HeaderSearch.tsx:198-201 | The panel fields change as `ToggleFiltersOf` says, and nothing else changes. |
| HeaderSearchUi.HeaderSearch.ToggleSelectedTag | frontend/src/components/search/HeaderSearch.tsx:326-328 | The selected tags become `ToggleTag` of the old ones, and nothing else changes. |
| HeaderSearchUi.HeaderSearch.SendForRecs | frontend/src/components/search/HeaderSearch.tsx:225-228 | The response replaces the recommendations and the recommendations panel opens. |
| HeaderSearchUi.HeaderSearch.SendForMoreRecs | frontend/src/components/search/HeaderSearch.tsx:250-251 | The new items are appended to the recommendations. |

## Left out

These inputs are parameters or abstractions:

- **Foreign services.** The language model, the embedding service, the MAL HTTP API (with its retries and sleeps) and Postgres are not modelled.
  - The catalog is a sequence parameter.
  - The model's reply is the `llm` parameter: a failed call, a decode failure, a value that is not an object, or a decoded object.
  - Embeddings come from the `embed` parameter; `None` stands for the exception that becomes status 500.
  - MAL relations are a map, and episode counts are a function.
  - `backend/scripts/mal_token_fetcher.py` is not part of this model.
- **Numerics.** numpy's `dot`, `norm` and `mean` are uninterpreted functions, and scores are `real`, not IEEE doubles. The response's `round(score, 4)` (recommend.py:112) is not modelled, so response scores are the exact normalised values.
- **Fuzzy matching.** `fuzz.ratio` is an uninterpreted function into 0..100, and none of its properties is assumed.
- **JSON.**
  - `json.dumps` of a request is the `serialize` parameter.
  - `json.loads` is a decode parameter in `EnsureList`.
  - `main_picture` is stored as a value, not as JSON text.
  - `ensure_dict` is not modelled.
- **Clock.** `time()` and `datetime.now()` are parameters. `build_grouped_db` reads `datetime.now()` once per new group row (mal_data_fetcher.py:211); the model stamps every new row of one run with the same `now`.
- **Concurrency.** The module-level cache dicts are modelled sequentially.
- **Loader projections.** `load_anime_data` does not select the embedding column, and `get_by_ids` selects neither embeddings nor children and update times. `Recommend.GetByIds` clears those fields, so in the pipeline the liked-embedding similarity is always 0.0. The query similarity is always 0.0 too, because the catalog rows carry no embedding. The model still lets catalog rows carry embeddings, as the scorer handles them. `Recommend.SemanticQueryOnlyFails` proves that, with rows as the loader produces them, the semantic query matters only through the 500 on an embedding failure. `get_by_ids` returns rows in database order; the model uses catalog order.
- **`list(set(...))` order.** Python leaves it unspecified. Methods use `SetToSeq`, which promises no order. The upsert rows (`AnimeTable.DistinctTruthy`, `MalUpdate.MalRow`) keep first occurrences; this is one admissible order.
- **Case and whitespace.**
  - `str.lower`, `toLowerCase` and the `IGNORECASE` regex flag are modelled on ASCII letters only.
  - `\w` is ASCII word characters, `\d` is the ASCII digits and `\s` is Python whitespace.
  - JavaScript string lengths count UTF-16 units; the model counts characters.

Some values are simplified:

- A falsy timestamp (`0`) is treated as present. Stored timestamps are date-times, which are always truthy.
- A missing or null title is `None`. In list columns, a null entry and an empty string are both falsy and are written as "". Where the source strips a tag (config.py:34, tags.py:34, openai_preference_parser.py:17), a null entry would raise `AttributeError`, while the model files it under "". Stored rows never hold one, since both ingestion scripts drop falsy tags (etl_import_to_pg.py:60, mal_data_fetcher.py:347).
- `PreferenceParser.Postprocess`: a title list that is present but not a list is not modelled, and a missing or null one is the empty list. A truthy `semantic_moods` that is neither a list nor a string, or a list holding a non-string, makes `" ".join` raise; neither is modelled.
- `Catalog.EnsureList`: a JSON text that decodes to a non-list value, and `list(val)` over a non-list iterable, are not distinguished from a decoded list.
- `MalGrouping.FindRoot`: `existing_titles` persists across calls of `build_grouped_db` in the script. The model starts each run with an empty log. A stored group row without `children_ids` is modelled with an empty list; the script would raise on it.

Some parts are not modelled:

- **Script side effects.** These parts of the MAL script are not modelled:
  - the embedding stage (mal_data_fetcher.py:295-309);
  - the JSON backup;
  - the printing of missing ids;
  - the progress logs.
- **`HeaderSearch` effects.** These are not modelled:
  - `localStorage` persistence;
  - fetching of tags, config and search results;
  - the debounced search;
  - the panel effect on `hasLists` (HeaderSearch.tsx:147-154), which opens the lists panel when the liked or disliked list becomes non-empty and leaves it when both become empty. `LikeOf`, `DislikeOf`, `RemoveFromLikedOf` and `RemoveFromDislikedOf` therefore never change the panel;
  - Enter-key handling, opening the details modal, and the indexing of search results into `itemsById`;
  - the loading flag and scroll restoration.

  `SendForRecs` and `SendForMoreRecs` take the arrived response as a parameter. A recommendation without a title is remembered with the empty title.
- **Output-only code.** The `print` logging in `/recommend` and the scripts is not modelled.

Some structure differs from the source:

- Where the source nests loops, the inner loop is a separate method: `FirstFuzzyHit`, `AppendRowHits`, `FileRowTags`, `BuildRows`, `BuildMalRows`.
- Some loop bodies are separate methods as well: `Hybrid.ScoreOne` for the scoring loop, `MalGrouping.GroupOne` and `MalGrouping.GroupNext` for the first loop of `build_grouped_db`, `MalGrouping.FillTotals` for its second loop, `Catalog.NormalizeRow` for `_normalize_titles_inplace`.
- `StableSort.SortInPlace` sorts an array of scored triples, as `out.sort` sorts the list in place.
- `HeaderSearchUi.HeaderSearch.ToggleFilters` and `HeaderSearchUi.HeaderSearch.ToggleSelectedTag` are specified through the pure transitions rather than restated field by field.
