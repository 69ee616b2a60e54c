/**
 * `_generate_recommendations`, behind `/recommend` and `/recommend/more`:
 * the per-request result cache, the merge of the parsed free-text
 * preferences into the request, id validation, the exclusion set, the
 * call to the hybrid scorer, and truncation to `limit`.
 */
module Recommend {
  import opened Wrappers
  import opened Seqs
  import opened Text
  import opened Catalog
  import opened StableSort
  import opened Hybrid
  import TitleResolver
  import PreferenceParser
  import Config

  /** Seconds a cached response stays valid. */
  const CacheTtl: real := 60.0

  /** The weights this endpoint passes to the scorer. */
  const RecommendWeights := Weights(0.35, 0.25, 0.40)

  const ReasonNote := "Matched using tag overlap, liked anime similarity, and query similarity."

  const RecommendEndpoint := "recommend"
  const RecommendMoreEndpoint := "recommend_more"

  /** The request body; `query` is the user's free text, `semanticQuery` is filled from it. */
  datatype RecommendRequest = RecommendRequest(
    likedIds: seq<int>,
    dislikedIds: seq<int>,
    moods: seq<string>,
    excludeIds: seq<int>,
    nsfwOk: bool,
    limit: int,
    query: Option<string>,
    semanticQuery: Option<string>)

  /** A request with every field at its declared default. */
  const DefaultRequest := RecommendRequest([], [], [], [], false, 10, None, None)

  /** The response's view of a row: the fields of the `Anime` response schema. */
  datatype AnimeOut = AnimeOut(
    id: int,
    title: Option<string>,
    mainPicture: Option<Picture>,
    tags: seq<string>,
    synopsis: Option<string>,
    rating: Option<string>,
    isNsfw: bool,
    totalEpisodes: int)

  datatype RecommendReason = RecommendReason(overlapTags: seq<string>, note: Option<string>)

  datatype ScoredAnime = ScoredAnime(anime: AnimeOut, score: real, reason: RecommendReason)

  /**
   * How a request fails: the 400 for unknown ids, the 500 for a failed
   * embedding call, and an exception that escapes the handler (which the
   * framework answers with a 500).
   */
  datatype RecommendError = InvalidIds(ids: seq<int>) | EmbeddingFailed | Unhandled

  /** The cache key: the endpoint name, a colon, and the serialised request. */
  function CacheKey(endpoint: string, body: string): string {
    endpoint + ":" + body
  }

  /** The two endpoints never share a cache entry, whatever the bodies. */
  lemma EndpointKeysDiffer(body: string, other: string)
    ensures CacheKey(RecommendEndpoint, body) != CacheKey(RecommendMoreEndpoint, other)
  {
    assert CacheKey(RecommendEndpoint, body)[9] == ':';
    assert CacheKey(RecommendMoreEndpoint, other)[9] == '_';
  }

  /** Python truthiness of an optional string. */
  predicate IsSet(s: Option<string>) {
    s.Some? && s.value != ""
  }

  function CatalogIds(data: seq<Anime>): set<int> {
    set a | a in data :: a.id
  }

  /** `[i for i in ids if i not in all_ids]`: the unknown ids, in order, repeats kept. */
  function InvalidIdsOf(ids: seq<int>, data: seq<Anime>): (r: seq<int>)
    ensures forall i :: i in r <==> i in ids && i !in CatalogIds(data)
    ensures r == [] <==> forall i :: i in ids ==> i in CatalogIds(data)
  {
    var r := Filter(ids, i => i !in CatalogIds(data));
    assert r != [] ==> r[0] in r && r[0] in ids && r[0] !in CatalogIds(data);
    assert (exists i :: i in ids && i !in CatalogIds(data)) ==> r != [];
    r
  }

  /** `set(liked_ids) | set(disliked_ids) | set(exclude_ids)`. */
  function ExcludedIds(r: RecommendRequest): (x: set<int>)
    ensures forall i :: i in x <==> i in r.likedIds || i in r.dislikedIds || i in r.excludeIds
  {
    (set i | i in r.likedIds) + (set i | i in r.dislikedIds) + (set i | i in r.excludeIds)
  }

  /** The catalog rows whose id is not excluded, in catalog order. */
  function CandidatesOf(data: seq<Anime>, excluded: set<int>): (r: seq<Anime>)
    ensures forall a :: a in r <==> a in data && a.id !in excluded
  {
    Filter(data, (a: Anime) => a.id !in excluded)
  }

  /** A row as `get_by_ids` selects it: without children, update time or embedding. */
  function Selected(a: Anime): Anime {
    a.(childrenIds := [], lastUpdated := None, embedding := [])
  }

  /** `get_by_ids`: the rows with one of the ids, as selected, in catalog order. */
  function GetByIds(data: seq<Anime>, ids: seq<int>): (r: seq<Anime>)
    ensures ids == [] ==> r == []
    ensures ids != [] ==> forall a :: a in data && a.id in ids ==> Selected(a) in r
    ensures forall x :: x in r ==> exists a :: a in data && a.id in ids && x == Selected(a)
    ensures |r| <= |data|
  {
    if ids == [] then []
    else
      var rows := Filter(data, (a: Anime) => a.id in ids);
      assert forall i :: 0 <= i < |rows| ==> rows[i] in rows;
      var r := seq(|rows|, i requires 0 <= i < |rows| => Selected(rows[i]));
      assert forall a :: a in data && a.id in ids ==> Selected(a) in r by {
        forall a | a in data && a.id in ids
          ensures Selected(a) in r
        {
          var j :| 0 <= j < |rows| && rows[j] == a;
          assert r[j] == Selected(a);
        }
      }
      r
  }

  /** The response's view of a catalog row. */
  function Project(a: Anime): AnimeOut {
    AnimeOut(a.id, a.title, a.mainPicture, a.tags, a.synopsis, a.rating, a.isNsfw, a.totalEpisodes)
  }

  function Respond(scored: seq<Scored>): seq<ScoredAnime> {
    seq(|scored|, i requires 0 <= i < |scored| =>
      ScoredAnime(Project(scored[i].anime), scored[i].score, RecommendReason(scored[i].overlap, Some(ReasonNote))))
  }

  /** The embedding of a non-empty semantic query, the failure of that call, or no embedding. */
  function QueryEmbedding(semanticQuery: Option<string>, embed: string -> Option<seq<real>>)
    : Result<Option<seq<real>>, RecommendError>
  {
    if !IsSet(semanticQuery) then Success(None)
    else if embed(semanticQuery.value).None? then Failure(EmbeddingFailed)
    else Success(embed(semanticQuery.value))
  }

  function ContextFor(r: RecommendRequest, data: seq<Anime>, queryEmbedding: Option<seq<real>>, num: Numerics)
    : Context
  {
    MakeContext(GetByIds(data, r.likedIds), GetByIds(data, r.dislikedIds), r.moods, r.nsfwOk,
                queryEmbedding, RecommendWeights, num)
  }

  /** The scorer's ranking of the candidates. */
  function Scoring(r: RecommendRequest, data: seq<Anime>, queryEmbedding: Option<seq<real>>, num: Numerics)
    : seq<Scored>
  {
    Rank(CandidatesOf(data, ExcludedIds(r)), ContextFor(r, data, queryEmbedding, num))
  }

  /** What the pipeline answers for a request whose preferences are already merged. */
  function Outcome(r: RecommendRequest, data: seq<Anime>, embed: string -> Option<seq<real>>, num: Numerics)
    : Result<seq<ScoredAnime>, RecommendError>
  {
    var invalid := InvalidIdsOf(r.likedIds + r.dislikedIds, data);
    if invalid != [] then Failure(InvalidIds(invalid))
    else
      match QueryEmbedding(r.semanticQuery, embed)
      case Failure(e) => Failure(e)
      case Success(qe) => Success(Respond(Take(Scoring(r, data, qe, num), r.limit)))
  }

  /**
   * What every response item satisfies: it is none of the liked, disliked
   * or excluded ids, it is NSFW only if allowed, it has tags, its score is
   * in (0, 1], it carries the fixed note, and it is a row of the catalog.
   */
  predicate ItemOk(r: RecommendRequest, data: seq<Anime>, s: ScoredAnime) {
    && s.anime.id !in r.likedIds && s.anime.id !in r.dislikedIds && s.anime.id !in r.excludeIds
    && (r.nsfwOk || !s.anime.isNsfw)
    && s.anime.tags != []
    && 0.0 < s.score <= 1.0
    && s.reason.note == Some(ReasonNote)
    && exists a :: a in data && s.anime == Project(a)
  }

  /** The whole response: at most `limit` items, each acceptable, scores non-increasing. */
  predicate ResponseOk(r: RecommendRequest, data: seq<Anime>, items: seq<ScoredAnime>) {
    && (r.limit >= 0 ==> |items| <= r.limit)
    && (forall s :: s in items ==> ItemOk(r, data, s))
    && (forall i, j :: 0 <= i < j < |items| ==> items[i].score >= items[j].score)
  }

  /**
   * The request fails with `InvalidIds` exactly when some liked or disliked
   * id is not in the catalog, and then it lists exactly those ids, in order.
   */
  lemma OutcomeInvalid(r: RecommendRequest, data: seq<Anime>, embed: string -> Option<seq<real>>, num: Numerics)
    ensures (Outcome(r, data, embed, num).Failure? && Outcome(r, data, embed, num).error.InvalidIds?) <==>
            exists i :: i in r.likedIds + r.dislikedIds && i !in CatalogIds(data)
    ensures (exists i :: i in r.likedIds + r.dislikedIds && i !in CatalogIds(data)) ==>
            Outcome(r, data, embed, num) == Failure(InvalidIds(InvalidIdsOf(r.likedIds + r.dislikedIds, data)))
  {
  }

  /**
   * With valid ids, the request fails with `EmbeddingFailed` exactly when the
   * semantic query is non-empty and the embedding call fails.
   */
  lemma OutcomeEmbedding(r: RecommendRequest, data: seq<Anime>, embed: string -> Option<seq<real>>, num: Numerics)
    requires InvalidIdsOf(r.likedIds + r.dislikedIds, data) == []
    ensures Outcome(r, data, embed, num) == Failure(EmbeddingFailed) <==>
            IsSet(r.semanticQuery) && embed(r.semanticQuery.value).None?
  {
  }

  /** Every ranked item is an eligible, tagged, non-excluded catalog row with a score in (0, 1]. */
  lemma ScoredItemOk(r: RecommendRequest, data: seq<Anime>, qe: Option<seq<real>>, num: Numerics, c: Scored)
    requires c in Scoring(r, data, qe, num)
    ensures c.anime.id !in ExcludedIds(r) && c.anime in data
    ensures r.nsfwOk || !c.anime.isNsfw
    ensures c.anime.tags != []
    ensures 0.0 < c.score <= 1.0
  {
    var cands := CandidatesOf(data, ExcludedIds(r));
    var ctx := ContextFor(r, data, qe, num);
    RankItems(cands, ctx);
    RankScores(cands, ctx);
    assert c.anime in cands;
    TagSetSpec(c.anime);
  }

  /** The response for `scored[:limit]` keeps the order, scores and rows of the ranked prefix. */
  lemma RespondTake(sc: seq<Scored>, limit: int)
    ensures var items := Respond(Take(sc, limit));
            && |items| == SliceEnd(|sc|, limit)
            && forall i :: 0 <= i < |items| ==>
                 items[i].score == sc[i].score && items[i].anime == Project(sc[i].anime) &&
                 items[i].reason == RecommendReason(sc[i].overlap, Some(ReasonNote))
  {
  }

  /**
   * A successful response holds the first `limit` ranked items (all of them
   * when `limit` is larger), and meets `ResponseOk`.
   */
  lemma OutcomeSuccess(r: RecommendRequest, data: seq<Anime>, embed: string -> Option<seq<real>>, num: Numerics)
    requires Outcome(r, data, embed, num).Success?
    ensures QueryEmbedding(r.semanticQuery, embed).Success?
    ensures var sc := Scoring(r, data, QueryEmbedding(r.semanticQuery, embed).value, num);
            var items := Outcome(r, data, embed, num).value;
            (r.limit >= 0 ==> |items| == if r.limit < |sc| then r.limit else |sc|) &&
            forall i :: 0 <= i < |items| ==> items[i].score == sc[i].score && items[i].anime == Project(sc[i].anime)
    ensures ResponseOk(r, data, Outcome(r, data, embed, num).value)
  {
    var qe := QueryEmbedding(r.semanticQuery, embed).value;
    var sc := Scoring(r, data, qe, num);
    var items := Respond(Take(sc, r.limit));
    assert Outcome(r, data, embed, num).value == items;
    RespondTake(sc, r.limit);
    forall s | s in items ensures ItemOk(r, data, s) {
      var i :| 0 <= i < |items| && items[i] == s;
      assert sc[i] in sc;
      ScoredItemOk(r, data, qe, num, sc[i]);
    }
    RankSpec(CandidatesOf(data, ExcludedIds(r)), ContextFor(r, data, qe, num));
    forall i, j | 0 <= i < j < |items| ensures items[i].score >= items[j].score {
      assert ScoreOf(sc[i]) >= ScoreOf(sc[j]);
    }
  }

  /** `load_anime_data` does not select the embedding column, so no loaded row has one. */
  predicate NoEmbeddings(data: seq<Anime>) {
    forall a :: a in data ==> a.embedding == []
  }

  /**
   * Over a catalog as loaded, the semantic query can only fail the request:
   * when it succeeds, the response is the one for no semantic query at all.
   */
  lemma SemanticQueryOnlyFails(r: RecommendRequest, data: seq<Anime>, embed: string -> Option<seq<real>>, num: Numerics)
    requires NoEmbeddings(data)
    requires Outcome(r, data, embed, num).Success?
    ensures Outcome(r, data, embed, num) == Outcome(r.(semanticQuery := None), data, embed, num)
  {
    ScoringIgnoresQuery(r, data, QueryEmbedding(r.semanticQuery, embed).value, num);
  }

  /** Over a catalog without embeddings the ranking is the one for no query embedding and no semantic query. */
  lemma ScoringIgnoresQuery(r: RecommendRequest, data: seq<Anime>, qe: Option<seq<real>>, num: Numerics)
    requires NoEmbeddings(data)
    ensures Scoring(r, data, qe, num) == Scoring(r.(semanticQuery := None), data, None, num)
  {
    var r' := r.(semanticQuery := None);
    var cands := CandidatesOf(data, ExcludedIds(r));
    assert ExcludedIds(r') == ExcludedIds(r);
    assert ContextFor(r', data, None, num) == ContextFor(r, data, qe, num).(query := None);
    RankIgnoresQuery(cands, ContextFor(r, data, qe, num), None);
  }

  /** `r` carries at least the ids and moods of `req`, with its other settings. */
  predicate Extends(r: RecommendRequest, req: RecommendRequest) {
    && (forall i :: i in req.likedIds ==> i in r.likedIds)
    && (forall i :: i in req.dislikedIds ==> i in r.dislikedIds)
    && (forall m :: m in req.moods ==> m in r.moods)
    && r.excludeIds == req.excludeIds && r.nsfwOk == req.nsfwOk && r.limit == req.limit
  }

  /** A response acceptable for the merged request is acceptable for the original one. */
  lemma ResponseOkExtends(r: RecommendRequest, req: RecommendRequest, data: seq<Anime>, items: seq<ScoredAnime>)
    requires Extends(r, req) && ResponseOk(r, data, items)
    ensures ResponseOk(req, data, items)
  {
    forall s | s in items ensures ItemOk(req, data, s) {
      assert ItemOk(r, data, s);
    }
  }

  /** Merging can only add liked and disliked ids, so an unknown id still fails the request. */
  lemma InvalidSurvivesMerge(r: RecommendRequest, req: RecommendRequest, data: seq<Anime>,
                             embed: string -> Option<seq<real>>, num: Numerics)
    requires Extends(r, req)
    requires InvalidIdsOf(req.likedIds + req.dislikedIds, data) != []
    ensures Outcome(r, data, embed, num).Failure? && Outcome(r, data, embed, num).error.InvalidIds?
  {
    var i :| i in InvalidIdsOf(req.likedIds + req.dislikedIds, data);
    assert i in r.likedIds + r.dislikedIds;
    OutcomeInvalid(r, data, embed, num);
  }

  /** `list(set(xs + ys))`: every element of either list, once, in no particular order. */
  method Union<T(==,!new)>(xs: seq<T>, ys: seq<T>) returns (r: seq<T>)
    ensures NoDup(r)
    ensures forall x :: x in r <==> x in xs || x in ys
  {
    r := SetToSeq(set x | x in xs + ys);
  }

  /** `parse_preferences` of a request's query, or `None` when it raises. */
  function ParsedFor(req: RecommendRequest, data: seq<Anime>, llm: (seq<string>, string) -> PreferenceParser.LlmReply)
    : Option<PreferenceParser.Preferences>
    requires IsSet(req.query)
  {
    PreferenceParser.Postprocess(req.query.value, llm(Config.ConfigOf(data, req.nsfwOk).tags, req.query.value))
  }

  /**
   * The merge raises: the parser raised, or the reply's `mapped_tags` is
   * present but not a list, so adding it to the moods raises.
   */
  predicate ResolveFails(req: RecommendRequest, data: seq<Anime>, llm: (seq<string>, string) -> PreferenceParser.LlmReply) {
    IsSet(req.query) && (ParsedFor(req, data, llm).None? || ParsedFor(req, data, llm).value.mappedTags.None?)
  }

  /**
   * `r` is the request after the merge: the request as sent without a
   * query; otherwise the duplicate-free unions of the liked and disliked
   * ids with the titles' matches and of the moods with the mapped tags,
   * and the semantic query is the space-join of the moods.
   */
  ghost predicate ResolvedFrom(r: RecommendRequest, req: RecommendRequest, data: seq<Anime>,
                               ratio: (string, string) -> TitleResolver.Percent,
                               llm: (seq<string>, string) -> PreferenceParser.LlmReply)
  {
    && Extends(r, req) && r.query == req.query
    && (!IsSet(req.query) ==> r == req)
    && (IsSet(req.query) && !ResolveFails(req, data, llm) ==>
          var p := ParsedFor(req, data, llm).value;
          && NoDup(r.likedIds) && NoDup(r.dislikedIds) && NoDup(r.moods)
          && (forall i :: i in r.likedIds <==>
                i in req.likedIds || i in TitleResolver.MatchedIds(p.likedTitles, data, TitleResolver.DefaultThreshold, ratio))
          && (forall i :: i in r.dislikedIds <==>
                i in req.dislikedIds || i in TitleResolver.MatchedIds(p.dislikedTitles, data, TitleResolver.DefaultThreshold, ratio))
          && (forall m :: m in r.moods <==> m in req.moods || m in p.mappedTags.value)
          && r.semanticQuery == Some(Join(PreferenceParser.MoodWords(p.semanticMoods), " ")))
  }

  /**
   * Lines 39-56: with a non-empty free-text query, parse it and merge the
   * title matches, mapped tags and semantic moods into the request;
   * without one, the request is used as sent. The merge fails exactly
   * when it raises.
   */
  method Resolve(req: RecommendRequest, data: seq<Anime>, ratio: (string, string) -> TitleResolver.Percent,
                 llm: (seq<string>, string) -> PreferenceParser.LlmReply)
    returns (res: Result<RecommendRequest, RecommendError>)
    ensures res.Failure? <==> ResolveFails(req, data, llm)
    ensures res.Failure? ==> res.error == Unhandled
    ensures res.Success? ==> ResolvedFrom(res.value, req, data, ratio, llm)
  {
    if !IsSet(req.query) {
      return Success(req);
    }
    var parsed := PreferenceParser.ParsePreferences(data, req.query.value, req.nsfwOk, llm);
    if parsed.None? {
      return Failure(Unhandled);
    }
    var p := parsed.value;
    var likedIdsFromTitles := TitleResolver.GetByTitles(p.likedTitles, data, TitleResolver.DefaultThreshold, ratio);
    var dislikedIdsFromTitles := TitleResolver.GetByTitles(p.dislikedTitles, data, TitleResolver.DefaultThreshold, ratio);
    var likedIds := Union(req.likedIds, likedIdsFromTitles);
    var dislikedIds := Union(req.dislikedIds, dislikedIdsFromTitles);
    if p.mappedTags.None? {
      return Failure(Unhandled);
    }
    var moods := Union(req.moods, p.mappedTags.value);
    var r := req.(likedIds := likedIds, dislikedIds := dislikedIds, moods := moods,
                  semanticQuery := Some(Join(PreferenceParser.MoodWords(p.semanticMoods), " ")));
    return Success(r);
  }

  /** The response loop over `scored[:limit]`. */
  method BuildResponse(scored: seq<Scored>, limit: int) returns (response: seq<ScoredAnime>)
    ensures response == Respond(Take(scored, limit))
  {
    var top := Take(scored, limit);
    response := [];
    for k := 0 to |top|
      invariant response == Respond(top[..k])
    {
      var s := top[k];
      response := response + [ScoredAnime(Project(s.anime), s.score, RecommendReason(s.overlap, Some(ReasonNote)))];
      assert response == Respond(top[..k + 1]);
    }
    assert top[..|top|] == top;
  }

  /** Lines 61-118: validation, exclusion, embedding, scoring and the response. */
  method Evaluate(r: RecommendRequest, data: seq<Anime>, embed: string -> Option<seq<real>>, num: Numerics)
    returns (res: Result<seq<ScoredAnime>, RecommendError>)
    ensures res == Outcome(r, data, embed, num)
  {
    var invalidIds := InvalidIdsOf(r.likedIds + r.dislikedIds, data);
    if invalidIds != [] {
      return Failure(InvalidIds(invalidIds));
    }

    var excludeIds := ExcludedIds(r);
    var candidates := CandidatesOf(data, excludeIds);
    var liked := GetByIds(data, r.likedIds);
    var disliked := GetByIds(data, r.dislikedIds);

    var queryEmbedding: Option<seq<real>> := None;
    if IsSet(r.semanticQuery) {
      var e := embed(r.semanticQuery.value);
      if e.None? {
        return Failure(EmbeddingFailed);
      }
      queryEmbedding := e;
    }

    var scored := ScoreCandidates(candidates, liked, disliked, r.moods, r.nsfwOk, queryEmbedding,
                                  RecommendWeights, num);
    var response := BuildResponse(scored, r.limit);
    return Success(response);
  }

  /** A stored response and the time it was computed. */
  datatype CacheEntry = CacheEntry(ts: real, value: seq<ScoredAnime>)

  /** The key is present and its entry is less than the TTL old. */
  predicate Hit(entries: map<string, CacheEntry>, key: string, now: real) {
    key in entries && now - entries[key].ts < CacheTtl
  }

  /** `_recommend_cache`: responses by cache key; entries are overwritten, never removed. */
  class RecommendCache {
    var entries: map<string, CacheEntry>

    constructor ()
      ensures entries == map[]
    {
      entries := map[];
    }
  }

  /**
   * `_generate_recommendations`. A hit returns the stored response and
   * changes nothing; otherwise the request is resolved and evaluated, and
   * only a successful response is stored, stamped with `now`. `resolved`
   * is the request after the merge.
   */
  method GenerateRecommendations(cache: RecommendCache, req: RecommendRequest, endpoint: string, now: real,
                                 data: seq<Anime>, serialize: RecommendRequest -> string,
                                 ratio: (string, string) -> TitleResolver.Percent,
                                 llm: (seq<string>, string) -> PreferenceParser.LlmReply,
                                 embed: string -> Option<seq<real>>, num: Numerics)
    returns (res: Result<seq<ScoredAnime>, RecommendError>, ghost resolved: RecommendRequest)
    modifies cache
    ensures var key := CacheKey(endpoint, serialize(req));
            && (Hit(old(cache.entries), key, now) ==>
                  res == Success(old(cache.entries)[key].value) && cache.entries == old(cache.entries))
            && (!Hit(old(cache.entries), key, now) && res.Success? ==>
                  cache.entries == old(cache.entries)[key := CacheEntry(now, res.value)] &&
                  ResponseOk(req, data, res.value))
            && (res.Failure? ==> cache.entries == old(cache.entries))
            && (!Hit(old(cache.entries), key, now) && ResolveFails(req, data, llm) ==> res == Failure(Unhandled))
            && (!Hit(old(cache.entries), key, now) && !ResolveFails(req, data, llm) ==>
                  ResolvedFrom(resolved, req, data, ratio, llm) && res == Outcome(resolved, data, embed, num))
            && (!Hit(old(cache.entries), key, now) && !IsSet(req.query) ==> res == Outcome(req, data, embed, num))
            && (!Hit(old(cache.entries), key, now) && !ResolveFails(req, data, llm) &&
                InvalidIdsOf(req.likedIds + req.dislikedIds, data) != [] ==>
                  res.Failure? && res.error.InvalidIds?)
  {
    resolved := req;
    var cacheKey := CacheKey(endpoint, serialize(req));
    if cacheKey in cache.entries {
      var entry := cache.entries[cacheKey];
      if now - entry.ts < CacheTtl {
        return Success(entry.value), resolved;
      }
    }

    var merged := Resolve(req, data, ratio, llm);
    if merged.Failure? {
      return Failure(merged.error), resolved;
    }
    var r := merged.value;
    resolved := r;
    res := Evaluate(r, data, embed, num);
    if InvalidIdsOf(req.likedIds + req.dislikedIds, data) != [] {
      InvalidSurvivesMerge(r, req, data, embed, num);
    }
    if res.Success? {
      OutcomeSuccess(r, data, embed, num);
      ResponseOkExtends(r, req, data, res.value);
      cache.entries := cache.entries[cacheKey := CacheEntry(now, res.value)];
    }
  }
}
