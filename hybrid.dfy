/**
 * The hybrid scorer `score_candidates`: a tag score built from the overlap
 * with the liked-tag pool, a dislike penalty and a mood boost, blended with
 * two embedding similarities; items scoring above zero survive, are
 * normalised by the maximum score and stable-sorted by score, highest first.
 */
module Hybrid {
  import opened Wrappers
  import opened Seqs
  import opened Text
  import opened Lex
  import opened StableSort
  import opened Catalog

  /** `_tags`: an item's tags, lowercased, as a set. */
  function TagSet(a: Anime): set<string> {
    set u | u in a.tags :: Lower(u)
  }

  /** Every tag of the set is lowercase, and the set is empty iff the item has no tags. */
  lemma TagSetSpec(a: Anime)
    ensures forall t :: t in TagSet(a) ==> IsLower(t)
    ensures TagSet(a) == {} <==> a.tags == []
  {
    forall t | t in TagSet(a) ensures IsLower(t) {
      var u :| u in a.tags && t == Lower(u);
      LowerIsLower(u);
    }
    if a.tags != [] {
      assert Lower(a.tags[0]) in TagSet(a);
    }
  }

  /** The union of the tag sets of a list of items. */
  function Pool(items: seq<Anime>): set<string> {
    if |items| == 0 then {}
    else Pool(items[..|items| - 1]) + TagSet(items[|items| - 1])
  }

  lemma {:induction false} PoolSpec(items: seq<Anime>)
    ensures forall t :: t in Pool(items) <==> exists i :: 0 <= i < |items| && t in TagSet(items[i])
  {
    if |items| > 0 {
      var init := items[..|items| - 1];
      PoolSpec(init);
      forall t ensures t in Pool(items) <==> exists i :: 0 <= i < |items| && t in TagSet(items[i]) {
        if t in Pool(init) {
          var i :| 0 <= i < |init| && t in TagSet(init[i]);
          assert items[i] == init[i];
        }
        if exists i :: 0 <= i < |items| && t in TagSet(items[i]) {
          var i :| 0 <= i < |items| && t in TagSet(items[i]);
          if i < |items| - 1 {
            assert init[i] == items[i];
          }
        }
      }
    }
  }

  /**
   * The vector arithmetic the scorer borrows from numpy: dot product,
   * Euclidean norm and element-wise mean. Nothing is assumed about them.
   */
  datatype Numerics = Numerics(
    dot: (seq<real>, seq<real>) -> real,
    norm: seq<real> -> real,
    mean: seq<seq<real>> -> seq<real>)

  /** `_cosine_sim`: the dot product over the product of the norms, or 0 when that product is 0. */
  function CosineSim(num: Numerics, v1: seq<real>, v2: seq<real>): real {
    var denom := num.norm(v1) * num.norm(v2);
    if denom != 0.0 then num.dot(v1, v2) / denom else 0.0
  }

  /**
   * A zero norm on either side gives similarity 0; otherwise the similarity
   * times the product of the norms is the dot product.
   */
  lemma CosineSimSpec(num: Numerics, v1: seq<real>, v2: seq<real>)
    ensures num.norm(v1) == 0.0 || num.norm(v2) == 0.0 ==> CosineSim(num, v1, v2) == 0.0
    ensures num.norm(v1) * num.norm(v2) != 0.0 ==>
              CosineSim(num, v1, v2) * (num.norm(v1) * num.norm(v2)) == num.dot(v1, v2)
  {
  }

  datatype Weights = Weights(tag: real, liked: real, query: real)

  /** The keyword defaults of `score_candidates`. */
  const DefaultWeights := Weights(0.25, 0.25, 0.40)

  /** What the scorer derives from its arguments before the loop. */
  datatype Context = Context(
    likedPool: set<string>,
    dislikedPool: set<string>,
    moodSet: set<string>,
    avgLiked: Option<seq<real>>,
    query: Option<seq<real>>,
    nsfwOk: bool,
    weights: Weights,
    num: Numerics)

  /** The embeddings of the liked items that have one. */
  function LikedEmbeddings(liked: seq<Anime>): (r: seq<seq<real>>)
    ensures r == [] <==> forall a :: a in liked ==> a.embedding == []
  {
    if |liked| == 0 then []
    else
      var last := liked[|liked| - 1];
      var init := liked[..|liked| - 1];
      assert forall a :: a in liked <==> a in init || a == last;
      LikedEmbeddings(init) + (if last.embedding != [] then [last.embedding] else [])
  }

  function MakeContext(liked: seq<Anime>, disliked: seq<Anime>, moods: seq<string>, nsfwOk: bool,
                       queryEmbedding: Option<seq<real>>, weights: Weights, num: Numerics): Context
  {
    var embeddings := LikedEmbeddings(liked);
    Context(Pool(liked), Pool(disliked), set m | m in moods :: Lower(m),
            if embeddings != [] then Some(num.mean(embeddings)) else None,
            queryEmbedding, nsfwOk, weights, num)
  }

  /** The filters at the top of the loop: NSFW unless allowed, and untagged items. */
  predicate Eligible(ctx: Context, a: Anime) {
    (ctx.nsfwOk || !a.isNsfw) && TagSet(a) != {}
  }

  /** The share of the liked-tag pool an item's tags cover; 0 for an empty pool. */
  function OverlapRatio(pool: set<string>, tags: set<string>): real {
    if |pool| > 0 then |pool * tags| as real / |pool| as real else 0.0
  }

  /** Liked-pool overlap ratio, minus 0.15 per disliked tag, plus 0.05 per mood. */
  function TagScore(ctx: Context, tags: set<string>): real {
    OverlapRatio(ctx.likedPool, tags)
    - 0.15 * |ctx.dislikedPool * tags| as real
    + 0.05 * |ctx.moodSet * tags| as real
  }

  /** A similarity term, 0 when the reference vector or the item's embedding is missing. */
  function SimScore(num: Numerics, reference: Option<seq<real>>, embedding: seq<real>): real {
    if reference.Some? && embedding != [] then CosineSim(num, reference.value, embedding) else 0.0
  }

  /** The weighted sum of the tag score and the two similarity terms. */
  function Blend(w: Weights, tagScore: real, likedScore: real, queryScore: real): real {
    tagScore * w.tag + likedScore * w.liked + queryScore * w.query
  }

  /** The blended score of an item before normalisation. */
  function RawScore(ctx: Context, a: Anime): real {
    Blend(ctx.weights, TagScore(ctx, TagSet(a)),
          SimScore(ctx.num, ctx.avgLiked, a.embedding), SimScore(ctx.num, ctx.query, a.embedding))
  }

  /** Whether an item ends up in the output. */
  predicate Keeps(ctx: Context, a: Anime) {
    Eligible(ctx, a) && RawScore(ctx, a) > 0.0
  }

  function KeepsIn(ctx: Context): Anime -> bool {
    a => Keeps(ctx, a)
  }

  /** One output triple: the item, its score and its sorted liked-tag overlap. */
  datatype Scored = Scored(anime: Anime, score: real, overlap: seq<string>)

  function ScoreOf(s: Scored): real {
    s.score
  }

  function Animes(s: seq<Scored>): (r: seq<Anime>)
    ensures |r| == |s|
    ensures forall i :: 0 <= i < |s| ==> r[i] == s[i].anime
  {
    seq(|s|, i requires 0 <= i < |s| => s[i].anime)
  }

  /** The triple appended for a surviving item. */
  function Candidate(ctx: Context, a: Anime): Scored {
    Scored(a, RawScore(ctx, a), SortedSeq(ctx.likedPool * TagSet(a)))
  }

  /** The list `out` after the loop, in catalog order. */
  function Survivors(items: seq<Anime>, ctx: Context): seq<Scored> {
    if |items| == 0 then []
    else
      var a := items[|items| - 1];
      Survivors(items[..|items| - 1], ctx) + (if Keeps(ctx, a) then [Candidate(ctx, a)] else [])
  }

  function MaxScore(s: seq<Scored>): real
    requires |s| > 0
  {
    if |s| == 1 then s[0].score
    else
      var m := MaxScore(s[..|s| - 1]);
      if s[|s| - 1].score > m then s[|s| - 1].score else m
  }

  /** The maximum is attained and bounds every score. */
  lemma {:induction false} MaxScoreSpec(s: seq<Scored>)
    requires |s| > 0
    ensures forall i :: 0 <= i < |s| ==> s[i].score <= MaxScore(s)
    ensures exists i :: 0 <= i < |s| && s[i].score == MaxScore(s)
  {
    if |s| > 1 {
      var init := s[..|s| - 1];
      MaxScoreSpec(init);
      var i :| 0 <= i < |init| && init[i].score == MaxScore(init);
      assert s[i] == init[i];
      if s[|s| - 1].score > MaxScore(init) {
        assert s[|s| - 1].score == MaxScore(s);
      } else {
        assert s[i].score == MaxScore(s);
      }
      forall j | 0 <= j < |s| - 1 ensures s[j].score <= MaxScore(s) {
        assert s[j] == init[j];
      }
    } else {
      assert s[0].score == MaxScore(s);
    }
  }

  /** Division of every score by the maximum, when there is a positive one. */
  function Normalize(s: seq<Scored>): (r: seq<Scored>)
    ensures |r| == |s|
    ensures Animes(r) == Animes(s)
  {
    if |s| > 0 && MaxScore(s) > 0.0 then
      var m := MaxScore(s);
      seq(|s|, i requires 0 <= i < |s| => s[i].(score := s[i].score / m))
    else s
  }

  /** The value `score_candidates` returns. */
  function Rank(items: seq<Anime>, ctx: Context): seq<Scored> {
    SortDesc(Normalize(Survivors(items, ctx)), ScoreOf)
  }

  lemma AnimesAppend(a: seq<Scored>, b: seq<Scored>)
    ensures Animes(a + b) == Animes(a) + Animes(b)
  {
  }

  /** The survivors' items are the kept items, in catalog order. */
  lemma {:induction false} SurvivorsAnimes(items: seq<Anime>, ctx: Context)
    ensures Animes(Survivors(items, ctx)) == Filter(items, KeepsIn(ctx))
  {
    if |items| > 0 {
      var init := items[..|items| - 1];
      var a := items[|items| - 1];
      SurvivorsAnimes(init, ctx);
      assert items == init + [a];
      FilterSnoc(init, a, KeepsIn(ctx));
      var tail := if Keeps(ctx, a) then [Candidate(ctx, a)] else [];
      AnimesAppend(Survivors(init, ctx), tail);
    }
  }

  /** Every survivor is a kept item with its candidate triple. */
  lemma {:induction false} SurvivorsCandidates(items: seq<Anime>, ctx: Context)
    ensures forall s :: s in Survivors(items, ctx) ==> Keeps(ctx, s.anime) && s == Candidate(ctx, s.anime)
  {
    if |items| > 0 {
      SurvivorsCandidates(items[..|items| - 1], ctx);
    }
  }

  /**
   * The survivors are exactly the eligible items whose raw score is
   * positive, in catalog order, each with its raw score and the sorted
   * intersection of its tags with the liked-tag pool.
   */
  lemma SurvivorsSpec(items: seq<Anime>, ctx: Context)
    ensures Animes(Survivors(items, ctx)) == Filter(items, KeepsIn(ctx))
    ensures forall s :: s in Survivors(items, ctx) ==> Keeps(ctx, s.anime) && s == Candidate(ctx, s.anime)
  {
    SurvivorsAnimes(items, ctx);
    SurvivorsCandidates(items, ctx);
  }

  lemma DivBounds(x: real, m: real)
    requires 0.0 < x <= m
    ensures 0.0 < x / m <= 1.0
  {
    assert x / m * m == x;
  }

  lemma DivSelf(m: real)
    requires m > 0.0
    ensures m / m == 1.0
  {
  }

  /**
   * Dividing positive scores by their maximum puts every score in (0, 1],
   * with some score exactly 1.
   */
  lemma NormalizeSpec(s: seq<Scored>)
    requires forall i :: 0 <= i < |s| ==> s[i].score > 0.0
    ensures forall i :: 0 <= i < |s| ==> 0.0 < Normalize(s)[i].score <= 1.0
    ensures |s| > 0 ==> exists i :: 0 <= i < |s| && Normalize(s)[i].score == 1.0
  {
    if |s| > 0 {
      MaxScoreSpec(s);
      var m := MaxScore(s);
      var n := Normalize(s);
      forall i | 0 <= i < |s| ensures 0.0 < n[i].score <= 1.0 {
        assert n[i].score == s[i].score / m;
        DivBounds(s[i].score, m);
      }
      assert 0.0 < s[0].score <= m;
      var k :| 0 <= k < |s| && s[k].score == m;
      assert n[k].score == m / m;
      DivSelf(m);
    }
  }

  /** After normalisation every score lies in (0, 1] and some score is exactly 1. */
  lemma NormalizeSurvivors(items: seq<Anime>, ctx: Context)
    ensures forall s :: s in Normalize(Survivors(items, ctx)) ==> 0.0 < s.score <= 1.0
    ensures |Survivors(items, ctx)| > 0 ==>
              exists s :: s in Normalize(Survivors(items, ctx)) && s.score == 1.0
  {
    var s := Survivors(items, ctx);
    var n := Normalize(s);
    SurvivorsSpec(items, ctx);
    forall i | 0 <= i < |s| ensures s[i].score > 0.0 {
      assert s[i] in s;
    }
    NormalizeSpec(s);
    if |s| > 0 {
      var k :| 0 <= k < |s| && n[k].score == 1.0;
      assert n[k] in n;
    }
  }

  /**
   * Over items without an embedding both similarity terms are 0, so the
   * query embedding (present or not) does not change the ranking.
   */
  lemma {:induction false} RankIgnoresQuery(items: seq<Anime>, ctx: Context, q: Option<seq<real>>)
    requires forall a :: a in items ==> a.embedding == []
    ensures Rank(items, ctx) == Rank(items, ctx.(query := q))
  {
    SurvivorsIgnoreQuery(items, ctx, q);
  }

  lemma {:induction false} SurvivorsIgnoreQuery(items: seq<Anime>, ctx: Context, q: Option<seq<real>>)
    requires forall a :: a in items ==> a.embedding == []
    ensures Survivors(items, ctx) == Survivors(items, ctx.(query := q))
  {
    if |items| > 0 {
      var init := items[..|items| - 1];
      assert forall a :: a in init ==> a in items;
      SurvivorsIgnoreQuery(init, ctx, q);
      var a := items[|items| - 1];
      assert a in items;
      CandidateIgnoresQuery(ctx, a, q);
    }
  }

  /** Without an embedding an item's score, and so whether it is kept, does not depend on the query. */
  lemma CandidateIgnoresQuery(ctx: Context, a: Anime, q: Option<seq<real>>)
    requires a.embedding == []
    ensures Keeps(ctx, a) == Keeps(ctx.(query := q), a)
    ensures Candidate(ctx, a) == Candidate(ctx.(query := q), a)
  {
    assert SimScore(ctx.num, ctx.query, a.embedding) == SimScore(ctx.num, q, a.embedding);
  }

  /**
   * The output is a permutation of the normalised survivors, sorted by
   * score from highest to lowest, with items of equal score in catalog
   * order, and it is never longer than the catalog.
   */
  lemma RankSpec(items: seq<Anime>, ctx: Context)
    ensures multiset(Rank(items, ctx)) == multiset(Normalize(Survivors(items, ctx)))
    ensures SortedDesc(Rank(items, ctx), ScoreOf)
    ensures forall v :: WithKey(Rank(items, ctx), v, ScoreOf) == WithKey(Normalize(Survivors(items, ctx)), v, ScoreOf)
    ensures |Rank(items, ctx)| <= |items|
  {
    SortDescSpec(Normalize(Survivors(items, ctx)), ScoreOf);
    SurvivorsSpec(items, ctx);
    assert |Animes(Survivors(items, ctx))| == |Survivors(items, ctx)|;
  }

  /** Every output score lies in (0, 1], and a non-empty output starts with a score of exactly 1. */
  lemma RankScores(items: seq<Anime>, ctx: Context)
    ensures forall s :: s in Rank(items, ctx) ==> 0.0 < s.score <= 1.0
    ensures |Rank(items, ctx)| > 0 ==> Rank(items, ctx)[0].score == 1.0
  {
    var n := Normalize(Survivors(items, ctx));
    var r := Rank(items, ctx);
    RankSpec(items, ctx);
    NormalizeSurvivors(items, ctx);
    forall s | s in r ensures 0.0 < s.score <= 1.0 {
      assert s in multiset(r);
    }
    if |r| > 0 {
      var top :| top in n && top.score == 1.0;
      assert top in multiset(r);
      assert r[0] in r;
    }
  }

  /**
   * Every output item passes the filters: it is not NSFW unless that is
   * allowed, and it has a non-empty set of lowercase tags; its overlap list
   * is the sorted intersection of its tags with the liked-tag pool, and it
   * comes from the catalog.
   */
  lemma RankItems(items: seq<Anime>, ctx: Context)
    ensures forall s :: s in Rank(items, ctx) ==>
              (ctx.nsfwOk || !s.anime.isNsfw) && TagSet(s.anime) != {} &&
              (forall t :: t in TagSet(s.anime) ==> IsLower(t)) &&
              RawScore(ctx, s.anime) > 0.0 &&
              s.overlap == SortedSeq(ctx.likedPool * TagSet(s.anime)) &&
              s.anime in items
  {
    var sv := Survivors(items, ctx);
    var n := Normalize(sv);
    RankSpec(items, ctx);
    SurvivorsSpec(items, ctx);
    forall s | s in Rank(items, ctx)
      ensures (ctx.nsfwOk || !s.anime.isNsfw) && TagSet(s.anime) != {}
      ensures forall t :: t in TagSet(s.anime) ==> IsLower(t)
      ensures RawScore(ctx, s.anime) > 0.0
      ensures s.overlap == SortedSeq(ctx.likedPool * TagSet(s.anime))
      ensures s.anime in items
    {
      assert s in multiset(n);
      var i :| 0 <= i < |n| && n[i] == s;
      assert Animes(n)[i] == Animes(sv)[i];
      assert sv[i] in sv;
      assert s.overlap == sv[i].overlap;
      assert s.anime in Filter(items, KeepsIn(ctx));
      TagSetSpec(s.anime);
    }
  }

  /** The body of the scoring loop for one item: whether it is kept, and its candidate row if so. */
  method ScoreOne(ctx: Context, anime: Anime) returns (kept: bool, out: Scored)
    ensures kept == Keeps(ctx, anime)
    ensures kept ==> out == Candidate(ctx, anime)
  {
    kept, out := false, Scored(anime, 0.0, []);
    if !ctx.nsfwOk && anime.isNsfw {
      return;
    }
    var tags := TagSet(anime);
    if tags == {} {
      return;
    }

    var overlap := ctx.likedPool * tags;
    var tagScore := OverlapRatio(ctx.likedPool, tags);
    var badOverlap := ctx.dislikedPool * tags;
    tagScore := tagScore - 0.15 * |badOverlap| as real;
    var boosts := set m | m in ctx.moodSet && m in tags;
    assert boosts == ctx.moodSet * tags;
    tagScore := tagScore + 0.05 * |boosts| as real;
    assert tagScore == TagScore(ctx, tags);

    var likedSynopsisScore := 0.0;
    if ctx.avgLiked.Some? && anime.embedding != [] {
      likedSynopsisScore := CosineSim(ctx.num, ctx.avgLiked.value, anime.embedding);
    }
    var querySynopsisScore := 0.0;
    if ctx.query.Some? && anime.embedding != [] {
      querySynopsisScore := CosineSim(ctx.num, ctx.query.value, anime.embedding);
    }

    var finalScore := Blend(ctx.weights, tagScore, likedSynopsisScore, querySynopsisScore);
    assert likedSynopsisScore == SimScore(ctx.num, ctx.avgLiked, anime.embedding);
    assert querySynopsisScore == SimScore(ctx.num, ctx.query, anime.embedding);
    assert finalScore == RawScore(ctx, anime);
    if finalScore > 0.0 {
      var sortedOverlap := SortStrings(overlap);
      kept, out := true, Scored(anime, finalScore, sortedOverlap);
    }
  }

  /** `score_candidates`. */
  method ScoreCandidates(allItems: seq<Anime>, liked: seq<Anime>, disliked: seq<Anime>, moods: seq<string>,
                         nsfwOk: bool, queryEmbedding: Option<seq<real>>, weights: Weights, num: Numerics)
    returns (out: seq<Scored>)
    ensures out == Rank(allItems, MakeContext(liked, disliked, moods, nsfwOk, queryEmbedding, weights, num))
  {
    var ctx := MakeContext(liked, disliked, moods, nsfwOk, queryEmbedding, weights, num);
    out := [];
    for i := 0 to |allItems|
      invariant out == Survivors(allItems[..i], ctx)
    {
      var anime := allItems[i];
      assert allItems[..i + 1][..i] == allItems[..i];
      assert Survivors(allItems[..i + 1], ctx) ==
             out + (if Keeps(ctx, anime) then [Candidate(ctx, anime)] else []);
      var kept, scored := ScoreOne(ctx, anime);
      if kept {
        out := out + [scored];
      }
    }
    assert allItems[..|allItems|] == allItems;

    if |out| > 0 {
      var maxScore := MaxScore(out);
      if maxScore > 0.0 {
        out := seq(|out|, k requires 0 <= k < |out| => out[k].(score := out[k].score / maxScore));
      }
    }

    var buffer := new Scored[|out|](k requires 0 <= k < |out| => out[k]);
    assert buffer[..] == out;
    SortInPlace(buffer, ScoreOf);
    out := buffer[..];
  }
}
