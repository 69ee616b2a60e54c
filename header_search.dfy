/**
 * The state of the `HeaderSearch` component: the liked, disliked and
 * watched lists, the search results, the free-text queries, the selected
 * tags and the panel shown, and the handlers that change them. Each
 * handler is a transition on a snapshot of the state; the recommendation
 * payloads are read off the state.
 */
module HeaderSearchUi {
  import opened Wrappers
  import opened Seqs
  import opened Text
  import opened Catalog
  import opened FrontendUtils
  import opened Recommend

  datatype InputMode = SearchMode | QueryMode

  datatype PanelMode = SearchPanel | FiltersPanel | ListsPanel | RecsPanel

  /** A search result as the panel shows it. */
  datatype SearchItem = SearchItem(id: int, title: string)

  /** The item a recommendation stands for. */
  function ItemOf(a: AnimeOut): SearchItem {
    SearchItem(a.id, OrEmpty(a.title))
  }

  /** Every piece of component state the handlers read or write. */
  datatype UiState = UiState(
    open: bool,
    inputMode: InputMode,
    panel: PanelMode,
    prevPanel: PanelMode,
    text: string,
    nsfwOk: bool,
    selectedTags: seq<string>,
    queries: seq<string>,
    searchResults: seq<SearchItem>,
    itemsById: map<int, SearchItem>,
    liked: seq<int>,
    disliked: seq<int>,
    recs: seq<ScoredAnime>,
    watched: seq<int>)

  // ---------- list helpers ----------

  /** `prev.filter(x => x !== id)`. */
  function Without(s: seq<int>, id: int): (r: seq<int>)
    ensures forall x :: x in r <==> x in s && x != id
    ensures NoDup(s) ==> NoDup(r)
  {
    if |s| == 0 then []
    else
      var init := Without(s[..|s| - 1], id);
      var x := s[|s| - 1];
      assert forall y :: y in s <==> y in s[..|s| - 1] || y == x;
      if x == id then init
      else
        assert NoDup(s) ==> x !in s[..|s| - 1];
        init + [x]
  }

  /** `[...new Set([...prev, id])]`. */
  function AddOnce(s: seq<int>, id: int): seq<int> {
    Dedup(s + [id])
  }

  /**
   * The result lists `id` and the elements of `s`, each once; on a list
   * without duplicates `id` is appended unless it is already there.
   */
  lemma AddOnceSpec(s: seq<int>, id: int)
    ensures NoDup(AddOnce(s, id))
    ensures forall x :: x in AddOnce(s, id) <==> x in s || x == id
    ensures NoDup(s) ==> AddOnce(s, id) == if id in s then s else s + [id]
  {
    if NoDup(s) {
      DedupSnoc(s, id);
      DedupOfNoDup(s);
    }
  }

  /** No id is both liked and disliked. */
  predicate Disjoint(a: seq<int>, b: seq<int>) {
    forall x :: x in a ==> x !in b
  }

  /** The component's invariant: the opinion lists hold each id once and never share one; queries are trimmed, non-empty and distinct. */
  predicate Valid(s: UiState) {
    && NoDup(s.liked) && NoDup(s.disliked) && Disjoint(s.liked, s.disliked)
    && NoDup(s.queries)
    && forall q :: q in s.queries ==> q != "" && IsTrimmed(q, JsIsSpace)
  }

  /** `prev.filter(x => x.id !== id)` on the search results. */
  function DropResult(rs: seq<SearchItem>, id: int): seq<SearchItem> {
    Filter(rs, (x: SearchItem) => x.id != id)
  }

  // ---------- transitions ----------

  /** `like(id)`. */
  function LikeOf(s: UiState, id: int): UiState {
    s.(liked := AddOnce(s.liked, id), disliked := Without(s.disliked, id), searchResults := DropResult(s.searchResults, id))
  }

  /** `dislike(id)`. */
  function DislikeOf(s: UiState, id: int): UiState {
    s.(disliked := AddOnce(s.disliked, id), liked := Without(s.liked, id), searchResults := DropResult(s.searchResults, id))
  }

  /** After `like(id)` the id is liked, not disliked and not among the results, and the invariant still holds. */
  lemma LikeSpec(s: UiState, id: int)
    ensures var t := LikeOf(s, id);
            && id in t.liked && id !in t.disliked
            && (forall x :: x in t.searchResults ==> x.id != id)
            && (forall x :: x in t.liked <==> x in s.liked || x == id)
            && (Valid(s) ==> Valid(t))
  {
    AddOnceSpec(s.liked, id);
  }

  /** After `dislike(id)` the id is disliked, not liked and not among the results, and the invariant still holds. */
  lemma DislikeSpec(s: UiState, id: int)
    ensures var t := DislikeOf(s, id);
            && id in t.disliked && id !in t.liked
            && (forall x :: x in t.searchResults ==> x.id != id)
            && (forall x :: x in t.disliked <==> x in s.disliked || x == id)
            && (Valid(s) ==> Valid(t))
  {
    AddOnceSpec(s.disliked, id);
  }

  /** The item put back at the head of the results when an id leaves a list, if any. */
  function Returning(s: UiState, id: int): Option<SearchItem> {
    if id in s.itemsById && s.inputMode == SearchMode && MatchesQuery(s.itemsById[id].title, s.text)
    then Some(s.itemsById[id]) else None
  }

  function Reinsert(s: UiState, id: int): seq<SearchItem> {
    match Returning(s, id)
    case None => s.searchResults
    case Some(item) => [item] + DropResult(s.searchResults, id)
  }

  /** `removeFromLiked(id)`. */
  function RemoveFromLikedOf(s: UiState, id: int): UiState {
    s.(liked := Without(s.liked, id), searchResults := Reinsert(s, id))
  }

  /** `removeFromDisliked(id)`. */
  function RemoveFromDislikedOf(s: UiState, id: int): UiState {
    s.(disliked := Without(s.disliked, id), searchResults := Reinsert(s, id))
  }

  /**
   * Removing an id from a list keeps the invariant; a known item that
   * matches the current text in search mode heads the results, once.
   */
  lemma RemoveSpec(s: UiState, id: int)
    ensures id !in RemoveFromLikedOf(s, id).liked && id !in RemoveFromDislikedOf(s, id).disliked
    ensures Valid(s) ==> Valid(RemoveFromLikedOf(s, id)) && Valid(RemoveFromDislikedOf(s, id))
    ensures Returning(s, id).Some? ==>
              var rs := RemoveFromLikedOf(s, id).searchResults;
              rs[0] == s.itemsById[id] && forall k :: 1 <= k < |rs| ==> rs[k].id != id
    ensures Returning(s, id).None? ==> RemoveFromLikedOf(s, id).searchResults == s.searchResults
  {
    if Returning(s, id).Some? {
      var rs := RemoveFromLikedOf(s, id).searchResults;
      assert forall k :: 1 <= k < |rs| ==> rs[k] in DropResult(s.searchResults, id);
    }
  }

  /** The first recommendation for `id`, as `recs.find`. */
  function FindRec(recs: seq<ScoredAnime>, id: int): (r: Option<AnimeOut>)
    ensures r.Some? ==> r.value.id == id && exists k :: 0 <= k < |recs| && recs[k].anime == r.value
    ensures r.None? ==> forall k :: 0 <= k < |recs| ==> recs[k].anime.id != id
  {
    if |recs| == 0 then None
    else if recs[0].anime.id == id then Some(recs[0].anime)
    else
      var r := FindRec(recs[1..], id);
      assert r.Some? ==> exists k :: 0 <= k < |recs[1..]| && recs[1..][k].anime == r.value;
      r
  }

  /** The ids of the current recommendations. */
  function RecIds(recs: seq<ScoredAnime>): (r: seq<int>)
    ensures |r| == |recs| && forall k :: 0 <= k < |recs| ==> r[k] == recs[k].anime.id
  {
    seq(|recs|, k requires 0 <= k < |recs| => recs[k].anime.id)
  }

  /** `markWatched(id)`. */
  function MarkWatchedOf(s: UiState, id: int): UiState {
    var known := match FindRec(s.recs, id)
                 case None => s.itemsById
                 case Some(a) => s.itemsById[id := ItemOf(a)];
    s.(itemsById := known, watched := AddOnce(s.watched, id),
       recs := Filter(s.recs, (r: ScoredAnime) => r.anime.id != id))
  }

  /** `unmarkWatched(id)`. */
  function UnmarkWatchedOf(s: UiState, id: int): UiState {
    s.(watched := Without(s.watched, id))
  }

  /**
   * `markWatched(id)` puts the id in the watched list once, drops it from
   * the recommendations and remembers its item; `unmarkWatched` takes it out.
   */
  lemma WatchedSpec(s: UiState, id: int)
    ensures var t := MarkWatchedOf(s, id);
            && id in t.watched && NoDup(t.watched)
            && (forall x :: x in t.watched <==> x in s.watched || x == id)
            && (forall r :: r in t.recs ==> r.anime.id != id)
            && (forall r :: r in s.recs && r.anime.id != id ==> r in t.recs)
            && (id in RecIds(s.recs) ==> id in t.itemsById)
            && Valid(s) == Valid(t)
    ensures id !in UnmarkWatchedOf(s, id).watched
  {
    AddOnceSpec(s.watched, id);
  }

  /** `addQuery(q)`. */
  function AddQueryOf(s: UiState, q: string): UiState {
    var t := JsTrim(q);
    if t != "" && t !in s.queries then s.(queries := s.queries + [t], text := "") else s
  }

  /** `removeQuery(q)`. */
  function RemoveQueryOf(s: UiState, q: string): UiState {
    s.(queries := Filter(s.queries, (x: string) => x != q))
  }

  /**
   * A query that is new once trimmed and not blank is appended trimmed and
   * the text is cleared; otherwise nothing changes. The invariant is kept.
   */
  lemma AddQuerySpec(s: UiState, q: string)
    ensures var t := JsTrim(q);
            && (t != "" && t !in s.queries ==> AddQueryOf(s, q).queries == s.queries + [t] && AddQueryOf(s, q).text == "")
            && (t == "" || t in s.queries ==> AddQueryOf(s, q) == s)
    ensures Valid(s) ==> Valid(AddQueryOf(s, q))
  {
    var t := JsTrim(q);
    if Valid(s) && t != "" && t !in s.queries {
      var qs := s.queries + [t];
      TrimSpec(q, JsIsSpace);
      assert forall x :: x in qs ==> x in s.queries || x == t;
      assert NoDup(qs);
      assert AddQueryOf(s, q) == s.(queries := qs, text := "");
    }
  }

  /** `removeQuery(q)` drops every copy of `q` and keeps the invariant. */
  lemma RemoveQuerySpec(s: UiState, q: string)
    ensures Valid(s) ==> Valid(RemoveQueryOf(s, q))
    ensures forall x :: x in RemoveQueryOf(s, q).queries <==> x in s.queries && x != q
  {
    if Valid(s) {
      FilterNoDup(s.queries, (x: string) => x != q);
    }
  }

  lemma {:induction false} FilterNoDup<T(!new)>(s: seq<T>, p: T -> bool)
    requires NoDup(s)
    ensures NoDup(Filter(s, p))
  {
    if |s| > 0 {
      FilterNoDup(s[1..], p);
      assert s[0] !in s[1..];
      assert s == [s[0]] + s[1..];
    }
  }

  /** The part of the state the panel handlers touch. */
  datatype PanelState = PanelState(panel: PanelMode, prevPanel: PanelMode, open: bool)

  function Panels(s: UiState): PanelState {
    PanelState(s.panel, s.prevPanel, s.open)
  }

  /** `toggleFilters()`. */
  function ToggleFiltersOf(p: PanelState): PanelState {
    if p.panel == FiltersPanel && p.open then PanelState(p.prevPanel, p.prevPanel, true)
    else PanelState(FiltersPanel, p.panel, true)
  }

  /**
   * Opening the filters remembers the panel shown; toggling twice from any
   * other panel comes back to it, open.
   */
  lemma ToggleFiltersTwice(p: PanelState)
    requires p.panel != FiltersPanel
    ensures ToggleFiltersOf(p).panel == FiltersPanel && ToggleFiltersOf(p).open
    ensures ToggleFiltersOf(ToggleFiltersOf(p)).panel == p.panel
    ensures ToggleFiltersOf(ToggleFiltersOf(p)).open
  {
  }

  /** `toggleMode()`. */
  function ToggleModeOf(s: UiState): UiState {
    if s.inputMode == SearchMode then s.(inputMode := QueryMode, panel := ListsPanel, open := true)
    else if JsTrim(s.text) != "" then s.(inputMode := SearchMode, panel := SearchPanel, open := true)
    else s.(inputMode := SearchMode, open := false)
  }

  /** The mode alternates; query mode shows the lists, search mode shows results only for non-blank text. */
  lemma ToggleModeSpec(s: UiState)
    ensures ToggleModeOf(s).inputMode != s.inputMode
    ensures ToggleModeOf(ToggleModeOf(s)).inputMode == s.inputMode
    ensures ToggleModeOf(s).inputMode == QueryMode ==> ToggleModeOf(s).panel == ListsPanel && ToggleModeOf(s).open
    ensures ToggleModeOf(s).inputMode == SearchMode ==> (ToggleModeOf(s).open <==> JsTrim(s.text) != "")
  {
  }

  /** The filter panel's tag toggle. */
  function ToggleTag(tags: seq<string>, t: string): seq<string> {
    if t in tags then Filter(tags, (x: string) => x != t) else tags + [t]
  }

  /** The toggle flips the membership of `t` and leaves every other tag as it was. */
  lemma ToggleTagSpec(tags: seq<string>, t: string)
    ensures t in ToggleTag(tags, t) <==> t !in tags
    ensures forall x :: x != t ==> (x in ToggleTag(tags, t) <==> x in tags)
  {
  }

  /** The body of `sendForRecs` (`more` false) or `sendForMoreRecs` (`more` true). */
  function PayloadOf(s: UiState, more: bool): RecommendRequest {
    RecommendRequest(
      s.liked,
      s.disliked,
      s.selectedTags,
      if more then s.watched + RecIds(s.recs) else s.watched,
      s.nsfwOk,
      20,
      if s.inputMode == QueryMode then Some(Join(s.queries, " ")) else None,
      None)
  }

  /**
   * A response that honours the "more" payload repeats no watched id and no
   * recommendation already shown, and no liked or disliked id.
   */
  lemma MoreRecsAreNew(s: UiState, data: seq<Anime>, more: seq<ScoredAnime>)
    requires ResponseOk(PayloadOf(s, true), data, more)
    ensures forall r :: r in more ==> r.anime.id !in s.watched && r.anime.id !in RecIds(s.recs)
    ensures forall r :: r in more ==> r.anime.id !in s.liked && r.anime.id !in s.disliked
    ensures |more| <= 20
  {
    forall r | r in more
      ensures r.anime.id !in s.watched && r.anime.id !in RecIds(s.recs)
    {
      assert ItemOk(PayloadOf(s, true), data, r);
    }
  }

  /** Both payloads ask for twenty items and send the queries only in query mode. */
  lemma PayloadSpec(s: UiState, more: bool)
    ensures PayloadOf(s, more).limit == 20 && PayloadOf(s, more).semanticQuery.None?
    ensures PayloadOf(s, more).query.Some? <==> s.inputMode == QueryMode
    ensures forall x :: x in s.watched ==> x in PayloadOf(s, more).excludeIds
    ensures more ==> forall r :: r in s.recs ==> r.anime.id in PayloadOf(s, more).excludeIds
  {
    if more {
      forall r | r in s.recs
        ensures r.anime.id in PayloadOf(s, more).excludeIds
      {
        var k :| 0 <= k < |s.recs| && s.recs[k] == r;
        assert RecIds(s.recs)[k] == r.anime.id;
      }
    }
  }

  // ---------- the component ----------

  class HeaderSearch {
    var open: bool
    var inputMode: InputMode
    var panel: PanelMode
    var prevPanel: PanelMode
    var text: string
    var nsfwOk: bool
    var selectedTags: seq<string>
    var queries: seq<string>
    var searchResults: seq<SearchItem>
    var itemsById: map<int, SearchItem>
    var liked: seq<int>
    var disliked: seq<int>
    var recs: seq<ScoredAnime>
    var watched: seq<int>

    function State(): UiState
      reads this
    {
      UiState(open, inputMode, panel, prevPanel, text, nsfwOk, selectedTags, queries,
              searchResults, itemsById, liked, disliked, recs, watched)
    }

    /** The initial state; `stored` is the watched list kept in the browser, if any. */
    constructor (stored: Option<seq<int>>)
      ensures State() == UiState(false, SearchMode, SearchPanel, SearchPanel, "", false, [], [], [], map[], [], [],
                                 [], if stored.Some? then stored.value else [])
      ensures Valid(State())
    {
      open, inputMode, panel, prevPanel, text, nsfwOk := false, SearchMode, SearchPanel, SearchPanel, "", false;
      selectedTags, queries, searchResults, itemsById := [], [], [], map[];
      liked, disliked, recs := [], [], [];
      watched := if stored.Some? then stored.value else [];
    }

    method Like(id: int)
      modifies this
      ensures State() == LikeOf(old(State()), id)
    {
      ghost var s := State();
      liked := AddOnce(liked, id);
      disliked := Without(disliked, id);
      searchResults := DropResult(searchResults, id);
      assert State() == s.(liked := liked, disliked := disliked, searchResults := searchResults);
    }

    method Dislike(id: int)
      modifies this
      ensures State() == DislikeOf(old(State()), id)
    {
      ghost var s := State();
      disliked := AddOnce(disliked, id);
      liked := Without(liked, id);
      searchResults := DropResult(searchResults, id);
      assert State() == s.(liked := liked, disliked := disliked, searchResults := searchResults);
    }

    method RemoveFromLiked(id: int)
      modifies this
      ensures State() == RemoveFromLikedOf(old(State()), id)
    {
      ghost var s := State();
      liked := Without(liked, id);
      if id in itemsById && inputMode == SearchMode && MatchesQuery(itemsById[id].title, text) {
        var item := itemsById[id];
        searchResults := [item] + DropResult(searchResults, id);
      }
      assert searchResults == Reinsert(s, id);
    }

    method RemoveFromDisliked(id: int)
      modifies this
      ensures State() == RemoveFromDislikedOf(old(State()), id)
    {
      ghost var s := State();
      disliked := Without(disliked, id);
      if id in itemsById && inputMode == SearchMode && MatchesQuery(itemsById[id].title, text) {
        var item := itemsById[id];
        searchResults := [item] + DropResult(searchResults, id);
      }
      assert searchResults == Reinsert(s, id);
    }

    method MarkWatched(id: int)
      modifies this
      ensures State() == MarkWatchedOf(old(State()), id)
    {
      var anime := FindRec(recs, id);
      if anime.Some? {
        itemsById := itemsById[id := ItemOf(anime.value)];
      }
      watched := AddOnce(watched, id);
      recs := Filter(recs, (r: ScoredAnime) => r.anime.id != id);
    }

    method UnmarkWatched(id: int)
      modifies this
      ensures State() == UnmarkWatchedOf(old(State()), id)
    {
      watched := Without(watched, id);
    }

    method AddQuery(q: string)
      modifies this
      ensures State() == AddQueryOf(old(State()), q)
    {
      var t := JsTrim(q);
      if t != "" && t !in queries {
        queries := queries + [t];
        text := "";
      }
    }

    method RemoveQuery(q: string)
      modifies this
      ensures State() == RemoveQueryOf(old(State()), q)
    {
      queries := Filter(queries, (x: string) => x != q);
    }

    method ToggleMode()
      modifies this
      ensures State() == ToggleModeOf(old(State()))
    {
      if inputMode == SearchMode {
        inputMode, panel, open := QueryMode, ListsPanel, true;
      } else if JsTrim(text) != "" {
        inputMode, panel, open := SearchMode, SearchPanel, true;
      } else {
        inputMode, open := SearchMode, false;
      }
    }

    method ToggleFilters()
      modifies this
      ensures Panels(State()) == ToggleFiltersOf(Panels(old(State())))
      ensures State() == old(State()).(panel := panel, prevPanel := prevPanel, open := open)
    {
      if panel == FiltersPanel && open {
        panel := prevPanel;
        open := true;
      } else {
        prevPanel := panel;
        panel := FiltersPanel;
        open := true;
      }
    }

    method ToggleSelectedTag(t: string)
      modifies this
      ensures State() == old(State()).(selectedTags := ToggleTag(old(selectedTags), t))
    {
      selectedTags := if t in selectedTags then Filter(selectedTags, (x: string) => x != t) else selectedTags + [t];
    }

    /** The payload sent by `sendForRecs` or `sendForMoreRecs`. */
    function Payload(more: bool): RecommendRequest
      reads this
    {
      PayloadOf(State(), more)
    }

    /** `sendForRecs` once `response` has arrived: it replaces the recommendations and shows them. */
    method SendForRecs(response: seq<ScoredAnime>)
      modifies this
      ensures State() == old(State()).(recs := response, panel := RecsPanel, open := true)
    {
      recs := response;
      panel := RecsPanel;
      open := true;
    }

    /** `sendForMoreRecs` once `more` has arrived: the new items are appended. */
    method SendForMoreRecs(more: seq<ScoredAnime>)
      modifies this
      ensures State() == old(State()).(recs := old(recs) + more)
    {
      recs := recs + more;
    }
  }
}
