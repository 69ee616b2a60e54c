/**
 * Grouping of MyAnimeList entries into franchises: `find_root_anime` walks
 * prequel links (falling back to a title match), and `build_grouped_db`
 * gathers each entry under its root and totals the groups' episodes. The
 * relations and episode counts the script fetches over HTTP are given.
 */
module MalGrouping {
  import opened Wrappers
  import opened Seqs
  import opened Text
  import opened Catalog
  import opened MalText

  /** `alternative_titles` of an API entry. */
  datatype AltTitles = AltTitles(en: Option<string>, ja: Option<string>, synonyms: Option<seq<string>>)

  /**
   * One entry as the API returns it: genres and themes by name;
   * `alternativeTitles` is `None` when the field is missing or not an object.
   */
  datatype MalAnime = MalAnime(
    id: int,
    title: string,
    alternativeTitles: Option<AltTitles>,
    mainPicture: Option<Picture>,
    genres: seq<string>,
    themes: seq<string>,
    synopsis: Option<string>,
    rating: Option<string>,
    status: Option<string>)

  /** `is_nsfw` of an entry. */
  function EntryIsNsfw(a: MalAnime): bool {
    IsNsfw(a.rating, a.genres, a.themes, a.synopsis)
  }

  // ---------- find_root_anime ----------

  /** One `related_anime` element: its relation type and the related id. */
  datatype Relation = Relation(relationType: string, target: int)

  /** The related entries of each id, as fetched and cached; a failed fetch is `[]`. */
  type Relations = map<int, seq<Relation>>

  function Related(rel: Relations, id: int): seq<Relation> {
    if id in rel then rel[id] else []
  }

  /** The target of the first relation whose type is "prequel", ignoring case. */
  function FirstPrequel(rs: seq<Relation>): Option<int> {
    if |rs| == 0 then None
    else if Lower(rs[0].relationType) == "prequel" then Some(rs[0].target)
    else FirstPrequel(rs[1..])
  }

  /** The prequel found is the target of the first relation of type "prequel"; there is none iff no relation has that type. */
  lemma {:induction false} FirstPrequelSpec(rs: seq<Relation>)
    ensures FirstPrequel(rs).None? <==> forall k :: 0 <= k < |rs| ==> Lower(rs[k].relationType) != "prequel"
    ensures FirstPrequel(rs).Some? ==>
              exists k :: 0 <= k < |rs| && rs[k].target == FirstPrequel(rs).value && Lower(rs[k].relationType) == "prequel"
                          && forall j :: 0 <= j < k ==> Lower(rs[j].relationType) != "prequel"
  {
    if |rs| > 0 && Lower(rs[0].relationType) != "prequel" {
      FirstPrequelSpec(rs[1..]);
      if FirstPrequel(rs).Some? {
        var k :| 0 <= k < |rs[1..]| && rs[1..][k].target == FirstPrequel(rs).value
                 && Lower(rs[1..][k].relationType) == "prequel"
                 && forall j :: 0 <= j < k ==> Lower(rs[1..][j].relationType) != "prequel";
        assert rs[k + 1] == rs[1..][k];
      }
    }
  }

  /** The prequel followed is one of the relation targets. */
  lemma PrequelIsTarget(rel: Relations, id: int)
    requires HasPrequel(rel, id)
    ensures FirstPrequel(Related(rel, id)).value in Targets(rel)
  {
    var rs := Related(rel, id);
    FirstPrequelSpec(rs);
    var k :| 0 <= k < |rs| && rs[k].target == FirstPrequel(rs).value && Lower(rs[k].relationType) == "prequel";
    assert id in rel && rs[k] in rel[id];
  }

  /** Every id some relation points to. */
  function Targets(rel: Relations): set<int> {
    set id, x | id in rel && x in rel[id] :: x.target
  }

  /**
   * `existing_titles`: the titles seen so far, keyed by id, in the order the
   * ids were first inserted.
   */
  datatype TitleLog = TitleLog(keys: seq<int>, titles: map<int, string>)

  /** `existing_titles[id] = title`: a new key goes last, an existing key keeps its place. */
  function LogSet(log: TitleLog, id: int, title: string): TitleLog {
    TitleLog(if id in log.titles then log.keys else log.keys + [id], log.titles[id := title])
  }

  /** The key order lists each logged id exactly once. */
  ghost predicate LogValid(log: TitleLog) {
    NoDup(log.keys) && forall k :: k in log.keys <==> k in log.titles
  }

  lemma LogSetValid(log: TitleLog, id: int, title: string)
    requires LogValid(log)
    ensures LogValid(LogSet(log, id, title))
    ensures LogSet(log, id, title).titles[id] == title
  {
  }

  /** Another logged id whose cleaned title equals `base`. */
  predicate SameTitle(log: TitleLog, aid: int, id: int, base: string) {
    aid != id && aid in log.titles && CleanTitle(log.titles[aid]) == base
  }

  /** The first key, in order, that satisfies `p`. */
  function FirstWhere(keys: seq<int>, p: int -> bool): Option<int> {
    if |keys| == 0 then None
    else if p(keys[0]) then Some(keys[0])
    else FirstWhere(keys[1..], p)
  }

  lemma {:induction false} FirstWhereSpec(keys: seq<int>, p: int -> bool)
    ensures var r := FirstWhere(keys, p);
            && (r.None? <==> forall j :: 0 <= j < |keys| ==> !p(keys[j]))
            && (r.Some? ==> exists k :: 0 <= k < |keys| && keys[k] == r.value && p(keys[k])
                                        && forall j :: 0 <= j < k ==> !p(keys[j]))
  {
    if |keys| > 0 && !p(keys[0]) {
      FirstWhereSpec(keys[1..], p);
      var r := FirstWhere(keys, p);
      if r.Some? {
        var k :| 0 <= k < |keys[1..]| && keys[1..][k] == r.value && p(keys[1..][k])
                 && forall j :: 0 <= j < k ==> !p(keys[1..][j]);
        assert keys[k + 1] == r.value;
      }
    }
  }

  /** The first key, in insertion order, that passes `SameTitle`. */
  function FirstSameTitle(log: TitleLog, keys: seq<int>, id: int, base: string): Option<int> {
    FirstWhere(keys, aid => SameTitle(log, aid, id, base))
  }

  /** The title fallback finds the first qualifying key, and nothing when there is none. */
  lemma FirstSameTitleSpec(log: TitleLog, keys: seq<int>, id: int, base: string)
    ensures var r := FirstSameTitle(log, keys, id, base);
            && (r.None? <==> forall j :: 0 <= j < |keys| ==> !SameTitle(log, keys[j], id, base))
            && (r.Some? ==> exists k :: 0 <= k < |keys| && keys[k] == r.value && SameTitle(log, keys[k], id, base)
                                        && forall j :: 0 <= j < k ==> !SameTitle(log, keys[j], id, base))
  {
    FirstWhereSpec(keys, aid => SameTitle(log, aid, id, base));
  }

  lemma VisitedShrinks(u: set<int>, visited: set<int>, id: int, t: int)
    requires id !in visited && t in u
    ensures |(u + {t}) - (visited + {id})| < |(u + {id}) - visited|
  {
    var a := (u + {t}) - (visited + {id});
    var b := (u + {id}) - visited;
    var c := a + {id};
    assert c <= b && id !in a;
    assert |c| == |a| + 1;
    assert c + (b - c) == b && c * (b - c) == {};
  }

  /**
   * `find_root_anime`: an id already visited is its own root; otherwise the
   * first prequel is followed (without the title); without a prequel, a
   * non-empty title falls back to the first other logged id with the same
   * cleaned title, and failing that the id is the root.
   */
  function FindRoot(id: int, rel: Relations, visited: set<int>, title: Option<string>, log: TitleLog): int
    decreases |(Targets(rel) + {id}) - visited|
  {
    if id in visited then id
    else
      match FirstPrequel(Related(rel, id))
      case Some(t) =>
        PrequelIsTarget(rel, id);
        assert Targets(rel) + {t} == Targets(rel);
        VisitedShrinks(Targets(rel), visited, id, t);
        FindRoot(t, rel, visited + {id}, None, log)
      case None =>
        if title.Some? && title.value != "" then
          var m := FirstSameTitle(log, log.keys, id, CleanTitle(title.value));
          if m.Some? then m.value else id
        else id
  }

  predicate HasPrequel(rel: Relations, id: int) {
    FirstPrequel(Related(rel, id)).Some?
  }

  /** The id reached from `id` after `n` first-prequel steps (the walk stays at an id without one). */
  function Follow(rel: Relations, id: int, n: nat): int
    decreases n
  {
    if n == 0 then id
    else
      match FirstPrequel(Related(rel, id))
      case None => id
      case Some(t) => Follow(rel, t, n - 1)
  }

  /**
   * Without a title the root is where the prequel walk stops: the first id
   * on it that was already visited, has no prequel, or repeats an earlier
   * id of the walk (a cycle).
   */
  predicate WalkStopsAt(rel: Relations, id: int, visited: set<int>, n: nat, r: int) {
    && r == Follow(rel, id, n)
    && (forall m :: 0 <= m < n ==> Follow(rel, id, m) !in visited && HasPrequel(rel, Follow(rel, id, m)))
    && (forall m1, m2 :: 0 <= m1 < m2 < n ==> Follow(rel, id, m1) != Follow(rel, id, m2))
    && (r in visited || !HasPrequel(rel, r) || exists m :: 0 <= m < n && Follow(rel, id, m) == r)
  }

  /** The walk from `id` is the walk from its first prequel `t`, one step later. */
  lemma FollowShift(rel: Relations, id: int, t: int, m: nat)
    requires FirstPrequel(Related(rel, id)) == Some(t)
    ensures Follow(rel, id, m + 1) == Follow(rel, t, m)
  {
  }

  /** A walk from the first prequel `t` of an unvisited `id` extends by one step back to `id`. */
  lemma WalkExtend(rel: Relations, id: int, t: int, visited: set<int>, n: nat, r: int)
    requires id !in visited && FirstPrequel(Related(rel, id)) == Some(t)
    requires WalkStopsAt(rel, t, visited + {id}, n, r)
    ensures WalkStopsAt(rel, id, visited, n + 1, r)
  {
    FollowShift(rel, id, t, n);
    forall m | 0 <= m < n + 1
      ensures Follow(rel, id, m) !in visited && HasPrequel(rel, Follow(rel, id, m))
    {
      if m > 0 {
        FollowShift(rel, id, t, m - 1);
      }
    }
    WalkExtendDistinct(rel, id, t, visited, n);
    if r !in visited && HasPrequel(rel, r) {
      if r == id {
        assert Follow(rel, id, 0) == r;
      } else {
        var m :| 0 <= m < n && Follow(rel, t, m) == r;
        FollowShift(rel, id, t, m);
      }
    }
  }

  /** The extended walk still visits no id twice. */
  lemma WalkExtendDistinct(rel: Relations, id: int, t: int, visited: set<int>, n: nat)
    requires id !in visited && FirstPrequel(Related(rel, id)) == Some(t)
    requires forall m :: 0 <= m < n ==> Follow(rel, t, m) !in visited + {id}
    requires forall m1, m2 :: 0 <= m1 < m2 < n ==> Follow(rel, t, m1) != Follow(rel, t, m2)
    ensures forall m1, m2 :: 0 <= m1 < m2 < n + 1 ==> Follow(rel, id, m1) != Follow(rel, id, m2)
  {
    forall m1, m2 | 0 <= m1 < m2 < n + 1
      ensures Follow(rel, id, m1) != Follow(rel, id, m2)
    {
      FollowShift(rel, id, t, m2 - 1);
      if m1 > 0 {
        FollowShift(rel, id, t, m1 - 1);
      }
    }
  }

  lemma {:induction false} FindRootWalk(id: int, rel: Relations, visited: set<int>, log: TitleLog)
    ensures exists n: nat :: WalkStopsAt(rel, id, visited, n, FindRoot(id, rel, visited, None, log))
    decreases |(Targets(rel) + {id}) - visited|
  {
    var r := FindRoot(id, rel, visited, None, log);
    if id in visited || !HasPrequel(rel, id) {
      assert WalkStopsAt(rel, id, visited, 0, r);
    } else {
      var t := FirstPrequel(Related(rel, id)).value;
      PrequelIsTarget(rel, id);
      assert Targets(rel) + {t} == Targets(rel);
      VisitedShrinks(Targets(rel), visited, id, t);
      var v := visited + {id};
      FindRootWalk(t, rel, v, log);
      var n: nat :| WalkStopsAt(rel, t, v, n, r);
      WalkExtend(rel, id, t, visited, n, r);
    }
  }

  /**
   * An id with a prequel that has not been visited is never resolved by
   * title; one without a prequel and with a non-empty title resolves to
   * the first other logged id with the same cleaned title, else to itself.
   */
  lemma FindRootTitle(id: int, rel: Relations, title: string, log: TitleLog)
    requires !HasPrequel(rel, id) && title != ""
    ensures var r := FindRoot(id, rel, {}, Some(title), log);
            && (r == id || (SameTitle(log, r, id, CleanTitle(title)) && r in log.keys))
            && ((forall j :: 0 <= j < |log.keys| ==> !SameTitle(log, log.keys[j], id, CleanTitle(title))) ==> r == id)
  {
    FirstSameTitleSpec(log, log.keys, id, CleanTitle(title));
  }

  /** With a prequel the title plays no part. */
  lemma FindRootIgnoresTitle(id: int, rel: Relations, visited: set<int>, title: Option<string>, log: TitleLog)
    requires HasPrequel(rel, id) || id in visited
    ensures FindRoot(id, rel, visited, title, log) == FindRoot(id, rel, visited, None, log)
  {
  }

  // ---------- build_grouped_db ----------

  /** The titles gathered for a new group before stripping: title, English, Japanese, synonyms. */
  function RawTitles(a: MalAnime): seq<string> {
    var alts := if a.alternativeTitles.Some? then a.alternativeTitles.value else AltTitles(None, None, None);
    (if a.title != "" then [a.title] else [])
    + (if alts.en.Some? && alts.en.value != "" then [alts.en.value] else [])
    + (if alts.ja.Some? && alts.ja.value != "" then [alts.ja.value] else [])
    + (if alts.synonyms.Some? then alts.synonyms.value else [])
  }

  /** `{t.strip() for t in all_titles if t and t.strip()}`. */
  function TitleSet(a: MalAnime): set<string> {
    set t | t in RawTitles(a) && Strip(t) != "" :: Strip(t)
  }

  /** The row made for a new group rooted at `root` from its first processed member `a`. */
  function NewEntry(a: MalAnime, root: int, allTitles: seq<string>, now: int): Anime {
    Anime(
      root,
      if a.id == root then Some(a.title) else None,
      allTitles,
      a.mainPicture,
      a.genres,
      Some(CleanText(a.synopsis)),
      a.rating,
      EntryIsNsfw(a),
      0,
      [],
      Some(now),
      [])
  }

  /** `e` is a new group row: `NewEntry` with the stripped titles, each once, in some order. */
  ghost predicate IsNewEntry(e: Anime, a: MalAnime, root: int, now: int) {
    && e == NewEntry(a, root, e.allTitles, now)
    && NoDup(e.allTitles)
    && forall t :: t in e.allTitles <==> t in TitleSet(a)
  }

  /** Record member `id` in the group row `e` of `root`, and give the row the member's title if it is the root and has none. */
  function Attach(e: Anime, id: int, root: int, title: string): (r: Anime)
    ensures id in r.childrenIds
    ensures NoDup(e.childrenIds) ==> NoDup(r.childrenIds)
    ensures forall c :: c in e.childrenIds ==> c in r.childrenIds
    ensures forall c :: c in r.childrenIds ==> c in e.childrenIds || c == id
    ensures r.title.Some? <==> e.title.Some? || id == root
    ensures e.title.None? && id == root ==> r.title == Some(title)
    ensures r.title.Some? && e.title.Some? ==> r.title == e.title
    ensures r.(childrenIds := e.childrenIds, title := e.title) == e
  {
    var children := if id in e.childrenIds then e.childrenIds else e.childrenIds + [id];
    var t := if e.title.None? && id == root then Some(title) else e.title;
    e.(childrenIds := children, title := t)
  }

  /** `existing_titles` after the entries of `done` have been logged, starting empty. */
  ghost function LogAfter(done: seq<MalAnime>): TitleLog {
    if |done| == 0 then TitleLog([], map[])
    else LogSet(LogAfter(done[..|done| - 1]), done[|done| - 1].id, done[|done| - 1].title)
  }

  /** The root found for each entry of `done`, with the log as it stood right after logging that entry. */
  ghost function RootsOf(rel: Relations, done: seq<MalAnime>): (r: seq<int>)
    ensures |r| == |done|
  {
    if |done| == 0 then []
    else
      var a := done[|done| - 1];
      RootsOf(rel, done[..|done| - 1]) + [FindRoot(a.id, rel, {}, Some(a.title), LogAfter(done))]
  }

  /** Logging and rooting entry `i` after the entries before it. */
  lemma AfterStep(rel: Relations, newData: seq<MalAnime>, i: nat)
    requires i < |newData|
    ensures newData[..i + 1] == newData[..i] + [newData[i]]
    ensures LogAfter(newData[..i + 1]) == LogSet(LogAfter(newData[..i]), newData[i].id, newData[i].title)
    ensures RootsOf(rel, newData[..i + 1])
         == RootsOf(rel, newData[..i]) + [FindRoot(newData[i].id, rel, {}, Some(newData[i].title), LogAfter(newData[..i + 1]))]
  {
    assert newData[..i + 1][..i] == newData[..i];
  }

  /** Entry `j`'s root is `find_root_anime` of it, with the titles of entries `0..j` logged. */
  lemma {:induction false} RootsOfSpec(rel: Relations, done: seq<MalAnime>)
    ensures forall j :: 0 <= j < |done| ==>
              RootsOf(rel, done)[j] == FindRoot(done[j].id, rel, {}, Some(done[j].title), LogAfter(done[..j + 1]))
  {
    forall j | 0 <= j < |done|
      ensures RootsOf(rel, done)[j] == FindRoot(done[j].id, rel, {}, Some(done[j].title), LogAfter(done[..j + 1]))
    {
      RootsOfAt(rel, done, j);
    }
  }

  /** One entry of `RootsOfSpec`. */
  lemma {:induction false} RootsOfAt(rel: Relations, done: seq<MalAnime>, j: nat)
    requires j < |done|
    ensures RootsOf(rel, done)[j] == FindRoot(done[j].id, rel, {}, Some(done[j].title), LogAfter(done[..j + 1]))
    decreases |done|
  {
    if j < |done| - 1 {
      RootsOfAt(rel, done[..|done| - 1], j);
      RootsOfInit(rel, done, j);
    } else {
      RootsOfLast(rel, done);
    }
  }

  /** The last root is that of the last entry, with every entry logged. */
  lemma RootsOfLast(rel: Relations, done: seq<MalAnime>)
    requires |done| > 0
    ensures var n := |done| - 1;
            RootsOf(rel, done)[n] == FindRoot(done[n].id, rel, {}, Some(done[n].title), LogAfter(done[..n + 1]))
  {
    assert done[..|done|] == done;
  }

  /** Earlier roots are those of the entries before the last. */
  lemma RootsOfInit(rel: Relations, done: seq<MalAnime>, j: nat)
    requires j < |done| - 1
    ensures var init := done[..|done| - 1];
            RootsOf(rel, done)[j] == RootsOf(rel, init)[j] && init[j] == done[j] && init[..j + 1] == done[..j + 1]
  {
  }


  /** Some processed entry with id `c` has root `k`. */
  ghost predicate Processed(done: seq<MalAnime>, roots: seq<int>, k: int, c: int) {
    exists j :: 0 <= j < |done| && j < |roots| && roots[j] == k && done[j].id == c
  }

  /** Processing one more entry adds exactly its own id under its own root. */
  lemma ProcessedSnoc(done: seq<MalAnime>, roots: seq<int>, a: MalAnime, root: int, k: int, c: int)
    requires |roots| == |done|
    ensures Processed(done + [a], roots + [root], k, c) <==> Processed(done, roots, k, c) || (root == k && a.id == c)
  {
    var d', r' := done + [a], roots + [root];
    if Processed(d', r', k, c) {
      var j :| 0 <= j < |d'| && j < |r'| && r'[j] == k && d'[j].id == c;
      if j < |done| {
        assert roots[j] == k && done[j].id == c;
      }
    }
    if Processed(done, roots, k, c) {
      var j :| 0 <= j < |done| && j < |roots| && roots[j] == k && done[j].id == c;
      assert r'[j] == k && d'[j].id == c;
    }
    if root == k && a.id == c {
      assert r'[|done|] == k && d'[|done|].id == c;
    }
  }

  /** `j` is the first entry whose root is `k`. */
  predicate FirstWithRoot(roots: seq<int>, k: int, j: int) {
    0 <= j < |roots| && roots[j] == k && forall i :: 0 <= i < j ==> roots[i] != k
  }

  /** `e` equals `b` outside the fields the grouping writes: members, title and episode total. */
  predicate SameOutsideGroupFields(e: Anime, b: Anime) {
    e.(childrenIds := b.childrenIds, title := b.title, totalEpisodes := b.totalEpisodes) == b
  }

  /** Outside members, title and episode total, `e` is the new row made from entry `a` for `root`. */
  ghost predicate NewRowFrom(e: Anime, a: MalAnime, root: int, now: int) {
    IsNewEntry(e.(childrenIds := [], title := if a.id == root then Some(a.title) else None, totalEpisodes := 0), a, root, now)
  }

  /** Every processed entry is a member of the group of its own root. */
  ghost predicate MembersInRoots(m: map<int, Anime>, groups: set<int>, done: seq<MalAnime>, roots: seq<int>)
    requires |roots| == |done|
  {
    forall j :: 0 <= j < |done| ==> roots[j] in groups && roots[j] in m && done[j].id in m[roots[j]].childrenIds
  }

  /** Every group is the root of some processed entry. */
  ghost predicate KeysAreRoots(groups: set<int>, roots: seq<int>) {
    forall k :: k in groups ==> k in roots
  }

  /** A group's members are its stored members and the processed entries rooted at it, and no others. */
  ghost predicate ChildrenAccounted(m: map<int, Anime>, groups: set<int>, existing: map<int, Anime>,
                                    done: seq<MalAnime>, roots: seq<int>)
  {
    forall k, c :: k in groups && k in m && c in m[k].childrenIds ==>
      (k in existing && c in existing[k].childrenIds) || Processed(done, roots, k, c)
  }

  /**
   * Outside members, title and episode total, a group row is its stored
   * row (whose title, when it has one, is kept), or else the new row made
   * from the first processed entry rooted at it.
   */
  ghost predicate RowsFromBase(m: map<int, Anime>, groups: set<int>, existing: map<int, Anime>,
                               done: seq<MalAnime>, roots: seq<int>, now: int)
    requires |roots| == |done|
  {
    && (forall k :: k in groups && k in m && k in existing ==>
          SameOutsideGroupFields(m[k], existing[k]) && (existing[k].title.Some? ==> m[k].title == existing[k].title))
    && (forall k :: k in groups && k in m && k !in existing ==>
          exists j :: FirstWithRoot(roots, k, j) && NewRowFrom(m[k], done[j], k, now))
  }

  /** The title of the first processed entry that is its own root `k`, if there is one. */
  ghost function RootTitle(done: seq<MalAnime>, roots: seq<int>, k: int): Option<string>
    requires |roots| == |done|
  {
    if |done| == 0 then None
    else
      var n := |done| - 1;
      var prior := RootTitle(done[..n], roots[..n], k);
      if prior.Some? then prior
      else if roots[n] == k && done[n].id == k then Some(done[n].title)
      else None
  }

  /** `j` is the first processed entry that is its own root `k`. */
  ghost predicate FirstRootEntry(done: seq<MalAnime>, roots: seq<int>, k: int, j: int) {
    && 0 <= j < |done| && j < |roots| && roots[j] == k && done[j].id == k
    && forall i :: 0 <= i < j && i < |roots| ==> !(roots[i] == k && done[i].id == k)
  }

  /** `RootTitle` is absent iff the root was not processed, and otherwise the title of its first entry. */
  lemma {:induction false} RootTitleSpec(done: seq<MalAnime>, roots: seq<int>, k: int)
    requires |roots| == |done|
    ensures RootTitle(done, roots, k).Some? <==> Processed(done, roots, k, k)
    ensures forall j :: FirstRootEntry(done, roots, k, j) ==> RootTitle(done, roots, k) == Some(done[j].title)
  {
    if |done| > 0 {
      var n := |done| - 1;
      var d, r := done[..n], roots[..n];
      RootTitleSpec(d, r, k);
      ProcessedSnoc(d, r, done[n], roots[n], k, k);
      assert d + [done[n]] == done && r + [roots[n]] == roots;
      forall j | FirstRootEntry(done, roots, k, j)
        ensures RootTitle(done, roots, k) == Some(done[j].title)
      {
        if j < n {
          assert FirstRootEntry(d, r, k, j);
        }
      }
    }
  }

  /** Processing one more entry sets the root title only if none was set and the entry is its own root. */
  lemma RootTitleSnoc(done: seq<MalAnime>, roots: seq<int>, a: MalAnime, root: int, k: int)
    requires |roots| == |done|
    ensures RootTitle(done + [a], roots + [root], k)
         == if RootTitle(done, roots, k).Some? then RootTitle(done, roots, k)
            else if root == k && a.id == k then Some(a.title) else None
  {
    assert (done + [a])[..|done|] == done && (roots + [root])[..|roots|] == roots;
  }

  /** A group row's title is its stored title when it has one, else the title of the root's first processed entry, else none. */
  ghost predicate TitleRule(m: map<int, Anime>, groups: set<int>, existing: map<int, Anime>,
                            done: seq<MalAnime>, roots: seq<int>)
    requires |roots| == |done|
  {
    forall k :: k in groups && k in m ==>
      m[k].title == if k in existing && existing[k].title.Some? then existing[k].title else RootTitle(done, roots, k)
  }

  /** Every stored row lists each child once. */
  predicate ChildrenNoDup(m: map<int, Anime>) {
    forall k :: k in m ==> NoDup(m[k].childrenIds)
  }

  /** The row of a group that is neither open nor stored. */
  method NewGroupRow(a: MalAnime, root: int, now: int) returns (e: Anime)
    ensures IsNewEntry(e, a, root, now)
  {
    var allTitles := SetToSeq(TitleSet(a));
    e := NewEntry(a, root, allTitles, now);
  }

  /**
   * The body of the first loop of `build_grouped_db` for entry `a`: log its
   * title, find its root, open the root's group (the stored row, or a new
   * row) if it is not open yet, and attach `a` to it.
   */
  method GroupOne(grouped: map<int, Anime>, order: seq<int>, log: TitleLog, a: MalAnime,
                  existing: map<int, Anime>, rel: Relations, now: int)
    returns (grouped': map<int, Anime>, order': seq<int>, log': TitleLog, root: int, base: Anime)
    ensures log' == LogSet(log, a.id, a.title)
    ensures root == FindRoot(a.id, rel, {}, Some(a.title), log')
    ensures root in grouped ==> base == grouped[root]
    ensures root !in grouped && root in existing ==> base == existing[root]
    ensures root !in grouped && root !in existing ==> IsNewEntry(base, a, root, now)
    ensures grouped' == grouped[root := Attach(base, a.id, root, a.title)]
    ensures order' == if root in grouped then order else order + [root]
  {
    log' := LogSet(log, a.id, a.title);
    root := FindRoot(a.id, rel, {}, Some(a.title), log');
    order' := order;
    if root !in grouped {
      if root in existing {
        base := existing[root];
      } else {
        base := NewGroupRow(a, root, now);
      }
      order' := order' + [root];
    } else {
      base := grouped[root];
    }
    grouped' := grouped[root := Attach(base, a.id, root, a.title)];
  }

  /** The rows of `m` named by `groups` are the groups built from the entries of `done`, rooted at `roots`. */
  ghost predicate GroupedFrom(m: map<int, Anime>, groups: set<int>, existing: map<int, Anime>,
                              done: seq<MalAnime>, roots: seq<int>, now: int)
    requires |roots| == |done|
  {
    && MembersInRoots(m, groups, done, roots)
    && KeysAreRoots(groups, roots)
    && ChildrenAccounted(m, groups, existing, done, roots)
    && RowsFromBase(m, groups, existing, done, roots, now)
    && TitleRule(m, groups, existing, done, roots)
  }

  /** The first loop's invariant: the groups opened so far, each once, built from the entries processed so far. */
  ghost predicate GroupsInvariant(grouped: map<int, Anime>, order: seq<int>, existing: map<int, Anime>,
                                  done: seq<MalAnime>, roots: seq<int>, now: int)
  {
    && |roots| == |done|
    && NoDup(order)
    && (forall k :: k in grouped <==> k in order)
    && GroupedFrom(grouped, grouped.Keys, existing, done, roots, now)
    && (ChildrenNoDup(existing) ==> ChildrenNoDup(grouped))
  }

  /** The row `GroupOne` attaches the entry to: the open row, else the stored row, else a new row. */
  ghost predicate BaseOk(grouped: map<int, Anime>, existing: map<int, Anime>, a: MalAnime, root: int, base: Anime, now: int) {
    && (root in grouped ==> base == grouped[root])
    && (root !in grouped && root in existing ==> base == existing[root])
    && (root !in grouped && root !in existing ==> IsNewEntry(base, a, root, now))
  }

  /** A group that is not open yet is the root of no processed entry. */
  lemma NotYetRoot(grouped: map<int, Anime>, done: seq<MalAnime>, roots: seq<int>, root: int)
    requires |roots| == |done| && MembersInRoots(grouped, grouped.Keys, done, roots)
    requires root !in grouped
    ensures forall i :: 0 <= i < |roots| ==> roots[i] != root
    ensures forall c :: !Processed(done, roots, root, c)
  {
  }

  /** Attaching changes only the fields the grouping writes. */
  lemma AttachOutside(e: Anime, id: int, root: int, title: string, b: Anime, a: MalAnime, now: int)
    requires SameOutsideGroupFields(e, b) || NewRowFrom(e, a, root, now)
    ensures SameOutsideGroupFields(e, b) ==> SameOutsideGroupFields(Attach(e, id, root, title), b)
    ensures NewRowFrom(e, a, root, now) ==> NewRowFrom(Attach(e, id, root, title), a, root, now)
  {
    var r := Attach(e, id, root, title);
    assert r.(childrenIds := b.childrenIds, title := b.title, totalEpisodes := b.totalEpisodes)
        == e.(childrenIds := b.childrenIds, title := b.title, totalEpisodes := b.totalEpisodes);
    var t := if a.id == root then Some(a.title) else None;
    assert r.(childrenIds := [], title := t, totalEpisodes := 0) == e.(childrenIds := [], title := t, totalEpisodes := 0);
  }

  /** Every processed entry stays a member of its root's group, and the new entry joins its own. */
  lemma StepMembers(grouped: map<int, Anime>, done: seq<MalAnime>, roots: seq<int>,
                    a: MalAnime, root: int, base: Anime)
    requires |roots| == |done| && MembersInRoots(grouped, grouped.Keys, done, roots)
    requires root in grouped ==> base == grouped[root]
    ensures var grouped' := grouped[root := Attach(base, a.id, root, a.title)];
            MembersInRoots(grouped', grouped'.Keys, done + [a], roots + [root])
  {
    var grouped' := grouped[root := Attach(base, a.id, root, a.title)];
    var done', roots' := done + [a], roots + [root];
    forall j | 0 <= j < |done'|
      ensures roots'[j] in grouped'.Keys && roots'[j] in grouped' && done'[j].id in grouped'[roots'[j]].childrenIds
    {
      if j < |done| {
        assert roots'[j] == roots[j] && done'[j] == done[j];
        assert done[j].id in grouped[roots[j]].childrenIds;
      }
    }
  }

  /** A member of the attached row is one of the base row's members or the new entry. */
  lemma StepChildren(grouped: map<int, Anime>, existing: map<int, Anime>, done: seq<MalAnime>, roots: seq<int>,
                     a: MalAnime, root: int, base: Anime, now: int)
    requires |roots| == |done| && MembersInRoots(grouped, grouped.Keys, done, roots)
    requires ChildrenAccounted(grouped, grouped.Keys, existing, done, roots)
    requires BaseOk(grouped, existing, a, root, base, now)
    ensures var grouped' := grouped[root := Attach(base, a.id, root, a.title)];
            ChildrenAccounted(grouped', grouped'.Keys, existing, done + [a], roots + [root])
  {
    var grouped' := grouped[root := Attach(base, a.id, root, a.title)];
    var done', roots' := done + [a], roots + [root];
    forall k, c | k in grouped'.Keys && k in grouped' && c in grouped'[k].childrenIds
      ensures (k in existing && c in existing[k].childrenIds) || Processed(done', roots', k, c)
    {
      ProcessedSnoc(done, roots, a, root, k, c);
      if k == root && c != a.id {
        assert c in base.childrenIds;
      }
    }
  }

  /** The rows other than the root's keep their base; the root's row keeps the base it was opened with. */
  lemma StepRows(grouped: map<int, Anime>, existing: map<int, Anime>, done: seq<MalAnime>, roots: seq<int>,
                 a: MalAnime, root: int, base: Anime, now: int)
    requires |roots| == |done| && MembersInRoots(grouped, grouped.Keys, done, roots)
    requires RowsFromBase(grouped, grouped.Keys, existing, done, roots, now)
    requires BaseOk(grouped, existing, a, root, base, now)
    ensures var grouped' := grouped[root := Attach(base, a.id, root, a.title)];
            RowsFromBase(grouped', grouped'.Keys, existing, done + [a], roots + [root], now)
  {
    var grouped' := grouped[root := Attach(base, a.id, root, a.title)];
    var done', roots' := done + [a], roots + [root];
    forall k | k in grouped'.Keys && k in grouped' && k !in existing
      ensures exists j :: FirstWithRoot(roots', k, j) && NewRowFrom(grouped'[k], done'[j], k, now)
    {
      if k in grouped {
        var j :| FirstWithRoot(roots, k, j) && NewRowFrom(grouped[k], done[j], k, now);
        assert FirstWithRoot(roots', k, j) && done'[j] == done[j];
        if k == root {
          AttachOutside(base, a.id, root, a.title, base, done[j], now);
        }
      } else {
        NotYetRoot(grouped, done, roots, root);
        assert FirstWithRoot(roots', k, |done|) && done'[|done|] == a;
        var t := if a.id == root then Some(a.title) else None;
        assert base.(childrenIds := [], title := t, totalEpisodes := 0) == base;
        AttachOutside(base, a.id, root, a.title, base, a, now);
      }
    }
    forall k | k in grouped'.Keys && k in grouped' && k in existing
      ensures SameOutsideGroupFields(grouped'[k], existing[k])
      ensures existing[k].title.Some? ==> grouped'[k].title == existing[k].title
    {
      if k == root {
        AttachOutside(base, a.id, root, a.title, existing[k], a, now);
      }
    }
  }

  /** The attached row keeps its title, or takes the entry's own title when it has none and the entry is the root. */
  lemma StepTitles(grouped: map<int, Anime>, existing: map<int, Anime>, done: seq<MalAnime>, roots: seq<int>,
                   a: MalAnime, root: int, base: Anime, now: int)
    requires |roots| == |done| && MembersInRoots(grouped, grouped.Keys, done, roots)
    requires TitleRule(grouped, grouped.Keys, existing, done, roots)
    requires BaseOk(grouped, existing, a, root, base, now)
    ensures var grouped' := grouped[root := Attach(base, a.id, root, a.title)];
            TitleRule(grouped', grouped'.Keys, existing, done + [a], roots + [root])
  {
    var grouped' := grouped[root := Attach(base, a.id, root, a.title)];
    var done', roots' := done + [a], roots + [root];
    forall k | k in grouped'.Keys && k in grouped'
      ensures grouped'[k].title
           == if k in existing && existing[k].title.Some? then existing[k].title else RootTitle(done', roots', k)
    {
      RootTitleSnoc(done, roots, a, root, k);
      if k == root && root !in grouped {
        NotYetRoot(grouped, done, roots, root);
        RootTitleSpec(done, roots, root);
      }
    }
  }

  /** The open groups stay listed once each, in the order they were opened, and members stay listed once. */
  lemma StepOrder(grouped: map<int, Anime>, order: seq<int>, existing: map<int, Anime>,
                  a: MalAnime, root: int, base: Anime, now: int)
    requires NoDup(order) && (forall k :: k in grouped <==> k in order)
    requires ChildrenNoDup(existing) ==> ChildrenNoDup(grouped)
    requires BaseOk(grouped, existing, a, root, base, now)
    ensures var grouped' := grouped[root := Attach(base, a.id, root, a.title)];
            var order' := if root in grouped then order else order + [root];
            && NoDup(order') && (forall k :: k in grouped' <==> k in order')
            && (ChildrenNoDup(existing) ==> ChildrenNoDup(grouped'))
  {
    var order' := if root in grouped then order else order + [root];
    if root !in grouped {
      assert root !in order;
      assert forall k :: k in order' <==> k in order || k == root;
    }
    if ChildrenNoDup(existing) {
      assert NoDup(base.childrenIds) by {
        if root !in grouped && root !in existing {
          assert base.childrenIds == [];
        }
      }
    }
  }

  /** One step of `GroupOne` keeps the invariant, with the new entry and its root added. */
  lemma GroupStep(grouped: map<int, Anime>, order: seq<int>, existing: map<int, Anime>, done: seq<MalAnime>,
                  roots: seq<int>, a: MalAnime, root: int, base: Anime, now: int)
    requires GroupsInvariant(grouped, order, existing, done, roots, now)
    requires BaseOk(grouped, existing, a, root, base, now)
    ensures GroupsInvariant(grouped[root := Attach(base, a.id, root, a.title)],
                            if root in grouped then order else order + [root], existing, done + [a], roots + [root], now)
  {
    StepOrder(grouped, order, existing, a, root, base, now);
    StepGrouped(grouped, existing, done, roots, a, root, base, now);
  }

  /** One step keeps the groups built from the entries processed so far, with the new entry and its root added. */
  lemma StepGrouped(grouped: map<int, Anime>, existing: map<int, Anime>, done: seq<MalAnime>, roots: seq<int>,
                    a: MalAnime, root: int, base: Anime, now: int)
    requires |roots| == |done| && GroupedFrom(grouped, grouped.Keys, existing, done, roots, now)
    requires BaseOk(grouped, existing, a, root, base, now)
    ensures var grouped' := grouped[root := Attach(base, a.id, root, a.title)];
            GroupedFrom(grouped', grouped'.Keys, existing, done + [a], roots + [root], now)
  {
    var grouped' := grouped[root := Attach(base, a.id, root, a.title)];
    StepMembers(grouped, done, roots, a, root, base);
    StepChildren(grouped, existing, done, roots, a, root, base, now);
    StepRows(grouped, existing, done, roots, a, root, base, now);
    StepTitles(grouped, existing, done, roots, a, root, base, now);
    assert KeysAreRoots(grouped'.Keys, roots + [root]);
  }

  /** Pass `i` of the first loop of `build_grouped_db`, with the invariant it keeps. */
  method GroupNext(grouped: map<int, Anime>, order: seq<int>, log: TitleLog, newData: seq<MalAnime>, i: nat,
                   existing: map<int, Anime>, rel: Relations, now: int)
    returns (grouped': map<int, Anime>, order': seq<int>, log': TitleLog)
    requires i < |newData| && log == LogAfter(newData[..i])
    requires GroupsInvariant(grouped, order, existing, newData[..i], RootsOf(rel, newData[..i]), now)
    ensures log' == LogAfter(newData[..i + 1])
    ensures GroupsInvariant(grouped', order', existing, newData[..i + 1], RootsOf(rel, newData[..i + 1]), now)
  {
    var root, base;
    grouped', order', log', root, base := GroupOne(grouped, order, log, newData[i], existing, rel, now);
    GroupStep(grouped, order, existing, newData[..i], RootsOf(rel, newData[..i]), newData[i], root, base, now);
    AfterStep(rel, newData, i);
  }

  /**
   * The first loop of `build_grouped_db`: the open groups, in the order they
   * were opened, each the group of the roots `find_root_anime` gave.
   */
  method GroupAll(newData: seq<MalAnime>, existing: map<int, Anime>, rel: Relations, now: int)
    returns (grouped: map<int, Anime>, order: seq<int>)
    ensures GroupsInvariant(grouped, order, existing, newData, RootsOf(rel, newData), now)
  {
    grouped := map[];
    order := [];
    var log := TitleLog([], map[]);
    for i := 0 to |newData|
      invariant log == LogAfter(newData[..i])
      invariant GroupsInvariant(grouped, order, existing, newData[..i], RootsOf(rel, newData[..i]), now)
    {
      grouped, order, log := GroupNext(grouped, order, log, newData, i, existing, rel, now);
    }
    assert newData[..|newData|] == newData;
  }

  /** `sum(episodes[c] for c in ids)`, with the counts given. */
  function EpisodeSum(ids: seq<int>, episodes: int -> nat): nat {
    if |ids| == 0 then 0 else EpisodeSum(ids[..|ids| - 1], episodes) + episodes(ids[|ids| - 1])
  }

  /** The total of a concatenation is the sum of the totals. */
  lemma {:induction false} EpisodeSumAppend(a: seq<int>, b: seq<int>, episodes: int -> nat)
    ensures EpisodeSum(a + b, episodes) == EpisodeSum(a, episodes) + EpisodeSum(b, episodes)
  {
    if |b| > 0 {
      EpisodeSumAppend(a, b[..|b| - 1], episodes);
      assert (a + b)[..|a + b| - 1] == a + b[..|b| - 1];
    } else {
      assert a + b == a;
    }
  }

  /** Every member's count is part of the total. */
  lemma {:induction false} EpisodeSumBound(ids: seq<int>, episodes: int -> nat, c: int)
    requires c in ids
    ensures episodes(c) <= EpisodeSum(ids, episodes)
  {
    if ids[|ids| - 1] != c {
      EpisodeSumBound(ids[..|ids| - 1], episodes, c);
    }
  }

  /** The group row with its episode total filled in. */
  function WithTotal(e: Anime, episodes: int -> nat): Anime {
    e.(totalEpisodes := EpisodeSum(e.childrenIds, episodes))
  }

  /** The second loop of `build_grouped_db`: write each group row back with its episode total. */
  method FillTotals(grouped: map<int, Anime>, groups: seq<int>, existing: map<int, Anime>, episodes: int -> nat)
    returns (result: map<int, Anime>)
    requires forall g :: g in groups ==> g in grouped
    ensures forall k :: k in result <==> k in existing || k in groups
    ensures forall k :: k in groups ==> result[k] == WithTotal(grouped[k], episodes)
    ensures forall k :: k in result && k !in groups ==> result[k] == existing[k]
  {
    result := existing;
    for j := 0 to |groups|
      invariant forall k :: k in result <==> k in existing || k in groups[..j]
      invariant forall k :: k in groups[..j] ==> result[k] == WithTotal(grouped[k], episodes)
      invariant forall k :: k in result && k !in groups[..j] ==> result[k] == existing[k]
    {
      var rootId := groups[j];
      var entry := grouped[rootId];
      entry := entry.(totalEpisodes := EpisodeSum(entry.childrenIds, episodes));
      result := result[rootId := entry];
      assert groups[..j + 1] == groups[..j] + [rootId];
    }
    assert groups[..|groups|] == groups;
  }

  /** Filling in the episode totals keeps what the groups are built from. */
  lemma GroupedWithTotals(grouped: map<int, Anime>, result: map<int, Anime>, groups: set<int>,
                          existing: map<int, Anime>, done: seq<MalAnime>, roots: seq<int>, now: int)
    requires |roots| == |done| && GroupedFrom(grouped, groups, existing, done, roots, now)
    requires forall g :: g in groups ==> g in grouped && g in result
    requires forall g :: g in groups ==> result[g].(totalEpisodes := grouped[g].totalEpisodes) == grouped[g]
    ensures GroupedFrom(result, groups, existing, done, roots, now)
  {
    assert MembersInRoots(grouped, groups, done, roots);
    forall g | g in groups
      ensures result[g].childrenIds == grouped[g].childrenIds && result[g].title == grouped[g].title
      ensures g in existing ==> SameOutsideGroupFields(result[g], existing[g])
      ensures g !in existing ==> exists j :: FirstWithRoot(roots, g, j) && NewRowFrom(result[g], done[j], g, now)
    {
      var r, e := result[g], grouped[g];
      assert r.childrenIds == r.(totalEpisodes := e.totalEpisodes).childrenIds;
      assert r.title == r.(totalEpisodes := e.totalEpisodes).title;
      if g in existing {
        var b := existing[g];
        assert r.(childrenIds := b.childrenIds, title := b.title, totalEpisodes := b.totalEpisodes)
            == e.(childrenIds := b.childrenIds, title := b.title, totalEpisodes := b.totalEpisodes);
      } else {
        var j :| FirstWithRoot(roots, g, j) && NewRowFrom(e, done[j], g, now);
        var t := if done[j].id == g then Some(done[j].title) else None;
        assert r.(childrenIds := [], title := t, totalEpisodes := 0) == e.(childrenIds := [], title := t, totalEpisodes := 0);
      }
    }
    forall j | 0 <= j < |done|
      ensures roots[j] in groups && roots[j] in result && done[j].id in result[roots[j]].childrenIds
    {
      var g := roots[j];
      assert g in groups && done[j].id in grouped[g].childrenIds;
      assert result[g].childrenIds == grouped[g].childrenIds;
    }
  }

  /**
   * `build_grouped_db`: each processed entry is a member of the group of
   * the root `find_root_anime` gave it; every group is such a root; a
   * group's members are its stored members and the entries rooted at it;
   * its row is its stored row, or the new row of its first entry, with the
   * episode total filled in; every other stored row is untouched; and when
   * the stored rows list each child once, so do the groups. `groups` are
   * the group ids in the order they were opened.
   */
  method BuildGroupedDb(newData: seq<MalAnime>, existing: map<int, Anime>, rel: Relations,
                        episodes: int -> nat, now: int)
    returns (result: map<int, Anime>, groups: seq<int>)
    ensures NoDup(groups)
    ensures forall k :: k in result <==> k in existing || k in groups
    ensures forall k :: k in result && k !in groups ==> result[k] == existing[k]
    ensures forall g :: g in groups ==> result[g].totalEpisodes == EpisodeSum(result[g].childrenIds, episodes)
    ensures GroupedFrom(result, (set g | g in groups), existing, newData, RootsOf(rel, newData), now)
    ensures ChildrenNoDup(existing) ==> forall g :: g in groups ==> NoDup(result[g].childrenIds)
  {
    var grouped;
    grouped, groups := GroupAll(newData, existing, rel, now);
    assert forall g :: g in groups ==> g in grouped;
    result := FillTotals(grouped, groups, existing, episodes);
    assert (set g | g in groups) == grouped.Keys by {
      assert forall g :: g in grouped.Keys <==> g in groups;
    }
    GroupedWithTotals(grouped, result, grouped.Keys, existing, newData, RootsOf(rel, newData), now);
  }
}
