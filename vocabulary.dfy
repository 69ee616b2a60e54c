/**
 * The tag vocabulary that `_build_config`, `_build_tags` and
 * `load_known_tags` each compute: every tag stripped, keyed by its
 * lowercase form, the first spelling of each key kept, the explicit NSFW
 * tags dropped unless allowed, and the spellings listed in lowercase order.
 */
module TagVocabulary {
  import opened Text
  import opened Lex

  /** The tags treated as explicit; the same four in all three places. */
  const NsfwTags: set<string> := {"hentai", "ecchi", "magical sex shift", "erotica"}

  /** The key a tag is filed under: stripped and lowercased. */
  function Key(tag: string): string {
    Lower(Strip(tag))
  }

  /** The keys dropped from the vocabulary: the NSFW tags unless they are allowed. */
  function DropSet(nsfwOk: bool): set<string> {
    if nsfwOk then {} else NsfwTags
  }

  /** Whether a tag with this key is dropped. */
  predicate Excluded(drop: set<string>, key: string) {
    key in drop
  }

  /** One step of the loop: file `tag` unless it is dropped or its key is taken. */
  function AddTag(m: map<string, string>, tag: string, drop: set<string>): map<string, string> {
    var tagClean := Strip(tag);
    var tagLower := Lower(tagClean);
    if Excluded(drop, tagLower) || tagLower in m then m else m[tagLower := tagClean]
  }

  /** `m` after the loop has filed `tags`, in order. */
  function AddTags(m: map<string, string>, tags: seq<string>, drop: set<string>): map<string, string> {
    if |tags| == 0 then m
    else AddTag(AddTags(m, tags[..|tags| - 1], drop), tags[|tags| - 1], drop)
  }

  /** `tags_map` after the loop has seen `tags`, in order. */
  function TagMap(tags: seq<string>, drop: set<string>): map<string, string> {
    AddTags(map[], tags, drop)
  }

  lemma {:induction false} AddTagsAppend(m: map<string, string>, a: seq<string>, b: seq<string>, drop: set<string>)
    ensures AddTags(m, a + b, drop) == AddTags(AddTags(m, a, drop), b, drop)
  {
    if |b| > 0 {
      var b' := b[..|b| - 1];
      AddTagsAppend(m, a, b', drop);
      assert (a + b)[..|a + b| - 1] == a + b';
    } else {
      assert a + b == a;
    }
  }

  /** All tag lists of the rows, concatenated in row order. */
  function Flatten(rows: seq<seq<string>>): seq<string> {
    if |rows| == 0 then [] else Flatten(rows[..|rows| - 1]) + rows[|rows| - 1]
  }

  /** Filing a tag adds at most its own key and never changes an existing entry. */
  lemma AddTagSpec(m: map<string, string>, tag: string, drop: set<string>)
    ensures forall k :: k in AddTag(m, tag, drop) <==> k in m || (k == Key(tag) && !Excluded(drop, k))
    ensures forall k :: k in m ==> AddTag(m, tag, drop)[k] == m[k]
    ensures Key(tag) !in m && !Excluded(drop, Key(tag)) ==> AddTag(m, tag, drop)[Key(tag)] == Strip(tag)
  {
  }

  /** The map files exactly the keys of the tags that are not dropped. */
  lemma {:induction false} TagMapKeys(tags: seq<string>, drop: set<string>)
    ensures forall k :: k in TagMap(tags, drop) <==>
              !Excluded(drop, k) && exists t :: t in tags && Key(t) == k
  {
    if |tags| > 0 {
      var init := tags[..|tags| - 1];
      var t := tags[|tags| - 1];
      var m := TagMap(init, drop);
      assert TagMap(tags, drop) == AddTag(m, t, drop);
      TagMapKeys(init, drop);
      AddTagSpec(m, t, drop);
      assert forall x :: x in tags <==> x in init || x == t;
    }
  }

  /** Position `i` holds the first tag of the list whose key is `k`. */
  predicate FirstOccurrence(tags: seq<string>, i: int, k: string) {
    0 <= i < |tags| && Key(tags[i]) == k && forall j :: 0 <= j < i ==> Key(tags[j]) != k
  }

  /**
   * A filed key maps to the stripped spelling of the first tag with that
   * key, and that spelling lowercases back to the key.
   */
  lemma {:induction false} TagMapFirstKey(tags: seq<string>, drop: set<string>, k: string)
    requires k in TagMap(tags, drop)
    ensures Lower(TagMap(tags, drop)[k]) == k
    ensures exists i :: FirstOccurrence(tags, i, k) && TagMap(tags, drop)[k] == Strip(tags[i])
  {
    var init := tags[..|tags| - 1];
    var t := tags[|tags| - 1];
    var m := TagMap(init, drop);
    assert TagMap(tags, drop) == AddTag(m, t, drop);
    AddTagSpec(m, t, drop);
    if k in m {
      TagMapFirstKey(init, drop, k);
      var i :| FirstOccurrence(init, i, k) && m[k] == Strip(init[i]);
      assert tags[i] == init[i];
      forall j | 0 <= j < i ensures Key(tags[j]) != k {
        assert tags[j] == init[j];
      }
      assert FirstOccurrence(tags, i, k);
    } else {
      assert k == Key(t);
      TagMapKeys(init, drop);
      forall j | 0 <= j < |tags| - 1 ensures Key(tags[j]) != k {
        assert tags[j] in init;
      }
      assert FirstOccurrence(tags, |tags| - 1, k);
    }
  }

  lemma TagMapFirst(tags: seq<string>, drop: set<string>)
    ensures forall k :: k in TagMap(tags, drop) ==>
              Lower(TagMap(tags, drop)[k]) == k &&
              exists i :: FirstOccurrence(tags, i, k) && TagMap(tags, drop)[k] == Strip(tags[i])
  {
    forall k | k in TagMap(tags, drop)
      ensures Lower(TagMap(tags, drop)[k]) == k
      ensures exists i :: FirstOccurrence(tags, i, k) && TagMap(tags, drop)[k] == Strip(tags[i])
    {
      TagMapFirstKey(tags, drop, k);
    }
  }

  /** The spellings of a tag map, sorted by their lowercase form. */
  function SortedVocabulary(m: map<string, string>): (r: seq<string>)
    ensures |r| == |m|
  {
    var keys := SortedSeq(m.Keys);
    SortedSeqSpec(m.Keys);
    seq(|keys|, i requires 0 <= i < |keys| => m[keys[i]])
  }

  /** The vocabulary of a list of tags. */
  function VocabularyOf(tags: seq<string>, drop: set<string>): seq<string> {
    SortedVocabulary(TagMap(tags, drop))
  }

  /**
   * When every spelling lowercases to its key, the vocabulary lists the
   * spellings in the order of their sorted keys.
   */
  lemma SortedVocabularyKeys(m: map<string, string>)
    requires forall k :: k in m ==> Lower(m[k]) == k
    ensures LowerAll(SortedVocabulary(m)) == SortedSeq(m.Keys)
    ensures forall i :: 0 <= i < |m| ==>
              SortedSeq(m.Keys)[i] in m && SortedVocabulary(m)[i] == m[SortedSeq(m.Keys)[i]]
  {
    SortedSeqSpec(m.Keys);
  }

  /**
   * The lowercase forms of the vocabulary are strictly increasing, so no
   * two entries are equal ignoring case and the list is in lowercase
   * order; no entry is a dropped tag.
   */
  lemma VocabularySorted(tags: seq<string>, drop: set<string>)
    ensures StrictlySorted(LowerAll(VocabularyOf(tags, drop)))
    ensures forall e :: e in VocabularyOf(tags, drop) ==> !Excluded(drop, Lower(e))
  {
    var m := TagMap(tags, drop);
    TagMapKeys(tags, drop);
    TagMapFirst(tags, drop);
    SortedVocabularyKeys(m);
    SortedSeqSpec(m.Keys);
    var v := VocabularyOf(tags, drop);
    forall e | e in v ensures !Excluded(drop, Lower(e)) {
      var i :| 0 <= i < |v| && v[i] == e;
      assert Lower(e) == LowerAll(v)[i];
    }
  }

  /** The key of every tag that is not dropped has an entry. */
  lemma VocabularyCovers(tags: seq<string>, drop: set<string>)
    ensures forall t :: t in tags && !Excluded(drop, Key(t)) ==>
              exists e :: e in VocabularyOf(tags, drop) && Lower(e) == Key(t)
  {
    var m := TagMap(tags, drop);
    var v := VocabularyOf(tags, drop);
    var keys := SortedSeq(m.Keys);
    TagMapKeys(tags, drop);
    TagMapFirst(tags, drop);
    SortedVocabularyKeys(m);
    SortedSeqSpec(m.Keys);
    forall t | t in tags && !Excluded(drop, Key(t))
      ensures exists e :: e in v && Lower(e) == Key(t)
    {
      var p :| 0 <= p < |keys| && keys[p] == Key(t);
      assert Lower(v[p]) == LowerAll(v)[p];
      assert v[p] in v;
    }
  }

  /** Each entry is the stripped spelling of the first tag with its key. */
  lemma VocabularyFirstSpelling(tags: seq<string>, drop: set<string>)
    ensures forall e :: e in VocabularyOf(tags, drop) ==>
              exists i :: FirstOccurrence(tags, i, Lower(e)) && e == Strip(tags[i])
  {
    var m := TagMap(tags, drop);
    var v := VocabularyOf(tags, drop);
    var keys := SortedSeq(m.Keys);
    TagMapFirst(tags, drop);
    SortedVocabularyKeys(m);
    forall e | e in v
      ensures exists i :: FirstOccurrence(tags, i, Lower(e)) && e == Strip(tags[i])
    {
      var p :| 0 <= p < |v| && v[p] == e;
      var k := keys[p];
      assert k in m && e == m[k];
      assert Lower(e) == LowerAll(v)[p];
      TagMapFirstKey(tags, drop, k);
    }
  }

  lemma FlattenSnoc(rows: seq<seq<string>>, row: seq<string>)
    ensures Flatten(rows + [row]) == Flatten(rows) + row
  {
    assert (rows + [row])[..|rows|] == rows;
  }

  /** The inner loop: file the tags of one row. */
  method FileRowTags(tagsMap: map<string, string>, row: seq<string>, nsfwOk: bool)
    returns (r: map<string, string>)
    ensures r == AddTags(tagsMap, row, DropSet(nsfwOk))
  {
    r := tagsMap;
    for j := 0 to |row|
      invariant r == AddTags(tagsMap, row[..j], DropSet(nsfwOk))
    {
      var tag := row[j];
      assert row[..j + 1][..j] == row[..j];
      ghost var next := AddTag(r, tag, DropSet(nsfwOk));
      assert AddTags(tagsMap, row[..j + 1], DropSet(nsfwOk)) == next;
      var tagClean := Strip(tag);
      var tagLower := Lower(tagClean);
      assert Excluded(DropSet(nsfwOk), tagLower) <==> !nsfwOk && tagLower in NsfwTags;
      if !nsfwOk && tagLower in NsfwTags {
        continue;
      }
      if tagLower !in r {
        r := r[tagLower := tagClean];
      }
    }
    assert row[..|row|] == row;
  }

  /** The nested loop over rows and tags, then `sorted(tags_map.values(), key=lower)`. */
  method BuildVocabulary(rows: seq<seq<string>>, nsfwOk: bool) returns (vocab: seq<string>)
    ensures vocab == VocabularyOf(Flatten(rows), DropSet(nsfwOk))
  {
    var tagsMap: map<string, string> := map[];
    for i := 0 to |rows|
      invariant tagsMap == TagMap(Flatten(rows[..i]), DropSet(nsfwOk))
    {
      assert rows[..i + 1] == rows[..i] + [rows[i]];
      FlattenSnoc(rows[..i], rows[i]);
      AddTagsAppend(map[], Flatten(rows[..i]), rows[i], DropSet(nsfwOk));
      tagsMap := FileRowTags(tagsMap, rows[i], nsfwOk);
    }
    assert rows[..|rows|] == rows;

    // Sorting the spellings by their lowercase form is sorting the keys,
    // since every spelling lowercases to its own key.
    var keys := SortStrings(tagsMap.Keys);
    SortedSeqSpec(tagsMap.Keys);
    vocab := seq(|keys|, k requires 0 <= k < |keys| => tagsMap[keys[k]]);
  }
}
