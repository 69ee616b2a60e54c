/** Sequence helpers shared by the backend and the frontend models. */
module Seqs {

  /** No element occurs twice. */
  predicate NoDup<T(==)>(s: seq<T>) {
    forall i, j :: 0 <= i < j < |s| ==> s[i] != s[j]
  }

  /** The elements of `s` that satisfy `p`, in order. */
  function Filter<T(!new)>(s: seq<T>, p: T -> bool): (r: seq<T>)
    ensures |r| <= |s|
    ensures forall x :: x in r <==> x in s && p(x)
  {
    if |s| == 0 then []
    else
      assert s == [s[0]] + s[1..];
      (if p(s[0]) then [s[0]] else []) + Filter(s[1..], p)
  }

  lemma {:induction false} FilterAppend<T(!new)>(a: seq<T>, b: seq<T>, p: T -> bool)
    ensures Filter(a + b, p) == Filter(a, p) + Filter(b, p)
  {
    if |a| > 0 {
      assert (a + b)[1..] == a[1..] + b;
      FilterAppend(a[1..], b, p);
    } else {
      assert a + b == b;
    }
  }

  /** Appending one element, the step of a loop that filters as it goes. */
  lemma FilterSnoc<T(!new)>(s: seq<T>, x: T, p: T -> bool)
    ensures Filter(s + [x], p) == Filter(s, p) + (if p(x) then [x] else [])
  {
    FilterAppend(s, [x], p);
  }

  /**
   * Filtering keeps the order: an element that passes lands at the index
   * given by how many elements before it pass.
   */
  lemma {:induction false} FilterPositions<T(!new)>(s: seq<T>, p: T -> bool)
    ensures forall i :: 0 <= i < |s| && p(s[i]) ==>
              |Filter(s[..i], p)| < |Filter(s, p)| && Filter(s, p)[|Filter(s[..i], p)|] == s[i]
  {
    if |s| > 0 {
      var init, x := s[..|s| - 1], s[|s| - 1];
      assert s == init + [x];
      FilterPositions(init, p);
      FilterSnoc(init, x, p);
      forall i | 0 <= i < |s| && p(s[i])
        ensures |Filter(s[..i], p)| < |Filter(s, p)| && Filter(s, p)[|Filter(s[..i], p)|] == s[i]
      {
        if i < |init| {
          assert s[..i] == init[..i] && s[i] == init[i];
        } else {
          assert s[..i] == init;
        }
      }
    }
  }

  lemma MultisetSplice<T>(x: seq<T>, y: seq<T>, h: seq<T>, g: seq<T>, a: seq<T>, b: seq<T>)
    requires x == h + a && y == g + b
    ensures multiset(x + y) == multiset(h) + multiset(g) + multiset(a + b)
  {
    assert x + y == h + a + (g + b);
  }

  /**
   * Two filters with disjoint conditions together take each element at
   * most as often as it occurs.
   */
  lemma {:induction false} FilterDisjoint<T(!new)>(s: seq<T>, p: T -> bool, q: T -> bool)
    requires forall x :: x in s ==> !(p(x) && q(x))
    ensures multiset(Filter(s, p) + Filter(s, q)) <= multiset(s)
  {
    if |s| > 0 {
      var t := s[1..];
      assert s == [s[0]] + t;
      assert forall x :: x in t ==> x in s;
      FilterDisjoint(t, p, q);
      var h := if p(s[0]) then [s[0]] else [];
      var g := if q(s[0]) then [s[0]] else [];
      MultisetSplice(Filter(s, p), Filter(s, q), h, g, Filter(t, p), Filter(t, q));
      assert multiset(h) + multiset(g) <= multiset{s[0]};
    }
  }

  /**
   * First-occurrence de-duplication: the order in which a JavaScript `Set`
   * keeps its elements.
   */
  function Dedup<T(==,!new)>(s: seq<T>): (r: seq<T>)
    ensures NoDup(r)
    ensures forall x :: x in r <==> x in s
    ensures |r| <= |s|
  {
    if |s| == 0 then []
    else
      var prefix := Dedup(s[..|s| - 1]);
      if s[|s| - 1] in prefix then prefix else prefix + [s[|s| - 1]]
  }

  lemma DedupSnoc<T(!new)>(s: seq<T>, x: T)
    ensures Dedup(s + [x]) == if x in Dedup(s) then Dedup(s) else Dedup(s) + [x]
  {
    assert (s + [x])[..|s|] == s;
  }

  /** A duplicate-free sequence is its own de-duplication. */
  lemma {:induction false} DedupOfNoDup<T(!new)>(s: seq<T>)
    requires NoDup(s)
    ensures Dedup(s) == s
  {
    if |s| > 0 {
      var init := s[..|s| - 1];
      DedupOfNoDup(init);
      assert s == init + [s[|s| - 1]];
    }
  }

  /**
   * The end index of the Python slice `s[:k]` (and of the JavaScript call
   * `s.slice(0, k)`) on a sequence of length `len`: a negative `k` counts
   * from the end.
   */
  function SliceEnd(len: nat, k: int): (e: nat)
    ensures e <= len
    ensures k >= 0 ==> e == if k < len then k else len
    ensures k < 0 ==> e == if len + k > 0 then len + k else 0
  {
    if k >= 0 then (if k < len then k else len)
    else if len + k > 0 then len + k else 0
  }

  /** The Python slice `s[:k]`. */
  function Take<T>(s: seq<T>, k: int): (r: seq<T>)
    ensures |r| == SliceEnd(|s|, k)
    ensures r == s[..|r|]
  {
    s[..SliceEnd(|s|, k)]
  }

  /** The concatenation of a list of lists. */
  function Concat<T>(ss: seq<seq<T>>): seq<T> {
    if |ss| == 0 then [] else ss[0] + Concat(ss[1..])
  }

  /**
   * `[s[i:i+n] for i in range(0, len(s), n)]`: consecutive slices of `n`
   * elements, the last one possibly shorter.
   */
  function Chunks<T>(s: seq<T>, n: nat): seq<seq<T>>
    requires n > 0
    decreases |s|
  {
    if |s| == 0 then []
    else if |s| <= n then [s]
    else [s[..n]] + Chunks(s[n..], n)
  }

  /** The first chunk is the first `n` elements (or all of them), followed by the chunks of the rest. */
  lemma ChunksCons<T>(s: seq<T>, n: nat)
    requires n > 0 && |s| > 0
    ensures var e := if n < |s| then n else |s|;
            Chunks(s, n) == [s[..e]] + Chunks(s[e..], n)
  {
    if |s| <= n {
      assert s[..|s|] == s;
      assert Chunks(s[|s|..], n) == [];
    }
  }

  /** The chunks put back together give the list. */
  lemma {:induction false} ChunksConcat<T>(s: seq<T>, n: nat)
    requires n > 0
    ensures Concat(Chunks(s, n)) == s
    decreases |s|
  {
    if |s| > n {
      ChunksConcat(s[n..], n);
      assert s == s[..n] + s[n..];
    } else if |s| > 0 {
      assert Concat(Chunks(s, n)) == s + Concat([]);
    }
  }

  /** Each chunk holds between 1 and `n` elements, and every chunk but the last holds exactly `n`. */
  lemma {:induction false} ChunksSizes<T>(s: seq<T>, n: nat)
    requires n > 0
    ensures forall i :: 0 <= i < |Chunks(s, n)| ==> 0 < |Chunks(s, n)[i]| <= n
    ensures forall i :: 0 <= i < |Chunks(s, n)| - 1 ==> |Chunks(s, n)[i]| == n
    decreases |s|
  {
    if |s| > n {
      ChunksSizes(s[n..], n);
      var c := Chunks(s, n);
      assert forall i :: 1 <= i < |c| ==> c[i] == Chunks(s[n..], n)[i - 1];
    }
  }

  /** Every element of a set, each once, in an order the caller may not rely on. */
  method SetToSeq<T(!new)>(s: set<T>) returns (r: seq<T>)
    ensures NoDup(r)
    ensures forall x :: x in r <==> x in s
    ensures |r| == |s|
  {
    r := [];
    var rest := s;
    while rest != {}
      invariant rest <= s
      invariant NoDup(r)
      invariant forall x :: x in r <==> x in s && x !in rest
      invariant |r| + |rest| == |s|
      decreases |rest|
    {
      var x :| x in rest;
      r := r + [x];
      rest := rest - {x};
    }
  }
}
