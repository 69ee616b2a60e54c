/**
 * Python's `list.sort(key=..., reverse=True)`: a stable sort into
 * descending key order, where elements with equal keys keep their
 * original relative order.
 */
module StableSort {

  predicate SortedDesc<T>(s: seq<T>, key: T -> real) {
    forall i, j :: 0 <= i < j < |s| ==> key(s[i]) >= key(s[j])
  }

  /** Inserts `x` after every element whose key is at least `key(x)`. */
  function InsertDesc<T>(s: seq<T>, x: T, key: T -> real): (r: seq<T>)
    ensures |r| == |s| + 1
  {
    if |s| == 0 then [x]
    else if key(s[0]) >= key(x) then [s[0]] + InsertDesc(s[1..], x, key)
    else [x] + s
  }

  /** The specification of the sort: insert the elements one by one, in input order. */
  function SortDesc<T>(s: seq<T>, key: T -> real): (r: seq<T>)
    ensures |r| == |s|
  {
    if |s| == 0 then [] else InsertDesc(SortDesc(s[..|s| - 1], key), s[|s| - 1], key)
  }

  /** The elements whose key equals `v`, in order. */
  function WithKey<T>(s: seq<T>, v: real, key: T -> real): (r: seq<T>)
  {
    if |s| == 0 then [] else (if key(s[0]) == v then [s[0]] else []) + WithKey(s[1..], v, key)
  }

  lemma {:induction false} InsertDescMultiset<T>(s: seq<T>, x: T, key: T -> real)
    ensures multiset(InsertDesc(s, x, key)) == multiset(s) + multiset{x}
  {
    if |s| > 0 {
      assert s == [s[0]] + s[1..];
      if key(s[0]) >= key(x) {
        InsertDescMultiset(s[1..], x, key);
      }
    }
  }

  lemma {:induction false} InsertDescSorted<T>(s: seq<T>, x: T, key: T -> real)
    requires SortedDesc(s, key)
    ensures SortedDesc(InsertDesc(s, x, key), key)
  {
    if |s| > 0 && key(s[0]) >= key(x) {
      var rest := InsertDesc(s[1..], x, key);
      InsertDescSorted(s[1..], x, key);
      InsertDescMultiset(s[1..], x, key);
      forall j | 0 <= j < |rest| ensures key(s[0]) >= key(rest[j]) {
        assert rest[j] in multiset(rest);
        assert rest[j] == x || rest[j] in multiset(s[1..]);
      }
    }
  }

  /** Only the keys equal to `key(x)` see the new element, and it comes last among them. */
  lemma {:induction false} InsertDescWithKey<T>(s: seq<T>, x: T, v: real, key: T -> real)
    requires SortedDesc(s, key)
    ensures WithKey(InsertDesc(s, x, key), v, key)
         == WithKey(s, v, key) + (if key(x) == v then [x] else [])
  {
    var r := InsertDesc(s, x, key);
    if |s| == 0 {
      assert r == [x];
    } else if key(s[0]) >= key(x) {
      assert SortedDesc(s[1..], key) by {
        forall i, j | 0 <= i < j < |s[1..]| ensures key(s[1..][i]) >= key(s[1..][j]) {
          assert s[1..][i] == s[i + 1] && s[1..][j] == s[j + 1];
        }
      }
      InsertDescWithKey(s[1..], x, v, key);
      assert r[0] == s[0] && r[1..] == InsertDesc(s[1..], x, key);
      assert WithKey(r, v, key) == (if key(s[0]) == v then [s[0]] else []) + WithKey(r[1..], v, key);
      assert WithKey(s, v, key) == (if key(s[0]) == v then [s[0]] else []) + WithKey(s[1..], v, key);
    } else {
      assert r[0] == x && r[1..] == s;
      assert WithKey(r, v, key) == (if key(x) == v then [x] else []) + WithKey(s, v, key);
      if key(x) == v {
        NoneWithKey(s, v, key);
      }
    }
  }

  lemma {:induction false} NoneWithKey<T>(s: seq<T>, v: real, key: T -> real)
    requires forall i :: 0 <= i < |s| ==> key(s[i]) < v
    ensures WithKey(s, v, key) == []
  {
    if |s| > 0 {
      NoneWithKey(s[1..], v, key);
    }
  }

  lemma {:induction false} WithKeySnoc<T>(s: seq<T>, x: T, v: real, key: T -> real)
    ensures WithKey(s + [x], v, key) == WithKey(s, v, key) + (if key(x) == v then [x] else [])
  {
    if |s| > 0 {
      assert (s + [x])[1..] == s[1..] + [x];
      WithKeySnoc(s[1..], x, v, key);
    }
  }

  /**
   * The sort is correct: its result is descending, a permutation of the
   * input, and stable (for every key value, the elements with that key
   * appear in the same order as in the input).
   */
  lemma {:induction false} SortDescSpec<T>(s: seq<T>, key: T -> real)
    ensures SortedDesc(SortDesc(s, key), key)
    ensures multiset(SortDesc(s, key)) == multiset(s)
    ensures forall v :: WithKey(SortDesc(s, key), v, key) == WithKey(s, v, key)
  {
    if |s| > 0 {
      var init, last := s[..|s| - 1], s[|s| - 1];
      assert s == init + [last];
      SortDescSpec(init, key);
      InsertDescSorted(SortDesc(init, key), last, key);
      InsertDescMultiset(SortDesc(init, key), last, key);
      forall v ensures WithKey(SortDesc(s, key), v, key) == WithKey(s, v, key) {
        InsertDescWithKey(SortDesc(init, key), last, v, key);
        WithKeySnoc(init, last, v, key);
      }
    }
  }

  /** Where `InsertDesc` puts the new element in a descending sequence. */
  lemma {:induction false} InsertDescAt<T>(s: seq<T>, x: T, k: nat, key: T -> real)
    requires k <= |s|
    requires forall i :: 0 <= i < k ==> key(s[i]) >= key(x)
    requires forall i :: k <= i < |s| ==> key(s[i]) < key(x)
    ensures InsertDesc(s, x, key) == s[..k] + [x] + s[k..]
  {
    if |s| > 0 && k > 0 {
      InsertDescAt(s[1..], x, k - 1, key);
      assert s[..k] == [s[0]] + s[1..][..k - 1];
      assert s[k..] == s[1..][k - 1..];
    }
  }

  /**
   * Shifts the elements of `a[..i]` whose key is below `key(x)` one place
   * to the right, scanning from `i - 1` downwards, and returns the gap.
   */
  method ShiftSmaller<T>(a: array<T>, i: nat, x: T, key: T -> real) returns (j: nat)
    requires i < a.Length
    modifies a
    ensures j <= i
    ensures forall k :: 0 <= k < j ==> a[k] == old(a[k])
    ensures forall k :: j < k <= i ==> a[k] == old(a[k - 1])
    ensures forall k :: j <= k < i ==> key(old(a[k])) < key(x)
    ensures j > 0 ==> key(old(a[j - 1])) >= key(x)
    ensures forall k :: i < k < a.Length ==> a[k] == old(a[k])
  {
    j := i;
    while j > 0 && key(a[j - 1]) < key(x)
      invariant 0 <= j <= i
      invariant forall k :: 0 <= k < j ==> a[k] == old(a[k])
      invariant forall k :: j < k <= i ==> a[k] == old(a[k - 1])
      invariant forall k :: j <= k < i ==> key(old(a[k])) < key(x)
      invariant forall k :: i < k < a.Length ==> a[k] == old(a[k])
    {
      a[j] := a[j - 1];
      j := j - 1;
    }
  }

  /** Moves `a[i]` left into the descending prefix `a[..i]`, past every smaller key. */
  method InsertIntoPrefix<T>(a: array<T>, i: nat, key: T -> real)
    requires i < a.Length
    requires SortedDesc(a[..i], key)
    modifies a
    ensures a[..i + 1] == InsertDesc(old(a[..i]), old(a[i]), key)
    ensures a[i + 1..] == old(a[i + 1..])
  {
    ghost var sorted := a[..i];
    var x := a[i];
    var j := ShiftSmaller(a, i, x, key);
    a[j] := x;
    forall k | 0 <= k < j ensures key(sorted[k]) >= key(x) {
      assert key(sorted[k]) >= key(sorted[j - 1]);
    }
    InsertDescAt(sorted, x, j, key);
    Spliced(a[..i + 1], sorted, x, j);
    assert a[i + 1..] == old(a[i + 1..]);
  }

  /** A sequence that agrees with `s[..j] + [x] + s[j..]` pointwise is that sequence. */
  lemma Spliced<T>(b: seq<T>, s: seq<T>, x: T, j: nat)
    requires j <= |s| && |b| == |s| + 1
    requires forall k :: 0 <= k < j ==> b[k] == s[k]
    requires b[j] == x
    requires forall k :: j < k < |b| ==> b[k] == s[k - 1]
    ensures b == s[..j] + [x] + s[j..]
  {
  }

  /** In-place insertion sort; `a` ends up holding `SortDesc` of its old contents. */
  method SortInPlace<T>(a: array<T>, key: T -> real)
    modifies a
    ensures a[..] == SortDesc(old(a[..]), key)
  {
    ghost var input := a[..];
    var i := 0;
    while i < a.Length
      invariant 0 <= i <= a.Length
      invariant a[..i] == SortDesc(input[..i], key)
      invariant a[i..] == input[i..]
    {
      SortDescSpec(input[..i], key);
      InsertIntoPrefix(a, i, key);
      assert input[..i + 1][..i] == input[..i];
      i := i + 1;
    }
    assert input[..a.Length] == input;
  }
}
