/**
 * Python's ordering of strings (code point by code point, a proper prefix
 * first) and `sorted` of a set of strings.
 */
module Lex {

  /** Python's `a <= b` on strings. */
  predicate LexLeq(a: string, b: string)
    decreases |a|
  {
    |a| == 0 || (|b| > 0 && (a[0] < b[0] || (a[0] == b[0] && LexLeq(a[1..], b[1..]))))
  }

  lemma {:induction false} LexLeqTotal(a: string, b: string)
    ensures LexLeq(a, b) || LexLeq(b, a)
    decreases |a|
  {
    if |a| > 0 && |b| > 0 && a[0] == b[0] {
      LexLeqTotal(a[1..], b[1..]);
    }
  }

  lemma {:induction false} LexLeqAntisymmetric(a: string, b: string)
    requires LexLeq(a, b) && LexLeq(b, a)
    ensures a == b
    decreases |a|
  {
    if |a| > 0 {
      LexLeqAntisymmetric(a[1..], b[1..]);
      assert a == [a[0]] + a[1..] && b == [b[0]] + b[1..];
    }
  }

  lemma {:induction false} LexLeqTransitive(a: string, b: string, c: string)
    requires LexLeq(a, b) && LexLeq(b, c)
    ensures LexLeq(a, c)
    decreases |a|
  {
    if |a| > 0 && |b| > 0 && |c| > 0 && a[0] == b[0] && b[0] == c[0] {
      LexLeqTransitive(a[1..], b[1..], c[1..]);
    }
  }

  lemma LexLeqAntisymmetricAll()
    ensures forall a, b :: LexLeq(a, b) && LexLeq(b, a) ==> a == b
  {
    forall a, b | LexLeq(a, b) && LexLeq(b, a) ensures a == b {
      LexLeqAntisymmetric(a, b);
    }
  }

  /** Strictly increasing in Python's order, hence without duplicates. */
  predicate StrictlySorted(s: seq<string>) {
    forall i, j :: 0 <= i < j < |s| ==> LexLeq(s[i], s[j]) && s[i] != s[j]
  }

  /** Every non-empty finite set of strings has a least element. */
  lemma {:induction false} MinExists(s: set<string>)
    requires s != {}
    ensures exists m :: m in s && forall x :: x in s ==> LexLeq(m, x)
    decreases |s|
  {
    var y :| y in s;
    if s == {y} {
      LexLeqTotal(y, y);
    } else {
      MinExists(s - {y});
      var m :| m in s - {y} && forall x :: x in s - {y} ==> LexLeq(m, x);
      LexLeqTotal(m, y);
      if LexLeq(m, y) {
        assert forall x :: x in s ==> LexLeq(m, x);
      } else {
        forall x | x in s ensures LexLeq(y, x) {
          if x != y {
            LexLeqTransitive(y, m, x);
          } else {
            LexLeqTotal(y, y);
          }
        }
      }
    }
  }

  /** The least element of a non-empty set of strings. */
  function MinOf(s: set<string>): (m: string)
    requires s != {}
    ensures m in s
    ensures forall x :: x in s ==> LexLeq(m, x)
  {
    MinExists(s);
    LexLeqAntisymmetricAll();
    var m :| m in s && forall x :: x in s ==> LexLeq(m, x);
    m
  }

  /** Python's `sorted(s)` for a set of strings. */
  function SortedSeq(s: set<string>): (r: seq<string>)
    ensures |r| == |s|
    decreases |s|
  {
    if s == {} then []
    else
      var m := MinOf(s);
      [m] + SortedSeq(s - {m})
  }

  /** `sorted(s)` lists exactly the elements of `s`, in strictly increasing order. */
  lemma {:induction false} SortedSeqSpec(s: set<string>)
    ensures forall x :: x in SortedSeq(s) <==> x in s
    ensures StrictlySorted(SortedSeq(s))
    decreases |s|
  {
    if s != {} {
      var m := MinOf(s);
      var rest := SortedSeq(s - {m});
      SortedSeqSpec(s - {m});
      var r := [m] + rest;
      assert SortedSeq(s) == r;
      forall i, j | 0 <= i < j < |r|
        ensures LexLeq(r[i], r[j]) && r[i] != r[j]
      {
        assert r[j] == rest[j - 1] && r[j] in s - {m};
        if i > 0 {
          assert r[i] == rest[i - 1];
        }
      }
      forall x
        ensures x in r <==> x in s
      {
        if x in r && x != m {
          assert x in rest;
        }
      }
    }
  }

  /** The head of a strictly sorted enumeration of `s` is the least element of `s`. */
  lemma HeadIsMin(r: seq<string>, s: set<string>)
    requires StrictlySorted(r) && r != []
    requires forall x :: x in r <==> x in s
    ensures s != {} && r[0] == MinOf(s)
  {
    assert r[0] in s;
    var m := MinOf(s);
    var j :| 0 <= j < |r| && r[j] == m;
    if j == 0 {
    } else {
      LexLeqAntisymmetric(m, r[0]);
    }
  }

  /** The tail of a strictly sorted enumeration of `s` enumerates `s` without its head. */
  lemma TailEnumerates(r: seq<string>, s: set<string>)
    requires StrictlySorted(r) && r != []
    requires forall x :: x in r <==> x in s
    ensures StrictlySorted(r[1..])
    ensures forall x :: x in r[1..] <==> x in s - {r[0]}
  {
    forall x ensures x in r[1..] <==> x in s - {r[0]} {
      if x in r[1..] {
        var j :| 1 <= j < |r| && r[j] == x;
      }
      if x in s - {r[0]} {
        var j :| 0 <= j < |r| && r[j] == x;
        assert j != 0;
        assert x == r[1..][j - 1];
      }
    }
  }

  /** The strictly sorted enumeration of a set is unique. */
  lemma {:induction false} StrictlySortedUnique(r: seq<string>, s: set<string>)
    requires StrictlySorted(r)
    requires forall x :: x in r <==> x in s
    ensures r == SortedSeq(s)
    decreases |r|
  {
    if r == [] {
      assert s == {};
    } else {
      HeadIsMin(r, s);
      TailEnumerates(r, s);
      StrictlySortedUnique(r[1..], s - {r[0]});
      SortedSeqUnfold(s);
    }
  }

  lemma SortedSeqUnfold(s: set<string>)
    requires s != {}
    ensures SortedSeq(s) == [MinOf(s)] + SortedSeq(s - {MinOf(s)})
  {
  }

  /** `sorted(s)` computed by repeatedly taking the least remaining element. */
  method SortStrings(s: set<string>) returns (r: seq<string>)
    ensures r == SortedSeq(s)
  {
    r := [];
    var rest := s;
    while rest != {}
      invariant rest <= s
      invariant r + SortedSeq(rest) == SortedSeq(s)
      decreases |rest|
    {
      var m := MinOf(rest);
      SortedSeqUnfold(rest);
      r := r + [m];
      rest := rest - {m};
    }
  }
}
