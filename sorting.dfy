/**
 * `sorted(d.items())` for a dict of strings to strings: the (key, value)
 * pairs in Python's tuple order, key first and then value.
 */
module Sorting {
  import opened Text

  type Pair = (string, string)

  /** Python's `p < q` on a pair of strings. */
  predicate PairBelow(p: Pair, q: Pair)
  {
    Below(p.0, q.0) || (p.0 == q.0 && Below(p.1, q.1))
  }

  predicate PairAtMost(p: Pair, q: Pair)
  {
    p == q || PairBelow(p, q)
  }

  predicate Sorted(s: seq<Pair>)
  {
    forall i, j :: 0 <= i < j < |s| ==> PairAtMost(s[i], s[j])
  }

  lemma PairAtMostTransitive(p: Pair, q: Pair, r: Pair)
    requires PairAtMost(p, q) && PairAtMost(q, r)
    ensures PairAtMost(p, r)
  {
    if p != q && q != r {
      if Below(p.0, q.0) && Below(q.0, r.0) {
        BelowTransitive(p.0, q.0, r.0);
      } else if p.0 == q.0 && q.0 == r.0 {
        BelowTransitive(p.1, q.1, r.1);
      }
    }
  }

  lemma PairAtMostTotal(p: Pair, q: Pair)
    ensures PairAtMost(p, q) || PairAtMost(q, p)
  {
    if p.0 != q.0 {
      BelowTotal(p.0, q.0);
    } else if p.1 != q.1 {
      BelowTotal(p.1, q.1);
    }
  }

  lemma PairAtMostAntisymmetric(p: Pair, q: Pair)
    requires PairAtMost(p, q) && PairAtMost(q, p)
    ensures p == q
  {
    if p != q {
      if Below(p.0, q.0) {
        if Below(q.0, p.0) {
          BelowAsymmetric(p.0, q.0);
        } else {
          BelowIrreflexive(p.0);
        }
      } else if Below(q.0, p.0) {
        BelowIrreflexive(p.0);
      } else {
        BelowAsymmetric(p.1, q.1);
      }
    }
  }

  /** Put `x` in front of the first element it does not exceed. */
  function Insert(x: Pair, s: seq<Pair>): (r: seq<Pair>)
    ensures |r| == |s| + 1
  {
    if s == [] then [x]
    else if PairAtMost(x, s[0]) then [x] + s
    else [s[0]] + Insert(x, s[1..])
  }

  /** Insertion sort: the order `sorted` produces. */
  function Sort(s: seq<Pair>): (r: seq<Pair>)
    ensures |r| == |s|
  {
    if s == [] then [] else Insert(s[0], Sort(s[1..]))
  }

  lemma {:induction false} InsertPermutation(x: Pair, s: seq<Pair>)
    ensures multiset(Insert(x, s)) == multiset(s) + multiset{x}
    decreases |s|
  {
    if s != [] && !PairAtMost(x, s[0]) {
      assert s == [s[0]] + s[1..];
      InsertPermutation(x, s[1..]);
    }
  }

  /** Every element of `Insert(x, s)` is `x` or an element of `s`. */
  lemma InsertMembers(x: Pair, s: seq<Pair>, y: Pair)
    requires y in Insert(x, s)
    ensures y == x || y in s
  {
    InsertPermutation(x, s);
    assert y in multiset(Insert(x, s));
  }

  lemma {:induction false} InsertSorted(x: Pair, s: seq<Pair>)
    requires Sorted(s)
    ensures Sorted(Insert(x, s))
    decreases |s|
  {
    if s == [] {
    } else if PairAtMost(x, s[0]) {
      var r := [x] + s;
      forall i, j | 0 <= i < j < |r|
        ensures PairAtMost(r[i], r[j])
      {
        if i == 0 && j > 1 {
          PairAtMostTransitive(x, s[0], s[j - 1]);
        }
      }
    } else {
      var t := s[1..];
      SortedTail(s);
      InsertSorted(x, t);
      var u := Insert(x, t);
      PairAtMostTotal(x, s[0]);
      forall j | 0 <= j < |u|
        ensures PairAtMost(s[0], u[j])
      {
        InsertMembers(x, t, u[j]);
        if u[j] != x {
          var k :| 0 <= k < |t| && t[k] == u[j];
          assert s[k + 1] == u[j];
        }
      }
      SortedCons(s[0], u);
    }
  }

  /** A sorted sequence stays sorted behind an element at most each of its elements. */
  lemma SortedCons(x: Pair, u: seq<Pair>)
    requires Sorted(u)
    requires forall j :: 0 <= j < |u| ==> PairAtMost(x, u[j])
    ensures Sorted([x] + u)
  {
    var r := [x] + u;
    forall i, j | 0 <= i < j < |r|
      ensures PairAtMost(r[i], r[j])
    {
      if i > 0 {
        assert r[i] == u[i - 1] && r[j] == u[j - 1];
      }
    }
  }

  /** `sorted` returns its input, reordered, in non-decreasing order. */
  lemma {:induction false} SortSortedPermutation(s: seq<Pair>)
    ensures Sorted(Sort(s))
    ensures multiset(Sort(s)) == multiset(s)
    decreases |s|
  {
    if s != [] {
      SortSortedPermutation(s[1..]);
      InsertSorted(s[0], Sort(s[1..]));
      InsertPermutation(s[0], Sort(s[1..]));
      assert s == [s[0]] + s[1..];
    }
  }

  /** The head of a sorted sequence is at most each of its elements. */
  lemma SortedHeadAtMost(s: seq<Pair>, x: Pair)
    requires Sorted(s) && x in s
    ensures PairAtMost(s[0], x)
  {
    var i :| 0 <= i < |s| && s[i] == x;
    if i > 0 {
      assert PairAtMost(s[0], s[i]);
    }
  }

  lemma SortedTail(s: seq<Pair>)
    requires Sorted(s) && s != []
    ensures Sorted(s[1..])
  {
    var t := s[1..];
    forall i, j | 0 <= i < j < |t|
      ensures PairAtMost(t[i], t[j])
    {
      assert t[i] == s[i + 1] && t[j] == s[j + 1];
    }
  }

  lemma MultisetTail(s: seq<Pair>)
    requires s != []
    ensures multiset(s[1..]) == multiset(s) - multiset{s[0]}
  {
    assert s == [s[0]] + s[1..];
  }

  /** Only one arrangement of a given multiset of pairs is sorted. */
  lemma {:induction false} SortedUnique(a: seq<Pair>, b: seq<Pair>)
    requires Sorted(a) && Sorted(b)
    requires multiset(a) == multiset(b)
    ensures a == b
    decreases |a|
  {
    assert |b| == |multiset(b)| == |multiset(a)| == |a|;
    if a != [] {
      assert a[0] in multiset(b) && b[0] in multiset(a);
      SortedHeadAtMost(b, a[0]);
      SortedHeadAtMost(a, b[0]);
      PairAtMostAntisymmetric(a[0], b[0]);
      MultisetTail(a);
      MultisetTail(b);
      SortedTail(a);
      SortedTail(b);
      SortedUnique(a[1..], b[1..]);
    }
  }

  /** The sorted order does not depend on the order of the input. */
  lemma SortIgnoresOrder(a: seq<Pair>, b: seq<Pair>)
    requires multiset(a) == multiset(b)
    ensures Sort(a) == Sort(b)
  {
    SortSortedPermutation(a);
    SortSortedPermutation(b);
    SortedUnique(Sort(a), Sort(b));
  }
}
