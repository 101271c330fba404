/** Python's ordering of strings and the `sorted(...)` built-in on strings. */
module Ordering {
  import opened Text

  /** `a <= b` on Python strings: lexicographic by code point, a proper prefix first. */
  predicate Below(a: string, b: string)
  {
    if |a| == 0 then true
    else if |b| == 0 then false
    else a[0] < b[0] || (a[0] == b[0] && Below(a[1..], b[1..]))
  }

  lemma {:induction false} BelowReflexive(a: string)
    ensures Below(a, a)
  {
    if |a| > 0 {
      BelowReflexive(a[1..]);
    }
  }

  lemma {:induction false} BelowAntisymmetric(a: string, b: string)
    requires Below(a, b) && Below(b, a)
    ensures a == b
  {
    if |a| > 0 && |b| > 0 {
      BelowAntisymmetric(a[1..], b[1..]);
      assert a == [a[0]] + a[1..] && b == [b[0]] + b[1..];
    }
  }

  lemma {:induction false} BelowTransitive(a: string, b: string, c: string)
    requires Below(a, b) && Below(b, c)
    ensures Below(a, c)
  {
    if |a| > 0 && |b| > 0 && |c| > 0 && a[0] == b[0] == c[0] {
      BelowTransitive(a[1..], b[1..], c[1..]);
    }
  }

  lemma {:induction false} BelowTotal(a: string, b: string)
    ensures Below(a, b) || Below(b, a)
  {
    if |a| > 0 && |b| > 0 && a[0] == b[0] {
      BelowTotal(a[1..], b[1..]);
    }
  }

  /** A common prefix does not change how two strings compare. */
  lemma {:induction false} BelowAfterCommonPrefix(d: string, a: string, b: string)
    ensures Below(d + a, d + b) <==> Below(a, b)
  {
    if |d| > 0 {
      BelowAfterCommonPrefix(d[1..], a, b);
      assert (d + a)[1..] == d[1..] + a && (d + b)[1..] == d[1..] + b;
    } else {
      assert d + a == a && d + b == b;
    }
  }

  predicate Sorted(s: seq<string>)
  {
    forall i, j :: 0 <= i < j < |s| ==> Below(s[i], s[j])
  }

  predicate Distinct<T(==)>(s: seq<T>)
  {
    forall i, j :: 0 <= i < j < |s| ==> s[i] != s[j]
  }

  /** Ascending without repetitions: the shape of `sorted(some_set)`. */
  predicate StrictlySorted(s: seq<string>)
  {
    Sorted(s) && Distinct(s)
  }

  /** An element below every element of an ascending list can go in front of it. */
  lemma ConsSorted(x: string, rest: seq<string>)
    requires Sorted(rest)
    requires forall z :: z in rest ==> Below(x, z)
    ensures Sorted([x] + rest)
  {
    var r := [x] + rest;
    forall i, j | 0 <= i < j < |r|
      ensures Below(r[i], r[j])
    {
      assert r[j] == rest[j - 1];
      if i > 0 {
        assert r[i] == rest[i - 1];
      } else {
        assert rest[j - 1] in rest;
      }
    }
  }

  /** ... and one below and different from every element keeps it strictly ascending. */
  lemma ConsStrictlySorted(x: string, rest: seq<string>)
    requires StrictlySorted(rest)
    requires forall z :: z in rest ==> Below(x, z) && z != x
    ensures StrictlySorted([x] + rest)
  {
    ConsSorted(x, rest);
    var r := [x] + rest;
    forall i, j | 0 <= i < j < |r|
      ensures r[i] != r[j]
    {
      assert r[j] == rest[j - 1];
      if i > 0 {
        assert r[i] == rest[i - 1];
      } else {
        assert rest[j - 1] in rest;
      }
    }
  }

  /** Putting the same text in front of every element keeps an ascending list ascending. */
  lemma PrefixedSorted(pre: string, xs: seq<string>)
    requires Sorted(xs)
    ensures Sorted(Prefixed(pre, xs))
  {
    forall i, j | 0 <= i < j < |xs|
      ensures Below(Prefixed(pre, xs)[i], Prefixed(pre, xs)[j])
    {
      BelowAfterCommonPrefix(pre, xs[i], xs[j]);
    }
  }

  /** ... and keeps a list without repetitions without repetitions. */
  lemma PrefixedStrictlySorted(pre: string, xs: seq<string>)
    requires StrictlySorted(xs)
    ensures StrictlySorted(Prefixed(pre, xs))
  {
    PrefixedSorted(pre, xs);
    forall i, j | 0 <= i < j < |xs|
      ensures Prefixed(pre, xs)[i] != Prefixed(pre, xs)[j]
    {
      assert Prefixed(pre, xs)[i][|pre|..] == xs[i];
      assert Prefixed(pre, xs)[j][|pre|..] == xs[j];
    }
  }

  /** Inserts `x` before the first element it is below. */
  function Insert(x: string, s: seq<string>): (r: seq<string>)
    ensures multiset(r) == multiset(s) + multiset{x}
    ensures forall y :: y in r <==> y == x || y in s
  {
    if |s| == 0 then [x]
    else if Below(x, s[0]) then [x] + s
    else
      assert s == [s[0]] + s[1..];
      [s[0]] + Insert(x, s[1..])
  }

  /** Inserting into a sorted sequence keeps it sorted. */
  lemma {:induction false} InsertSorted(x: string, s: seq<string>)
    requires Sorted(s)
    ensures Sorted(Insert(x, s))
  {
    if |s| > 0 {
      if Below(x, s[0]) {
        forall z | z in s ensures Below(x, z) {
          var j :| 0 <= j < |s| && s[j] == z;
          if j > 0 { BelowTransitive(x, s[0], s[j]); }
        }
        ConsSorted(x, s);
      } else {
        BelowTotal(x, s[0]);
        InsertSorted(x, s[1..]);
        var rest := Insert(x, s[1..]);
        forall z | z in rest ensures Below(s[0], z) {
          if z != x {
            var j :| 0 <= j < |s| - 1 && s[1..][j] == z;
            assert Below(s[0], s[j + 1]);
          }
        }
        ConsSorted(s[0], rest);
      }
    }
  }

  /** Inserting a new element into a repetition-free sequence keeps it repetition-free. */
  lemma {:induction false} InsertDistinct(x: string, s: seq<string>)
    requires Distinct(s) && x !in s
    ensures Distinct(Insert(x, s))
  {
    if |s| > 0 && !Below(x, s[0]) {
      InsertDistinct(x, s[1..]);
      assert s[0] !in s[1..];
      assert Insert(x, s) == [s[0]] + Insert(x, s[1..]);
    }
  }

  /** `sorted(s)` on a list: insertion sort. */
  function SortSeq(s: seq<string>): (r: seq<string>)
    ensures multiset(r) == multiset(s)
    ensures |r| == |s|
  {
    if |s| == 0 then []
    else
      assert s == [s[0]] + s[1..];
      Insert(s[0], SortSeq(s[1..]))
  }

  /** What `sorted` returns is ascending. */
  lemma {:induction false} SortSeqSorted(s: seq<string>)
    ensures Sorted(SortSeq(s))
  {
    if |s| > 0 {
      SortSeqSorted(s[1..]);
      InsertSorted(s[0], SortSeq(s[1..]));
    }
  }

  /** Two ascending sequences holding the same elements, repetitions included, are equal:
      sorting leaves no freedom. */
  lemma {:induction false} SortedUnique(a: seq<string>, b: seq<string>)
    requires Sorted(a) && Sorted(b)
    requires multiset(a) == multiset(b)
    ensures a == b
    decreases |a|
  {
    SameLength(a, b);
    if |a| > 0 {
      SortedHeads(a, b);
      MultisetOfTail(a);
      MultisetOfTail(b);
      SortedTail(a);
      SortedTail(b);
      SortedUnique(a[1..], b[1..]);
      assert a == [a[0]] + a[1..] && b == [b[0]] + b[1..];
    }
  }

  lemma SameLength(a: seq<string>, b: seq<string>)
    requires multiset(a) == multiset(b)
    ensures |a| == |b|
  {
    assert |a| == |multiset(a)| && |b| == |multiset(b)|;
  }

  /** Two ascending sequences with the same elements start alike. */
  lemma SortedHeads(a: seq<string>, b: seq<string>)
    requires Sorted(a) && Sorted(b) && |a| > 0 && |b| > 0
    requires multiset(a) == multiset(b)
    ensures a[0] == b[0]
  {
    assert a[0] in multiset(b) && b[0] in multiset(a);
    SortedHeadBelowAll(b, a[0]);
    SortedHeadBelowAll(a, b[0]);
    BelowAntisymmetric(a[0], b[0]);
  }

  lemma SortedTail(a: seq<string>)
    requires Sorted(a) && |a| > 0
    ensures Sorted(a[1..])
  {
    forall i, j | 0 <= i < j < |a| - 1
      ensures Below(a[1..][i], a[1..][j])
    {
      assert a[1..][i] == a[i + 1] && a[1..][j] == a[j + 1];
    }
  }

  /** The first element of an ascending sequence is below all of its elements. */
  lemma SortedHeadBelowAll(a: seq<string>, x: string)
    requires Sorted(a) && x in a
    ensures Below(a[0], x)
  {
    var i :| 0 <= i < |a| && a[i] == x;
    if i == 0 { BelowReflexive(x); }
  }

  lemma MultisetOfTail(a: seq<string>)
    requires |a| > 0
    ensures multiset(a[1..]) == multiset(a) - multiset{a[0]}
  {
    assert a == [a[0]] + a[1..];
  }

  /** `sorted` depends only on the elements it is given, not on their order. */
  lemma SortSeqOrderIrrelevant(a: seq<string>, b: seq<string>)
    requires multiset(a) == multiset(b)
    ensures SortSeq(a) == SortSeq(b)
  {
    SortSeqSorted(a);
    SortSeqSorted(b);
    SortedUnique(SortSeq(a), SortSeq(b));
  }

  /** `x` is a least element of `s`. */
  ghost predicate IsLeast(x: string, s: set<string>)
  {
    x in s && forall y :: y in s ==> Below(x, y)
  }

  /** Adding an element to a set keeps a least element: the old one or the new one. */
  lemma LeastOfAdded(m: string, z: string, s: set<string>)
    requires z in s && IsLeast(m, s - {z})
    ensures IsLeast(m, s) || IsLeast(z, s)
  {
    BelowTotal(m, z);
    if !Below(m, z) {
      forall y | y in s ensures Below(z, y) {
        if y == z { BelowReflexive(z); } else { BelowTransitive(z, m, y); }
      }
    }
  }

  /** Every non-empty finite set of strings has a least element. */
  lemma {:induction false} LeastExists(s: set<string>)
    requires s != {}
    ensures exists x :: IsLeast(x, s)
  {
    var z :| z in s;
    if s == {z} {
      BelowReflexive(z);
      assert IsLeast(z, s);
    } else {
      LeastExists(s - {z});
      var m :| IsLeast(m, s - {z});
      LeastOfAdded(m, z, s);
    }
  }

  /** `sorted(s)` on a set: its elements, least first, each once. */
  ghost function SortedSet(s: set<string>): (r: seq<string>)
    ensures forall x :: x in r <==> x in s
    ensures |r| == |s|
    decreases |s|
  {
    if s == {} then []
    else
      LeastExists(s);
      var x :| IsLeast(x, s);
      [x] + SortedSet(s - {x})
  }

  /** The sorted set is ascending and free of repetitions. */
  lemma {:induction false} SortedSetIsStrictlySorted(s: set<string>)
    ensures StrictlySorted(SortedSet(s))
    decreases |s|
  {
    if s != {} {
      LeastExists(s);
      var r := SortedSet(s);
      var x := r[0];
      var rest := r[1..];
      assert rest == SortedSet(s - {x}) && IsLeast(x, s);
      SortedSetIsStrictlySorted(s - {x});
      ConsStrictlySorted(x, rest);
      assert r == [x] + rest;
    }
  }

  lemma HeadIn(s: seq<string>)
    ensures |s| > 0 ==> s[0] in s
  {
  }

  /** Two ascending repetition-free sequences with the same elements are equal. */
  lemma {:induction false} StrictlySortedUnique(a: seq<string>, b: seq<string>)
    requires StrictlySorted(a) && StrictlySorted(b)
    requires forall x :: x in a <==> x in b
    ensures a == b
  {
    HeadIn(a);
    HeadIn(b);
    if |a| > 0 && |b| > 0 {
      assert a[0] in b && b[0] in a;
      var i :| 0 <= i < |b| && b[i] == a[0];
      var j :| 0 <= j < |a| && a[j] == b[0];
      if i > 0 { assert Below(b[0], b[i]); } else { BelowReflexive(b[0]); }
      if j > 0 { assert Below(a[0], a[j]); } else { BelowReflexive(a[0]); }
      BelowAntisymmetric(a[0], b[0]);
      forall x ensures x in a[1..] <==> x in b[1..] {
        if x in a[1..] {
          var k :| 1 <= k < |a| && a[k] == x;
          assert x in b && x != b[0];
        }
        if x in b[1..] {
          var k :| 1 <= k < |b| && b[k] == x;
          assert x in a && x != a[0];
        }
      }
      StrictlySortedUnique(a[1..], b[1..]);
      assert a == [a[0]] + a[1..] && b == [b[0]] + b[1..];
    }
  }

  /** A sorted list whose elements are those of a set, each once, is the sorted set. */
  lemma SortedSeqIsSortedSet(r: seq<string>, s: set<string>)
    requires StrictlySorted(r)
    requires forall x :: x in r <==> x in s
    ensures r == SortedSet(s)
  {
    SortedSetIsStrictlySorted(s);
    StrictlySortedUnique(r, SortedSet(s));
  }

  /** `sorted(s)` for a set `s`, computed by inserting its elements one at a time. */
  method SortSet(s: set<string>) returns (r: seq<string>)
    ensures r == SortedSet(s)
  {
    r := [];
    var rest := s;
    while rest != {}
      invariant rest <= s
      invariant StrictlySorted(r)
      invariant forall x :: x in r <==> x in s && x !in rest
      decreases |rest|
    {
      var x :| x in rest;
      InsertSorted(x, r);
      InsertDistinct(x, r);
      r := Insert(x, r);
      rest := rest - {x};
    }
    SortedSeqIsSortedSet(r, s);
  }
}
