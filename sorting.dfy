/**
 * Sorting by a three-way comparator, as `Array.prototype.sort` orders
 * every list the compiler emits. The comparators used here tie only on
 * equal values, so the sorted result is unique and does not depend on the
 * order of the input or on whether the sort is stable.
 */
module Sorting {

  /** Every pair is related one way or the other. */
  ghost predicate Total<T(!new)>(cmp: (T, T) -> int)
  {
    forall a, b :: cmp(a, b) <= 0 || cmp(b, a) <= 0
  }

  ghost predicate Transitive<T(!new)>(cmp: (T, T) -> int)
  {
    forall a, b, c :: cmp(a, b) <= 0 && cmp(b, c) <= 0 ==> cmp(a, c) <= 0
  }

  /** Only equal values compare both ways. */
  ghost predicate Antisymmetric<T(!new)>(cmp: (T, T) -> int)
  {
    forall a, b :: cmp(a, b) <= 0 && cmp(b, a) <= 0 ==> a == b
  }

  predicate SortedBy<T>(cmp: (T, T) -> int, s: seq<T>)
  {
    forall i, j :: 0 <= i < j < |s| ==> cmp(s[i], s[j]) <= 0
  }

  /** Inserts `x` before the first element it does not compare greater than. */
  function Insert<T>(cmp: (T, T) -> int, x: T, s: seq<T>): seq<T>
  {
    if s == [] then [x]
    else if cmp(x, s[0]) <= 0 then [x] + s
    else [s[0]] + Insert(cmp, x, s[1..])
  }

  /** Inserting into a sorted sequence keeps it sorted and adds exactly `x`. */
  lemma {:induction false} InsertSpec<T(!new)>(cmp: (T, T) -> int, x: T, s: seq<T>)
    requires Total(cmp) && Transitive(cmp) && SortedBy(cmp, s)
    ensures SortedBy(cmp, Insert(cmp, x, s))
    ensures multiset(Insert(cmp, x, s)) == multiset(s) + multiset{x}
  {
    if s == [] {
    } else if cmp(x, s[0]) <= 0 {
      InsertFront(cmp, x, s);
    } else {
      var tail := s[1..];
      TailSorted(cmp, s);
      InsertSpec(cmp, x, tail);
      var rest := Insert(cmp, x, tail);
      assert s == [s[0]] + tail;
      InsertAfterHead(cmp, x, s[0], tail, rest);
    }
  }

  /** `x` at most the head of a sorted sequence can go in front of it. */
  lemma InsertFront<T(!new)>(cmp: (T, T) -> int, x: T, s: seq<T>)
    requires Transitive(cmp) && SortedBy(cmp, s) && s != [] && cmp(x, s[0]) <= 0
    ensures SortedBy(cmp, [x] + s)
  {
    var r := [x] + s;
    forall i, j | 0 <= i < j < |r| ensures cmp(r[i], r[j]) <= 0 {
      if i == 0 && j > 1 {
        assert r[j] == s[j - 1];
        assert cmp(s[0], s[j - 1]) <= 0;
      }
    }
  }

  /** A head at most everything in the sorted rest, `x` included, can lead it. */
  lemma InsertAfterHead<T(!new)>(cmp: (T, T) -> int, x: T, h: T, tail: seq<T>, rest: seq<T>)
    requires Total(cmp) && SortedBy(cmp, [h] + tail) && !(cmp(x, h) <= 0)
    requires SortedBy(cmp, rest) && multiset(rest) == multiset(tail) + multiset{x}
    ensures SortedBy(cmp, [h] + rest)
    ensures multiset([h] + rest) == multiset([h] + tail) + multiset{x}
  {
    var r := [h] + rest;
    assert cmp(h, x) <= 0;
    assert ([h] + tail)[0] == h;
    forall k | 0 <= k < |rest| ensures cmp(h, rest[k]) <= 0 {
      assert rest[k] in multiset(rest);
      if rest[k] != x {
        assert rest[k] in multiset(tail);
        var j :| 0 <= j < |tail| && tail[j] == rest[k];
        assert ([h] + tail)[j + 1] == tail[j];
      }
    }
    forall i, j | 0 <= i < j < |r| ensures cmp(r[i], r[j]) <= 0 {
      if i == 0 {
        assert r[j] == rest[j - 1];
      } else {
        assert r[i] == rest[i - 1] && r[j] == rest[j - 1];
      }
    }
  }

  /** Insertion sort: a sorted permutation of `s`. */
  function SortBy<T(!new)>(cmp: (T, T) -> int, s: seq<T>): (r: seq<T>)
    requires Total(cmp) && Transitive(cmp)
    ensures SortedBy(cmp, r)
    ensures multiset(r) == multiset(s)
  {
    if s == [] then []
    else
      var rest := SortBy(cmp, s[1..]);
      InsertSpec(cmp, s[0], rest);
      assert s == [s[0]] + s[1..];
      Insert(cmp, s[0], rest)
  }

  /**
   * Under an antisymmetric order the sorted arrangement of a multiset is
   * unique: it depends only on which elements are present.
   */
  lemma {:induction false} SortedUnique<T(!new)>(cmp: (T, T) -> int, a: seq<T>, b: seq<T>)
    requires Total(cmp) && Antisymmetric(cmp)
    requires SortedBy(cmp, a) && SortedBy(cmp, b)
    requires multiset(a) == multiset(b)
    ensures a == b
    decreases |a|
  {
    assert |a| == |multiset(a)| && |b| == |multiset(b)|;
    if a != [] {
      HeadsAgree(cmp, a, b);
      TailsAgree(a, b);
      TailSorted(cmp, a);
      TailSorted(cmp, b);
      SortedUnique(cmp, a[1..], b[1..]);
      assert a == [a[0]] + a[1..] && b == [b[0]] + b[1..];
    }
  }

  /** Two sorted arrangements of one multiset start with the same element. */
  lemma HeadsAgree<T(!new)>(cmp: (T, T) -> int, a: seq<T>, b: seq<T>)
    requires Total(cmp) && Antisymmetric(cmp)
    requires SortedBy(cmp, a) && SortedBy(cmp, b)
    requires multiset(a) == multiset(b) && a != [] && b != []
    ensures a[0] == b[0]
  {
    assert a[0] in multiset(a) && b[0] in multiset(b);
    HeadIsLeast(cmp, a, b[0]);
    HeadIsLeast(cmp, b, a[0]);
  }

  lemma TailsAgree<T>(a: seq<T>, b: seq<T>)
    requires a != [] && b != [] && a[0] == b[0] && multiset(a) == multiset(b)
    ensures multiset(a[1..]) == multiset(b[1..])
  {
    assert a == [a[0]] + a[1..] && b == [b[0]] + b[1..];
    assert multiset(a[1..]) == multiset(a) - multiset{a[0]};
    assert multiset(b[1..]) == multiset(b) - multiset{a[0]};
  }

  lemma TailSorted<T>(cmp: (T, T) -> int, s: seq<T>)
    requires s != [] && SortedBy(cmp, s)
    ensures SortedBy(cmp, s[1..])
  {
    var tail := s[1..];
    forall i, j | 0 <= i < j < |tail| ensures cmp(tail[i], tail[j]) <= 0 {
      assert tail[i] == s[i + 1] && tail[j] == s[j + 1];
    }
  }

  /** The head of a sorted sequence is at most every element in it. */
  lemma HeadIsLeast<T(!new)>(cmp: (T, T) -> int, s: seq<T>, x: T)
    requires Total(cmp) && SortedBy(cmp, s)
    requires x in multiset(s)
    ensures cmp(s[0], x) <= 0
  {
    var i :| 0 <= i < |s| && s[i] == x;
  }

  /** Sorting by an antisymmetric order ignores the order of its input. */
  lemma SortByIgnoresInputOrder<T(!new)>(cmp: (T, T) -> int, s: seq<T>, t: seq<T>)
    requires Total(cmp) && Transitive(cmp) && Antisymmetric(cmp)
    requires multiset(s) == multiset(t)
    ensures SortBy(cmp, s) == SortBy(cmp, t)
  {
    SortedUnique(cmp, SortBy(cmp, s), SortBy(cmp, t));
  }

  /** Under a transitive order, a sequence whose neighbours are in order is sorted. */
  lemma {:induction false} SortedByNeighbours<T(!new)>(cmp: (T, T) -> int, s: seq<T>)
    requires Transitive(cmp)
    requires forall i :: 0 <= i < |s| - 1 ==> cmp(s[i], s[i + 1]) <= 0
    ensures SortedBy(cmp, s)
  {
    if |s| >= 2 {
      var tail := s[1..];
      forall i | 0 <= i < |tail| - 1 ensures cmp(tail[i], tail[i + 1]) <= 0 {
        assert tail[i] == s[i + 1] && tail[i + 1] == s[i + 2];
      }
      SortedByNeighbours(cmp, tail);
      forall i, j | 0 <= i < j < |s| ensures cmp(s[i], s[j]) <= 0 {
        if i > 0 {
          assert s[i] == tail[i - 1] && s[j] == tail[j - 1];
        } else if j > 1 {
          assert s[1] == tail[0] && s[j] == tail[j - 1];
          assert cmp(s[1], s[j]) <= 0;
        }
      }
    }
  }
}
