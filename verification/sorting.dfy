/**
 * A stable insertion sort, standing for `Array.prototype.sort` with a
 * comparator.  The comparator is given as a "less than or equal" relation.
 */
module Sorting {
  import opened Seqs

  /** Any two values are comparable. */
  ghost predicate Total<T(!new)>(le: (T, T) -> bool) {
    forall a, b :: le(a, b) || le(b, a)
  }

  /** Every element is related to its successor. */
  predicate Sorted<T>(le: (T, T) -> bool, s: seq<T>) {
    forall i :: 0 < i < |s| ==> le(s[i - 1], s[i])
  }

  /** Inserts `x` before the first element it is not above. */
  function Insert<T(!new)>(le: (T, T) -> bool, x: T, s: seq<T>): (r: seq<T>)
    ensures multiset(r) == multiset(s) + multiset{x}
    ensures forall y :: y in r <==> y == x || y in s
    ensures |s| > 0 ==> r[0] == x || r[0] == s[0]
  {
    if |s| == 0 then [x]
    else if le(x, s[0]) then [x] + s
    else
      assert s == [s[0]] + s[1..];
      [s[0]] + Insert(le, x, s[1..])
  }

  /** Sorts `s` by `le`; the result is a permutation of `s`. */
  function Sort<T(!new)>(le: (T, T) -> bool, s: seq<T>): (r: seq<T>)
    ensures multiset(r) == multiset(s)
    ensures |r| == |s|
    ensures forall y :: y in r <==> y in s
    ensures Total(le) ==> Sorted(le, r)
    ensures NoDup(s) ==> NoDup(r)
  {
    if |s| == 0 then []
    else
      assert s == [s[0]] + s[1..];
      var rest := Sort(le, s[1..]);
      InsertSorted(le, s[0], rest);
      InsertNoDup(le, s[0], rest);
      Insert(le, s[0], rest)
  }

  /** Inserting into a sorted sequence keeps it sorted. */
  lemma {:induction false} InsertSorted<T(!new)>(le: (T, T) -> bool, x: T, s: seq<T>)
    ensures Total(le) && Sorted(le, s) ==> Sorted(le, Insert(le, x, s))
  {
    if |s| > 0 && !le(x, s[0]) && Total(le) && Sorted(le, s) {
      InsertSorted(le, x, s[1..]);
      var tail := Insert(le, x, s[1..]);
      assert le(s[0], x);
      assert Insert(le, x, s) == [s[0]] + tail;
    }
  }

  /** Inserting a new element into a duplicate-free sequence keeps it so. */
  lemma {:induction false} InsertNoDup<T(!new)>(le: (T, T) -> bool, x: T, s: seq<T>)
    ensures NoDup(s) && x !in s ==> NoDup(Insert(le, x, s))
  {
    if |s| > 0 && !le(x, s[0]) && NoDup(s) && x !in s {
      InsertNoDup(le, x, s[1..]);
      assert s[0] !in Insert(le, x, s[1..]);
      assert Insert(le, x, s) == [s[0]] + Insert(le, x, s[1..]);
    }
  }

  /** The numeric comparator `(a, b) => a - b`. */
  predicate IntLe(a: int, b: int) {
    a <= b
  }

  lemma IntLeTotalOrder()
    ensures TotalOrder(IntLe)
  {
  }

  /** Sorting integers ascending gives a strictly ascending sequence when
      they are distinct. */
  lemma SortIntsAscending(s: seq<int>)
    requires NoDup(s)
    ensures forall i :: 0 < i < |Sort(IntLe, s)| ==> Sort(IntLe, s)[i - 1] < Sort(IntLe, s)[i]
  {
    var r := Sort(IntLe, s);
    assert Sorted(IntLe, r);
    forall i | 0 < i < |r| ensures r[i - 1] < r[i] {
      assert r[i - 1] != r[i];
    }
  }

  /** `le` is transitive. */
  ghost predicate Transitive<T(!new)>(le: (T, T) -> bool) {
    forall a, b, c :: le(a, b) && le(b, c) ==> le(a, c)
  }

  /** `le` relates two distinct values in at most one direction. */
  ghost predicate Antisymmetric<T(!new)>(le: (T, T) -> bool) {
    forall a, b :: le(a, b) && le(b, a) ==> a == b
  }

  /** `le` is a total order. */
  ghost predicate TotalOrder<T(!new)>(le: (T, T) -> bool) {
    Total(le) && Transitive(le) && Antisymmetric(le)
  }

  /** The head of a sequence sorted by a total order is below every element. */
  lemma {:induction false} SortedHeadLeast<T(!new)>(le: (T, T) -> bool, s: seq<T>)
    requires TotalOrder(le) && Sorted(le, s) && |s| > 0
    ensures forall i :: 0 <= i < |s| ==> le(s[0], s[i])
  {
    assert le(s[0], s[0]);
    if |s| > 1 {
      var t := s[1..];
      assert Sorted(le, t) by {
        forall i | 0 < i < |t| ensures le(t[i - 1], t[i]) {
          assert t[i - 1] == s[i] && t[i] == s[i + 1];
        }
      }
      SortedHeadLeast(le, t);
      forall i | 1 <= i < |s| ensures le(s[0], s[i]) {
        assert le(s[1], t[i - 1]);
      }
    }
  }

  /** Under a total order, a duplicate-free sorted sequence is determined by
      its elements. */
  lemma {:induction false} SortedUnique<T(!new)>(le: (T, T) -> bool, a: seq<T>, b: seq<T>)
    requires TotalOrder(le)
    requires Sorted(le, a) && Sorted(le, b) && NoDup(a) && NoDup(b)
    requires forall x :: x in a <==> x in b
    ensures a == b
    decreases |a|
  {
    if |b| > 0 {
      assert b[0] in b;
    }
    if |a| > 0 {
      assert a[0] in b;
      SortedHeadLeast(le, a);
      SortedHeadLeast(le, b);
      assert b[0] in a;
      var i :| 0 <= i < |a| && a[i] == b[0];
      var j :| 0 <= j < |b| && b[j] == a[0];
      assert le(a[0], b[0]) && le(b[0], a[0]);
      assert a[0] == b[0];
      var ta, tb := a[1..], b[1..];
      assert a == [a[0]] + ta && b == [b[0]] + tb;
      forall x ensures x in ta <==> x in tb {
        if x in ta {
          var k :| 0 <= k < |ta| && ta[k] == x;
          assert a[k + 1] == x && x != a[0];
          assert x in a && x in b;
          var m :| 0 <= m < |b| && b[m] == x;
          assert m != 0 && tb[m - 1] == x;
        }
        if x in tb {
          var k :| 0 <= k < |tb| && tb[k] == x;
          assert b[k + 1] == x && x != b[0];
          assert x in b && x in a;
          var m :| 0 <= m < |a| && a[m] == x;
          assert m != 0 && ta[m - 1] == x;
        }
      }
      assert Sorted(le, ta) by {
        forall k | 0 < k < |ta| ensures le(ta[k - 1], ta[k]) {
          assert ta[k - 1] == a[k];
        }
      }
      assert Sorted(le, tb) by {
        forall k | 0 < k < |tb| ensures le(tb[k - 1], tb[k]) {
          assert tb[k - 1] == b[k];
        }
      }
      SortedUnique(le, ta, tb);
      assert a == [a[0]] + ta && b == [b[0]] + tb;
    }
  }

  /** Sorting two duplicate-free sequences with the same elements by a total
      order gives the same result: the sorted list depends on the set only. */
  lemma SortDependsOnSetOnly<T(!new)>(le: (T, T) -> bool, s1: seq<T>, s2: seq<T>)
    requires TotalOrder(le) && NoDup(s1) && NoDup(s2)
    requires forall x :: x in s1 <==> x in s2
    ensures Sort(le, s1) == Sort(le, s2)
  {
    SortedUnique(le, Sort(le, s1), Sort(le, s2));
  }
}
