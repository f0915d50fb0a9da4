/**
 * Sequences used as collections.  The source keeps its selections in
 * JavaScript `Set`s, which iterate in insertion order; here such a set is a
 * duplicate-free sequence, and the operations below are the `Set` operations
 * the screens use (`has`, `add`, `delete`, `new Set(array)`).
 */
module Seqs {

  /** No element occurs twice. */
  predicate NoDup<T(==)>(s: seq<T>) {
    forall i, j :: 0 <= i < j < |s| ==> s[i] != s[j]
  }

  /** The elements of a sequence as a mathematical set. */
  function ToSet<T(!new)>(s: seq<T>): (r: set<T>)
    ensures forall x :: x in r <==> x in s
  {
    set x | x in s
  }

  /** `Array.prototype.filter`: the elements satisfying `keep`, in order. */
  function Filter<T(!new)>(s: seq<T>, keep: T -> bool): (r: seq<T>)
    ensures forall x :: x in r <==> x in s && keep(x)
    ensures forall i :: 0 <= i < |r| ==> keep(r[i])
    ensures multiset(r) <= multiset(s)
    ensures NoDup(s) ==> NoDup(r)
  {
    if |s| == 0 then []
    else
      assert s == [s[0]] + s[1..];
      var rest := Filter(s[1..], keep);
      if keep(s[0]) then [s[0]] + rest else rest
  }

  /** `set.add(x)`: appends `x` unless it is already present. */
  function Add<T(==,!new)>(s: seq<T>, x: T): (r: seq<T>)
    ensures forall y :: y in r <==> y in s || y == x
    ensures NoDup(s) ==> NoDup(r)
    ensures |s| <= |r| <= |s| + 1
  {
    if x in s then s else s + [x]
  }

  /** The test `set.delete(x)` keeps an element by. */
  function Other<T(==)>(x: T): T -> bool {
    y => y != x
  }

  /** `set.delete(x)`: every other element keeps its relative order. */
  function Remove<T(==,!new)>(s: seq<T>, x: T): (r: seq<T>)
    ensures forall y :: y in r <==> y in s && y != x
    ensures NoDup(s) ==> NoDup(r)
    ensures x !in s ==> r == s
  {
    if x in s then Filter(s, Other(x))
    else
      FilterKeepsAll(s, Other(x));
      Filter(s, Other(x))
  }

  /** The toggle every checkbox list of the onboarding flow performs:
      delete the element when present, add it otherwise. */
  function Toggle<T(==,!new)>(s: seq<T>, x: T): (r: seq<T>)
    ensures x in r <==> x !in s
    ensures forall y :: y != x ==> (y in r <==> y in s)
    ensures NoDup(s) ==> NoDup(r)
    ensures NoDup(s) && x in s ==> |r| == |s| - 1
    ensures x !in s ==> r == s + [x]
    ensures x in s ==> IsSubsequence(r, s)
  {
    if x in s then
      FilterIsSubsequence(s, Other(x));
      if NoDup(s) then
        RemoveDecreasesCount(s, x);
        Remove(s, x)
      else Remove(s, x)
    else s + [x]
  }

  /** `Array.from(new Set(xs))`: the first occurrence of every element, in order. */
  function FromSeq<T(==,!new)>(xs: seq<T>): (r: seq<T>)
    ensures NoDup(r)
    ensures forall y :: y in r <==> y in xs
    ensures NoDup(xs) ==> r == xs
    ensures |r| <= |xs|
  {
    if |xs| == 0 then []
    else
      var init := xs[..|xs| - 1];
      assert xs == init + [xs[|xs| - 1]];
      assert forall y :: y in xs <==> y in init || y == xs[|xs| - 1];
      Add(FromSeq(init), xs[|xs| - 1])
  }

  /** Filtering with a predicate every element satisfies changes nothing. */
  lemma {:induction false} FilterKeepsAll<T(!new)>(s: seq<T>, keep: T -> bool)
    requires forall x :: x in s ==> keep(x)
    ensures Filter(s, keep) == s
  {
    if |s| > 0 {
      FilterKeepsAll(s[1..], keep);
    }
  }

  /** Filtering distributes over concatenation. */
  lemma {:induction false} FilterAppend<T(!new)>(a: seq<T>, b: seq<T>, keep: T -> bool)
    ensures Filter(a + b, keep) == Filter(a, keep) + Filter(b, keep)
  {
    if |a| > 0 {
      assert (a + b)[1..] == a[1..] + b;
      FilterAppend(a[1..], b, keep);
    } else {
      assert a + b == b;
    }
  }

  /** Deleting a present element of a duplicate-free sequence shortens it by one. */
  lemma {:induction false} RemoveDecreasesCount<T(!new)>(s: seq<T>, x: T)
    requires NoDup(s) && x in s
    ensures |Filter(s, Other(x))| == |s| - 1
  {
    if s[0] == x {
      FilterKeepsAll(s[1..], Other(x));
    } else {
      RemoveDecreasesCount(s[1..], x);
    }
  }

  /** Toggling an absent element on and off again restores the sequence exactly. */
  lemma ToggleTwice<T(!new)>(s: seq<T>, x: T)
    requires x !in s
    ensures Toggle(Toggle(s, x), x) == s
  {
    FilterAppend(s, [x], Other(x));
    FilterKeepsAll(s, Other(x));
    assert Filter([x], Other(x)) == [];
  }

  /** A duplicate-free sequence has as many elements as its set. */
  lemma {:induction false} NoDupCard<T(!new)>(s: seq<T>)
    requires NoDup(s)
    ensures |ToSet(s)| == |s|
  {
    if |s| > 0 {
      NoDupCard(s[1..]);
      assert ToSet(s) == ToSet(s[1..]) + {s[0]};
      assert s[0] !in ToSet(s[1..]);
    }
  }

  /** Appending one element to the input of FromSeq adds it to the output. */
  lemma FromSeqSnoc<T(!new)>(xs: seq<T>, x: T)
    ensures FromSeq(xs + [x]) == Add(FromSeq(xs), x)
  {
    assert (xs + [x])[..|xs + [x]| - 1] == xs;
  }

  /** In a duplicate-free sequence every value occurs at most once. */
  lemma {:induction false} NoDupAtMostOnce<T(!new)>(s: seq<T>, x: T)
    requires NoDup(s)
    ensures multiset(s)[x] <= 1
  {
    if |s| > 0 {
      var t := s[1..];
      assert NoDup(t) by {
        forall a, b | 0 <= a < b < |t| ensures t[a] != t[b] {
          assert t[a] == s[a + 1] && t[b] == s[b + 1];
        }
      }
      NoDupAtMostOnce(t, x);
      assert s == [s[0]] + t;
      assert s[0] !in t by {
        forall a | 0 <= a < |t| ensures t[a] != s[0] {
          assert t[a] == s[a + 1];
        }
      }
    }
  }

  /** A value at two positions occurs at least twice. */
  lemma RepeatCountsTwice<T(!new)>(s: seq<T>, i: nat, j: nat)
    requires i < j < |s| && s[i] == s[j]
    ensures multiset(s)[s[i]] >= 2
  {
    assert s == s[..j] + s[j..];
    assert s[..j][i] == s[i];
    assert s[j..][0] == s[i];
  }

  /** `a` is `b` with some elements left out. */
  predicate IsSubsequence<T(==)>(a: seq<T>, b: seq<T>) {
    if |a| == 0 then true
    else if |b| == 0 then false
    else if a[0] == b[0] then IsSubsequence(a[1..], b[1..])
    else IsSubsequence(a, b[1..])
  }

  lemma {:induction false} SubsequenceOfTail<T>(a: seq<T>, b: seq<T>, x: T)
    requires IsSubsequence(a, b)
    ensures IsSubsequence(a, [x] + b)
    decreases |a| + |b|, 1
  {
    if |a| > 0 {
      assert ([x] + b)[1..] == b;
      if a[0] == x {
        SubsequenceDropHead(a, b);
      }
    }
  }

  lemma {:induction false} SubsequenceDropHead<T>(a: seq<T>, b: seq<T>)
    requires |a| > 0 && IsSubsequence(a, b)
    ensures IsSubsequence(a[1..], b)
    decreases |a| + |b|, 0
  {
    assert [b[0]] + b[1..] == b;
    if a[0] != b[0] {
      SubsequenceDropHead(a, b[1..]);
    }
    SubsequenceOfTail(a[1..], b[1..], b[0]);
  }

  /** Every sequence is a subsequence of itself. */
  lemma {:induction false} SubsequenceReflexive<T>(s: seq<T>)
    ensures IsSubsequence(s, s)
  {
    if |s| > 0 {
      SubsequenceReflexive(s[1..]);
    }
  }

  /** `Array.prototype.filter` keeps the kept elements in their order. */
  lemma {:induction false} FilterIsSubsequence<T(!new)>(s: seq<T>, keep: T -> bool)
    ensures IsSubsequence(Filter(s, keep), s)
  {
    if |s| > 0 {
      var rest := Filter(s[1..], keep);
      FilterIsSubsequence(s[1..], keep);
      if keep(s[0]) {
        assert Filter(s, keep) == [s[0]] + rest;
        assert ([s[0]] + rest)[1..] == rest;
      } else {
        assert Filter(s, keep) == rest;
        SubsequenceOfTail(rest, s[1..], s[0]);
        assert [s[0]] + s[1..] == s;
      }
    }
  }
}
