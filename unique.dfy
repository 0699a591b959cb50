/**
 * `[...new Set(xs)]`: the distinct elements of a sequence in the order in
 * which they first occur (a JavaScript `Set` iterates in insertion order).
 * Main.js uses it for the language list (line 32) and the quarter labels (line 82).
 */
module Unique {

  predicate NoDuplicates<T(==)>(s: seq<T>) {
    forall i, j :: 0 <= i < j < |s| ==> s[i] != s[j]
  }

  /** The position of the first occurrence of `x` in `s`. */
  function FirstIndex<T(==)>(s: seq<T>, x: T): (i: nat)
    requires x in s
    ensures i < |s| && s[i] == x && x !in s[..i]
  {
    if s[0] == x then 0 else
      var i := 1 + FirstIndex(s[1..], x);
      assert s[..i] == [s[0]] + s[1..][..i - 1];
      i
  }

  /** `[...new Set(s)]`. */
  function Distinct<T(==)>(s: seq<T>): seq<T> {
    if s == [] then []
    else
      var d := Distinct(s[..|s| - 1]);
      if s[|s| - 1] in d then d else d + [s[|s| - 1]]
  }

  lemma NoDuplicatesTail<T>(s: seq<T>)
    requires s != [] && NoDuplicates(s)
    ensures NoDuplicates(s[1..]) && s[0] !in s[1..]
  {
  }

  /** The first occurrence is the only position before which the element does not occur. */
  lemma FirstIndexUnique<T>(s: seq<T>, x: T, i: nat)
    requires i < |s| && s[i] == x && x !in s[..i]
    ensures FirstIndex(s, x) == i
  {
  }

  /** An element differing from everything before it does not occur before it. */
  lemma NotBefore<T>(s: seq<T>, p: nat)
    requires p < |s| && forall i :: 0 <= i < p ==> s[i] != s[p]
    ensures s[p] !in s[..p]
  {
  }

  /** Extending a sequence does not move the first occurrence of an element it already holds. */
  lemma FirstIndexOfPrefix<T>(s: seq<T>, n: nat, x: T)
    requires n <= |s| && x in s[..n]
    ensures FirstIndex(s, x) == FirstIndex(s[..n], x)
  {
    var p := s[..n];
    var k := FirstIndex(p, x);
    assert s[..k] == p[..k];
    FirstIndexUnique(s, x, k);
  }

  /**
   * The elements of `[...new Set(s)]` are pairwise distinct, are exactly the
   * elements of `s`, and come in the order of their first occurrence in `s`.
   */
  lemma {:induction false} DistinctSpec<T>(s: seq<T>)
    ensures NoDuplicates(Distinct(s))
    ensures forall x :: x in Distinct(s) <==> x in s
    ensures forall i, j :: 0 <= i < j < |Distinct(s)| ==>
              FirstIndex(s, Distinct(s)[i]) < FirstIndex(s, Distinct(s)[j])
    decreases |s|
  {
    if s != [] {
      var n := |s| - 1;
      var p := s[..n];
      var d := Distinct(p);
      DistinctSpec(p);
      assert s == p + [s[n]];
      forall y | y in p
        ensures FirstIndex(s, y) == FirstIndex(p, y)
      {
        FirstIndexOfPrefix(s, n, y);
      }
      if s[n] !in d {
        FirstIndexUnique(s, s[n], n);
        var d' := d + [s[n]];
        forall i, j | 0 <= i < j < |d'|
          ensures FirstIndex(s, d'[i]) < FirstIndex(s, d'[j])
        {
          if j == |d| {
            assert d'[i] == d[i] && d[i] in d;
          } else {
            assert d'[i] == d[i] && d'[j] == d[j];
          }
        }
      }
    }
  }

  /** Two elements come in the same order in `[...new Set(s)]` as their first occurrences in `s`. */
  lemma DistinctOrder<T>(s: seq<T>, a: T, b: T)
    requires a in s && b in s
    ensures a in Distinct(s) && b in Distinct(s)
    ensures FirstIndex(Distinct(s), a) < FirstIndex(Distinct(s), b) <==> FirstIndex(s, a) < FirstIndex(s, b)
  {
    DistinctSpec(s);
    var d := Distinct(s);
    var i, j := FirstIndex(d, a), FirstIndex(d, b);
    if j < i {
      assert FirstIndex(s, d[j]) < FirstIndex(s, d[i]);
    }
  }

  /** A sequence without duplicates has as many elements as its set. */
  lemma {:induction false} DistinctCard<T>(s: seq<T>)
    requires NoDuplicates(s)
    ensures |set x | x in s| == |s|
    decreases |s|
  {
    if s != [] {
      var p := s[..|s| - 1];
      DistinctCard(p);
      assert (set x | x in s) == (set x | x in p) + {s[|s| - 1]};
      assert s[|s| - 1] !in p;
    }
  }

  /** Two duplicate-free sequences with the same elements have the same length. */
  lemma SameElementsSameLength<T>(a: seq<T>, b: seq<T>)
    requires NoDuplicates(a) && NoDuplicates(b)
    requires forall x :: x in a <==> x in b
    ensures |a| == |b|
  {
    DistinctCard(a);
    DistinctCard(b);
    assert (set x | x in a) == (set x | x in b);
  }
}
