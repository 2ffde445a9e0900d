/**
 * `list(dict.fromkeys(xs))`: duplicates removed, first occurrences kept in order.
 */
module Sequences {

  predicate NoDuplicates<T(==)>(s: seq<T>) {
    forall i, j :: 0 <= i < j < |s| ==> s[i] != s[j]
  }

  /** The position of the first occurrence of `x` in `s`. */
  function IndexOf<T(==)>(s: seq<T>, x: T): (i: nat)
    requires x in s
    ensures i < |s| && s[i] == x && x !in s[..i]
  {
    if s[0] == x then 0 else 1 + IndexOf(s[1..], x)
  }

  /** The distinct elements of `s` in order of first occurrence. */
  function Unique<T(==, !new)>(s: seq<T>): (r: seq<T>)
    ensures NoDuplicates(r)
    ensures forall x :: x in r <==> x in s
    ensures |r| <= |s|
  {
    if s == [] then []
    else
      var u := Unique(s[..|s| - 1]);
      if s[|s| - 1] in u then u else u + [s[|s| - 1]]
  }

  /** A new element in front of a duplicate-free sequence keeps it duplicate-free. */
  lemma DistinctCons<T>(x: T, r: seq<T>)
    requires NoDuplicates(r) && x !in r
    ensures NoDuplicates([x] + r)
  {
    var s := [x] + r;
    forall i, j | 0 <= i < j < |s| ensures s[i] != s[j] {
      assert s[j] == r[j - 1];
      if i > 0 { assert s[i] == r[i - 1]; }
    }
  }

  lemma AppendAssoc<T>(a: seq<T>, b: seq<T>, c: seq<T>)
    ensures a + (b + c) == (a + b) + c
  {
  }

  /** Appending one element to the input appends it to the output unless it was seen. */
  lemma UniqueSnoc<T(!new)>(a: seq<T>, d: T)
    ensures Unique(a + [d]) == if d in Unique(a) then Unique(a) else Unique(a) + [d]
  {
    assert (a + [d])[..|a|] == a;
  }

  /** `Unique` keeps every element where its first occurrence puts it. */
  lemma {:induction false} UniqueKeepsFirstOccurrenceOrder<T(!new)>(s: seq<T>)
    ensures forall i, j :: 0 <= i < j < |Unique(s)| ==> IndexOf(s, Unique(s)[i]) < IndexOf(s, Unique(s)[j])
  {
    if s != [] {
      var p, x := s[..|s| - 1], s[|s| - 1];
      assert s == p + [x];
      UniqueKeepsFirstOccurrenceOrder(p);
      var u, r := Unique(p), Unique(s);
      UniqueSnoc(p, x);
      forall i, j | 0 <= i < j < |r| ensures IndexOf(s, r[i]) < IndexOf(s, r[j]) {
        assert r[i] == u[i] && u[i] in p;
        IndexOfSnoc(p, x, r[i]);
        IndexOfSnoc(p, x, r[j]);
        if j < |u| {
          assert r[j] == u[j] && u[j] in p;
        }
      }
    }
  }

  /** The first occurrence of `y` in `p + [x]`: as in `p`, or the new last position. */
  lemma IndexOfSnoc<T>(p: seq<T>, x: T, y: T)
    requires y in p + [x]
    ensures IndexOf(p + [x], y) == if y in p then IndexOf(p, y) else |p|
  {
    if y in p {
      IndexOfPrefix(p, x, y);
    } else {
      assert (p + [x])[..|p|] == p;
      IndexOfUnique(p + [x], y, |p|);
    }
  }

  lemma IndexOfPrefix<T>(p: seq<T>, x: T, y: T)
    requires y in p
    ensures IndexOf(p + [x], y) == IndexOf(p, y)
  {
    var i := IndexOf(p, y);
    var s := p + [x];
    assert s[i] == y;
    assert s[..i] == p[..i];
    IndexOfUnique(s, y, i);
  }

  lemma IndexOfUnique<T>(s: seq<T>, y: T, i: nat)
    requires i < |s| && s[i] == y && y !in s[..i]
    ensures IndexOf(s, y) == i
  {
    var k := IndexOf(s, y);
  }

  /** Removing duplicates from a sequence that has none changes nothing. */
  lemma {:induction false} UniqueOfDistinct<T(!new)>(s: seq<T>)
    requires NoDuplicates(s)
    ensures Unique(s) == s
  {
    if s != [] {
      var p := s[..|s| - 1];
      UniqueOfDistinct(p);
      assert s[|s| - 1] !in p;
      assert s == p + [s[|s| - 1]];
    }
  }

  /** `a` is `b` with some elements left out, the rest in the same order. */
  predicate IsSubsequence<T(==)>(a: seq<T>, b: seq<T>)
    decreases |b|
  {
    if a == [] then true
    else if b == [] then false
    else if a[|a| - 1] == b[|b| - 1] then IsSubsequence(a[..|a| - 1], b[..|b| - 1])
    else IsSubsequence(a, b[..|b| - 1])
  }

  /** A subsequence of `b` is a subsequence of `b` extended by one element. */
  lemma SubsequenceSnoc<T>(a: seq<T>, b: seq<T>, x: T)
    requires IsSubsequence(a, b)
    ensures IsSubsequence(a, b + [x])
    decreases |a| + |b|, 1
  {
    assert (b + [x])[..|b|] == b;
    if a != [] && a[|a| - 1] == x {
      SubsequenceDropLast(a, b);
    }
  }

  /** Dropping the last element of a subsequence leaves a subsequence. */
  lemma SubsequenceDropLast<T>(a: seq<T>, b: seq<T>)
    requires a != [] && IsSubsequence(a, b)
    ensures IsSubsequence(a[..|a| - 1], b)
    decreases |a| + |b|, 0
  {
    var b', lb := b[..|b| - 1], b[|b| - 1];
    assert b == b' + [lb];
    if a[|a| - 1] != lb {
      SubsequenceDropLast(a, b');
    }
    SubsequenceSnoc(a[..|a| - 1], b', lb);
  }

  /** Extending both sides by the same element keeps a subsequence. */
  lemma SubsequenceBothSnoc<T>(a: seq<T>, b: seq<T>, x: T)
    requires IsSubsequence(a, b)
    ensures IsSubsequence(a + [x], b + [x])
  {
    assert (a + [x])[..|a|] == a;
    assert (b + [x])[..|b|] == b;
  }

  lemma SliceSnoc<T>(a: seq<T>, k: nat, x: T)
    requires k <= |a|
    ensures (a + [x])[k..] == a[k..] + [x]
  {
  }
}
