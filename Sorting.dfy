/**
 * Python's `sorted(xs, key=k)` and `xs.sort(key=k)`: a stable sort. It is
 * modelled as insertion sort over a comparison `le` that answers
 * `k(a) <= k(b)`; its result is ordered, a permutation of the input, and
 * keeps elements with equal keys in their input order.
 */
module Sorting {

  ghost predicate IsTotalPreorder<T(!new)>(le: (T, T) -> bool) {
    && (forall a, b :: le(a, b) || le(b, a))
    && (forall a, b, c :: le(a, b) && le(b, c) ==> le(a, c))
  }

  predicate SortedBy<T>(s: seq<T>, le: (T, T) -> bool) {
    forall i, j :: 0 <= i < j < |s| ==> le(s[i], s[j])
  }

  /** Puts `x` in front of the first element it is `le` to, so ahead of its equals. */
  function InsertBy<T>(x: T, s: seq<T>, le: (T, T) -> bool): (r: seq<T>)
    ensures |r| == |s| + 1
    ensures multiset(r) == multiset(s) + multiset{x}
  {
    if s == [] || le(x, s[0]) then [x] + s
    else
      assert s == [s[0]] + s[1..];
      [s[0]] + InsertBy(x, s[1..], le)
  }

  function SortBy<T>(s: seq<T>, le: (T, T) -> bool): (r: seq<T>)
    ensures |r| == |s|
    ensures multiset(r) == multiset(s)
  {
    if s == [] then []
    else
      assert s == [s[0]] + s[1..];
      InsertBy(s[0], SortBy(s[1..], le), le)
  }

  /** The elements of `s` whose key equals the key of `y`, in order. */
  function EquivalentTo<T>(s: seq<T>, y: T, le: (T, T) -> bool): seq<T> {
    if s == [] then []
    else (if le(s[0], y) && le(y, s[0]) then [s[0]] else []) + EquivalentTo(s[1..], y, le)
  }

  lemma {:induction false} InsertBySorted<T(!new)>(x: T, s: seq<T>, le: (T, T) -> bool)
    requires IsTotalPreorder(le)
    requires SortedBy(s, le)
    ensures SortedBy(InsertBy(x, s, le), le)
  {
    if s == [] || le(x, s[0]) {
    } else {
      var rest := s[1..];
      var t := InsertBy(x, rest, le);
      assert SortedBy(rest, le);
      InsertBySorted(x, rest, le);
      assert le(s[0], x);
      forall z | z in t ensures le(s[0], z) {
        InsertByMember(x, rest, z, le);
        if z != x {
          var k :| 0 <= k < |rest| && rest[k] == z;
          assert s[k + 1] == z;
        }
      }
      ConsSorted(s[0], t, le);
    }
  }

  /** What `InsertBy` returns holds the inserted element and the old ones only. */
  lemma InsertByMember<T>(x: T, s: seq<T>, z: T, le: (T, T) -> bool)
    requires z in InsertBy(x, s, le)
    ensures z == x || z in s
  {
    assert z in multiset(InsertBy(x, s, le));
  }

  /** An element `le` to every element of a sorted sequence can go in front. */
  lemma ConsSorted<T>(a: T, t: seq<T>, le: (T, T) -> bool)
    requires SortedBy(t, le)
    requires forall z :: z in t ==> le(a, z)
    ensures SortedBy([a] + t, le)
  {
    var r := [a] + t;
    forall i, j | 0 <= i < j < |r| ensures le(r[i], r[j]) {
      assert r[j] == t[j - 1];
      if i > 0 { assert r[i] == t[i - 1]; }
    }
  }

  /** `SortBy` yields a sequence ordered by `le`. */
  lemma {:induction false} SortBySorted<T(!new)>(s: seq<T>, le: (T, T) -> bool)
    requires IsTotalPreorder(le)
    ensures SortedBy(SortBy(s, le), le)
  {
    if s != [] {
      SortBySorted(s[1..], le);
      InsertBySorted(s[0], SortBy(s[1..], le), le);
    }
  }

  lemma EquivalentToCons<T>(a: T, s: seq<T>, y: T, le: (T, T) -> bool)
    ensures EquivalentTo([a] + s, y, le)
            == (if le(a, y) && le(y, a) then [a] else []) + EquivalentTo(s, y, le)
  {
    assert ([a] + s)[1..] == s;
  }

  /** An element that `x` is not `le` to cannot share a key with `x`. */
  lemma NotBothEquivalent<T(!new)>(x: T, a: T, y: T, le: (T, T) -> bool)
    requires IsTotalPreorder(le)
    requires !le(x, a)
    ensures !(le(x, y) && le(y, x)) || !(le(a, y) && le(y, a))
  {
  }

  lemma SwapOneEmpty<T>(p: seq<T>, q: seq<T>, r: seq<T>)
    requires p == [] || q == []
    ensures p + (q + r) == q + (p + r)
  {
  }

  /** Inserting `x` keeps it and its equals in the order of `[x] + s`. */
  lemma {:induction false} InsertByStable<T(!new)>(x: T, s: seq<T>, y: T, le: (T, T) -> bool)
    requires IsTotalPreorder(le)
    ensures EquivalentTo(InsertBy(x, s, le), y, le) == EquivalentTo([x] + s, y, le)
  {
    if s == [] || le(x, s[0]) {
    } else {
      var rest := s[1..];
      var ex := if le(x, y) && le(y, x) then [x] else [];
      var e0 := if le(s[0], y) && le(y, s[0]) then [s[0]] else [];
      var er := EquivalentTo(rest, y, le);
      assert InsertBy(x, s, le) == [s[0]] + InsertBy(x, rest, le);
      EquivalentToCons(s[0], InsertBy(x, rest, le), y, le);
      InsertByStable(x, rest, y, le);
      EquivalentToCons(x, rest, y, le);
      NotBothEquivalent(x, s[0], y, le);
      SwapOneEmpty(e0, ex, er);
      assert s == [s[0]] + rest;
      EquivalentToCons(s[0], rest, y, le);
      EquivalentToCons(x, s, y, le);
    }
  }

  /**
   * Stability: for every key, the elements carrying it come out of `SortBy`
   * in the order they went in.
   */
  lemma {:induction false} SortByStable<T(!new)>(s: seq<T>, y: T, le: (T, T) -> bool)
    requires IsTotalPreorder(le)
    ensures EquivalentTo(SortBy(s, le), y, le) == EquivalentTo(s, y, le)
  {
    if s != [] {
      SortByStable(s[1..], y, le);
      InsertByStable(s[0], SortBy(s[1..], le), y, le);
      assert ([s[0]] + SortBy(s[1..], le))[1..] == SortBy(s[1..], le);
    }
  }

  /**
   * The first element carrying `y`'s key is the earliest element of `s`
   * with that key.
   */
  lemma {:induction false} EquivalentToHead<T>(s: seq<T>, y: T, le: (T, T) -> bool)
    requires EquivalentTo(s, y, le) != []
    ensures exists k ::
      && 0 <= k < |s|
      && s[k] == EquivalentTo(s, y, le)[0]
      && le(s[k], y) && le(y, s[k])
      && forall j :: 0 <= j < k ==> !(le(s[j], y) && le(y, s[j]))
  {
    if !(le(s[0], y) && le(y, s[0])) {
      EquivalentToHead(s[1..], y, le);
      var k :| 0 <= k < |s[1..]| && s[1..][k] == EquivalentTo(s[1..], y, le)[0]
        && le(s[1..][k], y) && le(y, s[1..][k])
        && forall j :: 0 <= j < k ==> !(le(s[1..][j], y) && le(y, s[1..][j]));
      assert s[k + 1] == EquivalentTo(s, y, le)[0];
      forall j | 0 <= j < k + 1 ensures !(le(s[j], y) && le(y, s[j])) {
        if j > 0 {
          assert s[j] == s[1..][j - 1];
        }
      }
    }
  }

  /** A head that is `le` to itself is the first element carrying its own key. */
  lemma EquivalentToSelfFirst<T>(r: seq<T>, le: (T, T) -> bool)
    requires r != [] && le(r[0], r[0])
    ensures EquivalentTo(r, r[0], le) != [] && EquivalentTo(r, r[0], le)[0] == r[0]
  {
    EquivalentToCons(r[0], r[1..], r[0], le);
    assert r == [r[0]] + r[1..];
  }

  /**
   * When `r` keeps the order of equal-key elements of `s` and its head is
   * least among `s`, that head is the earliest least element of `s`:
   * every element before it has a greater key.
   */
  lemma StableHead<T>(s: seq<T>, r: seq<T>, le: (T, T) -> bool)
    requires r != [] && le(r[0], r[0])
    requires EquivalentTo(r, r[0], le) == EquivalentTo(s, r[0], le)
    requires forall g :: g in s ==> le(r[0], g)
    ensures exists k ::
      && 0 <= k < |s|
      && s[k] == r[0]
      && forall j :: 0 <= j < k ==> !le(s[j], s[k])
  {
    var y := r[0];
    EquivalentToSelfFirst(r, le);
    EquivalentToHead(s, y, le);
    var k :| 0 <= k < |s| && s[k] == EquivalentTo(s, y, le)[0]
      && forall j :: 0 <= j < k ==> !(le(s[j], y) && le(y, s[j]));
    forall j | 0 <= j < k ensures !le(s[j], s[k]) {
      assert s[j] in s;
    }
  }

  /** Sorting keeps exactly the elements it was given. */
  lemma SortByMembers<T>(s: seq<T>, le: (T, T) -> bool)
    ensures forall x :: x in SortBy(s, le) <==> x in s
  {
    var r := SortBy(s, le);
    forall x ensures x in r <==> x in s {
      assert x in r <==> x in multiset(r);
      assert x in s <==> x in multiset(s);
    }
  }
}
