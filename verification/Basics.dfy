/** Arithmetic and sequence helpers that several modules use. */
module Basics {
  /** The largest machine word. */
  const USIZE_MAX: nat := 0xFFFF_FFFF_FFFF_FFFF

  function Min(a: nat, b: nat): nat {
    if a < b then a else b
  }

  function Max(a: int, b: int): int {
    if a < b then b else a
  }

  function SaturatingSub(a: nat, b: nat): nat {
    if a < b then 0 else a - b
  }

  lemma MulMonotone(a: nat, b: nat, c: nat)
    requires b <= c
    ensures a * b <= a * c
  {
  }

  function Front<T>(s: seq<T>): seq<T>
    requires s != []
  {
    s[..|s| - 1]
  }

  function Last<T>(s: seq<T>): T
    requires s != []
  {
    s[|s| - 1]
  }

  lemma {:induction false} DistinctMultiset<T>(s: seq<T>, x: T)
    requires forall i, j :: 0 <= i < j < |s| ==> s[i] != s[j]
    ensures multiset(s)[x] <= 1
  {
    if s != [] {
      DistinctMultiset(Front(s), x);
      assert s == Front(s) + [Last(s)];
      assert multiset(s) == multiset(Front(s)) + multiset{Last(s)};
      if x == Last(s) {
        assert x !in Front(s);
      }
    }
  }

  predicate IsReordering<T(==)>(b: seq<T>, a: seq<T>) {
    multiset(b) == multiset(a)
  }

  /** Reordering keeps the elements, and keeps them distinct. */
  lemma SameElements<T>(a: seq<T>, b: seq<T>)
    requires IsReordering(b, a) && forall i, j :: 0 <= i < j < |a| ==> a[i] != a[j]
    ensures forall x :: x in a <==> x in b
    ensures forall i, j :: 0 <= i < j < |b| ==> b[i] != b[j]
  {
    assert forall x :: x in a <==> x in multiset(a);
    assert forall x :: x in b <==> x in multiset(b);
    forall i, j | 0 <= i < j < |b|
      ensures b[i] != b[j]
    {
      DistinctMultiset(a, b[i]);
      PairMultiset(b, i, j);
    }
  }

  lemma PairMultiset<T>(s: seq<T>, i: nat, j: nat)
    requires i < j < |s|
    ensures s[i] == s[j] ==> multiset(s)[s[i]] >= 2
  {
    assert s == s[..i] + [s[i]] + s[i + 1..j] + [s[j]] + s[j + 1..];
  }

  lemma {:induction false} DistinctSize<T>(s: seq<T>)
    requires forall i, j :: 0 <= i < j < |s| ==> s[i] != s[j]
    ensures |set x | x in s| == |s|
  {
    if s == [] {
      assert (set x | x in s) == {};
    } else {
      DistinctSize(Front(s));
      assert (set x | x in s) == (set x | x in Front(s)) + {Last(s)};
    }
  }

  lemma Associates<T>(a: seq<T>, b: seq<T>, c: seq<T>)
    ensures (a + b) + c == a + (b + c)
  {
  }

  /** The list holds, in ascending order, exactly the numbers below `n` with the property. */
  ghost predicate Enumerates(at: seq<nat>, n: nat, p: nat -> bool) {
    && (forall k :: 0 <= k < |at| ==> at[k] < n && p(at[k]))
    && (forall k, l :: 0 <= k < l < |at| ==> at[k] < at[l])
    && (forall i: nat :: i < n && p(i) ==> i in at)
  }

  lemma EnumeratesNone(p: nat -> bool)
    ensures Enumerates([], 0, p)
  {
  }

  lemma EnumeratesNext(at: seq<nat>, n: nat, p: nat -> bool) returns (at': seq<nat>)
    requires Enumerates(at, n, p)
    ensures Enumerates(at', n + 1, p) && at' == if p(n) then at + [n] else at
  {
    at' := if p(n) then at + [n] else at;
    forall i: nat | i < n + 1 && p(i)
      ensures i in at'
    {
      if i == n {
        assert at'[|at|] == n;
      } else {
        assert i in at;
      }
    }
  }

  /** The first and the last of them. */
  lemma EnumeratesEnds(at: seq<nat>, n: nat, p: nat -> bool)
    requires Enumerates(at, n, p)
    ensures at == [] ==> forall i: nat :: i < n ==> !p(i)
    ensures at != [] ==> forall i: nat :: i < n && p(i) ==> at[0] <= i <= Last(at)
  {
    forall i: nat | i < n && p(i)
      ensures at != [] && at[0] <= i <= Last(at)
    {
      var k :| 0 <= k < |at| && at[k] == i;
    }
  }
}
