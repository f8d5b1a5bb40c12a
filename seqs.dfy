/** `Array.prototype.filter` and the facts about it that the application's
    list transforms rely on. */
module Seqs {

  /** `r` can be obtained from `xs` by deleting elements, keeping the order. */
  predicate IsSubseq<T(==)>(r: seq<T>, xs: seq<T>)
    decreases |xs|
  {
    if r == [] then true
    else if xs == [] then false
    else if r[0] == xs[0] then IsSubseq(r[1..], xs[1..])
    else IsSubseq(r, xs[1..])
  }

  predicate NoDups<T(==)>(xs: seq<T>) {
    forall i, j :: 0 <= i < j < |xs| ==> xs[i] != xs[j]
  }

  lemma {:induction false} SubseqDropHead<T>(r: seq<T>, xs: seq<T>)
    requires r != [] && IsSubseq(r, xs)
    ensures IsSubseq(r[1..], xs)
    decreases |xs|, |r|
  {
    if r[0] != xs[0] {
      SubseqDropHead(r, xs[1..]);
      SubseqSkip(r[1..], xs);
    } else {
      SubseqSkip(r[1..], xs);
    }
  }

  /** A subsequence of the tail of `xs` is a subsequence of `xs`. */
  lemma {:induction false} SubseqSkip<T>(r: seq<T>, xs: seq<T>)
    requires xs != [] && IsSubseq(r, xs[1..])
    ensures IsSubseq(r, xs)
    decreases |xs|, |r|
  {
    if r != [] && r[0] == xs[0] {
      SubseqDropHead(r, xs[1..]);
    }
  }

  /** `xs.filter(p)`: the elements of `xs` that satisfy `p`, in their order. */
  function Filter<T>(xs: seq<T>, p: T -> bool): (r: seq<T>)
    ensures |r| <= |xs|
    ensures forall i :: 0 <= i < |r| ==> p(r[i])
  {
    if xs == [] then []
    else
      var rest := Filter(xs[1..], p);
      if p(xs[0]) then [xs[0]] + rest else rest
  }

  /** `filter` keeps exactly the elements that satisfy `p`, in their order. */
  lemma {:induction false} FilterSpec<T>(xs: seq<T>, p: T -> bool)
    ensures forall i :: 0 <= i < |Filter(xs, p)| ==> Filter(xs, p)[i] in xs
    ensures forall i :: 0 <= i < |xs| && p(xs[i]) ==> xs[i] in Filter(xs, p)
    ensures IsSubseq(Filter(xs, p), xs)
  {
    if xs != [] {
      var rest := Filter(xs[1..], p);
      FilterSpec(xs[1..], p);
      if p(xs[0]) {
        assert ([xs[0]] + rest)[1..] == rest;
      } else {
        SubseqSkip(rest, xs);
      }
      forall i | 0 <= i < |xs| && p(xs[i]) ensures xs[i] in Filter(xs, p) {
        if i > 0 { assert xs[i] == xs[1..][i - 1]; }
      }
    }
  }

  /** The first half of `FilterSpec` alone: every kept element is from `xs`
      and satisfies `p`. */
  lemma FilterKeepsMembers<T>(xs: seq<T>, p: T -> bool)
    ensures forall i :: 0 <= i < |Filter(xs, p)| ==> Filter(xs, p)[i] in xs && p(Filter(xs, p)[i])
  {
    FilterSpec(xs, p);
  }

  /** The second half alone: every element of `xs` satisfying `p` is kept. */
  lemma FilterKeepsAll<T>(xs: seq<T>, p: T -> bool)
    ensures forall i :: 0 <= i < |xs| && p(xs[i]) ==> xs[i] in Filter(xs, p)
  {
    FilterSpec(xs, p);
  }

  lemma AppendAssoc<T>(a: seq<T>, b: seq<T>, c: seq<T>)
    ensures (a + b) + c == a + (b + c)
  {
  }

  /** `filter` distributes over concatenation. */
  lemma {:induction false} FilterConcat<T>(a: seq<T>, b: seq<T>, p: T -> bool)
    ensures Filter(a + b, p) == Filter(a, p) + Filter(b, p)
  {
    if a == [] {
      assert a + b == b;
    } else {
      FilterConcat(a[1..], b, p);
      var head := if p(a[0]) then [a[0]] else [];
      assert Filter(a + b, p) == head + Filter(a[1..] + b, p) by {
        var ab := a + b;
        assert ab[0] == a[0];
        assert ab[1..] == a[1..] + b;
      }
      assert Filter(a, p) == head + Filter(a[1..], p);
      AppendAssoc(head, Filter(a[1..], p), Filter(b, p));
    }
  }

  /** `filter` keeps an element exactly as often as `xs` holds it, when `p` accepts it. */
  lemma {:induction false} FilterCount<T>(xs: seq<T>, p: T -> bool, x: T)
    ensures multiset(Filter(xs, p))[x] == if p(x) then multiset(xs)[x] else 0
  {
    if xs != [] {
      FilterCount(xs[1..], p, x);
      assert xs == [xs[0]] + xs[1..];
    }
  }

  /** One step of a filter written by recursion: the counts of the tail's
      result extend to the whole list. */
  lemma FilterStepCount<T>(xs: seq<T>, rest: seq<T>, p: T -> bool)
    requires xs != []
    requires forall x :: multiset(rest)[x] == if p(x) then multiset(xs[1..])[x] else 0
    ensures forall x :: multiset(if p(xs[0]) then [xs[0]] + rest else rest)[x] == if p(x) then multiset(xs)[x] else 0
  {
    assert xs == [xs[0]] + xs[1..];
  }

  /** `FilterCount` for every value at once. */
  lemma FilterCountAll<T>(xs: seq<T>, p: T -> bool)
    ensures forall x :: multiset(Filter(xs, p))[x] == if p(x) then multiset(xs)[x] else 0
  {
    forall x ensures multiset(Filter(xs, p))[x] == if p(x) then multiset(xs)[x] else 0 {
      FilterCount(xs, p, x);
    }
  }

  lemma HeadIsMember<T>(s: seq<T>)
    ensures |s| > 0 ==> s[0] in s
  {
  }

  /** Two lists with the same elements, each strictly increasing in the same
      key, are the same list. */
  lemma {:induction false} OrderedByKeyUnique<T>(a: seq<T>, b: seq<T>, key: T -> int)
    requires forall x :: x in a <==> x in b
    requires forall i, j :: 0 <= i < j < |a| ==> key(a[i]) < key(a[j])
    requires forall i, j :: 0 <= i < j < |b| ==> key(b[i]) < key(b[j])
    ensures a == b
    decreases |a|
  {
    if a != [] && b != [] {
      assert b[0] in b && a[0] in a;
      var k :| 0 <= k < |a| && a[k] == b[0];
      var m :| 0 <= m < |b| && b[m] == a[0];
      assert a[0] == b[0];
      forall x ensures x in a[1..] <==> x in b[1..] {
        if x in a[1..] {
          var i :| 0 <= i < |a[1..]| && a[1..][i] == x;
          assert a[i + 1] == x && x in a;
          var j :| 0 <= j < |b| && b[j] == x;
          assert b[1..][j - 1] == x;
        }
        if x in b[1..] {
          var i :| 0 <= i < |b[1..]| && b[1..][i] == x;
          assert b[i + 1] == x && x in b;
          var j :| 0 <= j < |a| && a[j] == x;
          assert a[1..][j - 1] == x;
        }
      }
      OrderedByKeyUnique(a[1..], b[1..], key);
      assert a == [a[0]] + a[1..] && b == [b[0]] + b[1..];
    } else {
      HeadIsMember(a);
      HeadIsMember(b);
    }
  }

  /** A sub-list of a duplicate-free list is duplicate-free. */
  lemma {:induction false} SubseqNoDups<T>(r: seq<T>, xs: seq<T>)
    requires IsSubseq(r, xs) && NoDups(xs)
    ensures NoDups(r)
    decreases |xs|
  {
    if r != [] {
      if r[0] == xs[0] {
        SubseqNoDups(r[1..], xs[1..]);
        SubseqElems(r[1..], xs[1..]);
        forall j | 0 < j < |r| ensures r[0] != r[j] {
          assert r[j] == r[1..][j - 1];
          assert r[j] in xs[1..];
        }
      } else {
        SubseqNoDups(r, xs[1..]);
      }
    }
  }

  /** Every element of a subsequence is an element of the sequence. */
  lemma {:induction false} SubseqElems<T>(r: seq<T>, xs: seq<T>)
    requires IsSubseq(r, xs)
    ensures forall x :: x in r ==> x in xs
    decreases |xs|
  {
    if r != [] {
      if r[0] == xs[0] {
        SubseqElems(r[1..], xs[1..]);
        assert r == [r[0]] + r[1..];
      } else {
        SubseqElems(r, xs[1..]);
      }
    }
  }

  /** `xs.indexOf(x)`: the first position of `x`, or -1. */
  function IndexOf<T(==)>(xs: seq<T>, x: T): (r: int)
    ensures -1 <= r < |xs|
    ensures r == -1 <==> x !in xs
    ensures r >= 0 ==> xs[r] == x && x !in xs[..r]
  {
    if xs == [] then -1
    else if xs[0] == x then 0
    else
      var k := IndexOf(xs[1..], x);
      if k == -1 then -1
      else
        assert xs[..k + 1] == [xs[0]] + xs[1..][..k];
        k + 1
  }

  /** A duplicate-free list holds each value at most once. */
  lemma {:induction false} NoDupsCount<T>(xs: seq<T>, x: T)
    requires NoDups(xs)
    ensures multiset(xs)[x] <= 1
  {
    if xs != [] {
      NoDupsCount(xs[1..], x);
      assert xs == [xs[0]] + xs[1..];
      if xs[0] == x {
        assert forall k :: 0 <= k < |xs[1..]| ==> xs[1..][k] == xs[k + 1];
        assert x !in xs[1..];
      }
    }
  }

  /** A value at two positions is counted at least twice. */
  lemma TwoPositionsCount<T>(xs: seq<T>, i: int, j: int)
    requires 0 <= i < j < |xs| && xs[i] == xs[j]
    ensures multiset(xs)[xs[i]] >= 2
  {
    assert xs == xs[..j] + [xs[j]] + xs[j + 1..];
    assert xs[..j][i] == xs[i];
    assert xs[i] in multiset(xs[..j]);
  }

  /** A permutation of a duplicate-free list is duplicate-free. */
  lemma PermutationNoDups<T>(a: seq<T>, b: seq<T>)
    requires multiset(a) == multiset(b) && NoDups(a)
    ensures NoDups(b)
  {
    forall i, j | 0 <= i < j < |b| ensures b[i] != b[j] {
      if b[i] == b[j] {
        TwoPositionsCount(b, i, j);
        NoDupsCount(a, b[i]);
      }
    }
  }
}
