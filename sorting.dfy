/** `Array.prototype.sort` with a comparator of the form `key(a) - key(b)`.
    ECMAScript requires the sort to be stable, so its result is the stable
    sort by `key`, written here as an insertion sort. */
module Sorting {
  import Seqs

  predicate SortedBy<T>(xs: seq<T>, key: T -> real) {
    forall i, j :: 0 <= i < j < |xs| ==> key(xs[i]) <= key(xs[j])
  }

  /** Puts `x` after every element of `s` whose key is at most `key(x)`,
      searching from the back. */
  function Insert<T>(s: seq<T>, x: T, key: T -> real): (r: seq<T>)
    ensures |r| == |s| + 1
    ensures multiset(r) == multiset(s) + multiset{x}
  {
    if s == [] then [x]
    else if key(s[|s| - 1]) <= key(x) then
      assert multiset(s + [x]) == multiset(s) + multiset{x};
      s + [x]
    else
      var init := s[..|s| - 1];
      assert s == init + [s[|s| - 1]];
      Insert(init, x, key) + [s[|s| - 1]]
  }

  /** Inserting into a sorted list keeps it sorted. */
  lemma {:induction false} InsertSorted<T>(s: seq<T>, x: T, key: T -> real)
    requires SortedBy(s, key)
    ensures SortedBy(Insert(s, x, key), key)
  {
    if s == [] {
      assert Insert(s, x, key) == [x];
    } else if key(s[|s| - 1]) <= key(x) {
      AppendSorted(s, x, key);
    } else {
      var init := s[..|s| - 1];
      var last := s[|s| - 1];
      assert SortedBy(init, key);
      InsertSorted(init, x, key);
      var r' := Insert(init, x, key);
      assert forall i :: 0 <= i < |init| ==> key(init[i]) <= key(last);
      InsertedAtMost(init, x, key, key(last));
      AppendSorted(r', last, key);
    }
  }

  /** Appending an element whose key bounds every key keeps a list sorted. */
  lemma AppendSorted<T>(a: seq<T>, y: T, key: T -> real)
    requires SortedBy(a, key)
    requires forall i :: 0 <= i < |a| ==> key(a[i]) <= key(y)
    ensures SortedBy(a + [y], key)
  {
  }

  /** A bound on the keys of a list and of `x` bounds the keys after insertion. */
  lemma InsertedAtMost<T>(s: seq<T>, x: T, key: T -> real, b: real)
    requires forall i :: 0 <= i < |s| ==> key(s[i]) <= b
    requires key(x) <= b
    ensures forall i :: 0 <= i < |Insert(s, x, key)| ==> key(Insert(s, x, key)[i]) <= b
  {
    var r := Insert(s, x, key);
    forall i | 0 <= i < |r| ensures key(r[i]) <= b {
      assert r[i] in multiset(r);
      if r[i] != x {
        assert r[i] in multiset(s);
        var j :| 0 <= j < |s| && s[j] == r[i];
      }
    }
  }

  /** The stable sort of `xs` by `key`. */
  function SortBy<T>(xs: seq<T>, key: T -> real): (r: seq<T>)
    ensures multiset(r) == multiset(xs)
    ensures SortedBy(r, key)
  {
    if xs == [] then []
    else
      var init := xs[..|xs| - 1];
      assert xs == init + [xs[|xs| - 1]];
      InsertSorted(SortBy(init, key), xs[|xs| - 1], key);
      Insert(SortBy(init, key), xs[|xs| - 1], key)
  }

  /** Inserting `x` appends it to the elements of its own key and leaves the
      order of every other key alone; `p` selects the elements of key `k`. */
  lemma {:induction false} InsertKeepsKeyOrder<T>(s: seq<T>, x: T, key: T -> real, k: real, p: T -> bool)
    requires forall y :: p(y) <==> key(y) == k
    ensures Seqs.Filter(Insert(s, x, key), p) == Seqs.Filter(s, p) + (if key(x) == k then [x] else [])
  {
    var xPart := if key(x) == k then [x] else [];
    if s == [] {
      calc {
        Seqs.Filter(Insert(s, x, key), p);
        Seqs.Filter([x], p);
        { FilterSingleton(x, key, k, p); }
        xPart;
        Seqs.Filter(s, p) + xPart;
      }
    } else if key(s[|s| - 1]) <= key(x) {
      calc {
        Seqs.Filter(Insert(s, x, key), p);
        Seqs.Filter(s + [x], p);
        { Seqs.FilterConcat(s, [x], p); }
        Seqs.Filter(s, p) + Seqs.Filter([x], p);
        { FilterSingleton(x, key, k, p); }
        Seqs.Filter(s, p) + xPart;
      }
    } else {
      var init := s[..|s| - 1];
      var last := s[|s| - 1];
      InsertKeepsKeyOrder(init, x, key, k, p);
      InsertBeforeLast(s, x, key, k, p);
    }
  }

  /** The step of `InsertKeepsKeyOrder` where `x` goes before the last element. */
  lemma InsertBeforeLast<T>(s: seq<T>, x: T, key: T -> real, k: real, p: T -> bool)
    requires forall y :: p(y) <==> key(y) == k
    requires s != [] && key(s[|s| - 1]) > key(x)
    requires Seqs.Filter(Insert(s[..|s| - 1], x, key), p)
             == Seqs.Filter(s[..|s| - 1], p) + (if key(x) == k then [x] else [])
    ensures Seqs.Filter(Insert(s, x, key), p) == Seqs.Filter(s, p) + (if key(x) == k then [x] else [])
  {
    var init := s[..|s| - 1];
    var last := s[|s| - 1];
    var xPart := if key(x) == k then [x] else [];
    var lastPart := if key(last) == k then [last] else [];
    // `last` sorts after `x`, so at most one of them has key `k`.
    assert xPart + lastPart == lastPart + xPart;
    calc {
      Seqs.Filter(Insert(s, x, key), p);
      Seqs.Filter(Insert(init, x, key) + [last], p);
      { Seqs.FilterConcat(Insert(init, x, key), [last], p); }
      Seqs.Filter(Insert(init, x, key), p) + Seqs.Filter([last], p);
      { FilterSingleton(last, key, k, p); }
      (Seqs.Filter(init, p) + xPart) + lastPart;
      { Seqs.AppendAssoc(Seqs.Filter(init, p), xPart, lastPart); }
      Seqs.Filter(init, p) + (lastPart + xPart);
      { Seqs.AppendAssoc(Seqs.Filter(init, p), lastPart, xPart); }
      (Seqs.Filter(init, p) + lastPart) + xPart;
      { FilterSingleton(last, key, k, p); FilterSnoc(s, p); }
      Seqs.Filter(s, p) + xPart;
    }
  }

  /** Filtering splits off the last element. */
  lemma FilterSnoc<T>(xs: seq<T>, p: T -> bool)
    requires xs != []
    ensures Seqs.Filter(xs, p) == Seqs.Filter(xs[..|xs| - 1], p) + Seqs.Filter([xs[|xs| - 1]], p)
  {
    assert xs == xs[..|xs| - 1] + [xs[|xs| - 1]];
    Seqs.FilterConcat(xs[..|xs| - 1], [xs[|xs| - 1]], p);
  }

  /** Filtering a one-element list by `p`. */
  lemma FilterSingleton<T>(x: T, key: T -> real, k: real, p: T -> bool)
    requires forall y :: p(y) <==> key(y) == k
    ensures Seqs.Filter([x], p) == if key(x) == k then [x] else []
  {
    assert [x][1..] == [];
    assert p(x) <==> key(x) == k;
  }

  /** The sort is stable: the elements of any one key `k` (those `p` selects)
      keep their input order. */
  lemma {:induction false} SortIsStable<T>(xs: seq<T>, key: T -> real, k: real, p: T -> bool)
    requires forall y :: p(y) <==> key(y) == k
    ensures Seqs.Filter(SortBy(xs, key), p) == Seqs.Filter(xs, p)
  {
    if xs != [] {
      var init := xs[..|xs| - 1];
      var x := xs[|xs| - 1];
      var xPart := if key(x) == k then [x] else [];
      SortIsStable(init, key, k, p);
      calc {
        Seqs.Filter(SortBy(xs, key), p);
        Seqs.Filter(Insert(SortBy(init, key), x, key), p);
        { InsertKeepsKeyOrder(SortBy(init, key), x, key, k, p); }
        Seqs.Filter(SortBy(init, key), p) + xPart;
        Seqs.Filter(init, p) + xPart;
        { FilterSingleton(x, key, k, p); }
        Seqs.Filter(init, p) + Seqs.Filter([x], p);
        { FilterSnoc(xs, p); }
        Seqs.Filter(xs, p);
      }
    }
  }
}
