/** `RoasteryExplorer`: the second explorer's free-text search and quick
    filter over the coffee catalog. */
module Explorer {
  import opened Js
  import opened Text
  import opened Types
  import Seqs

  /** The text the search looks in: name, city, neighbourhood, description,
      brew methods and vibe tags, joined by spaces. A `Roastery` has no
      neighbourhood, so that piece is always empty. */
  function Haystack(r: Roastery): string {
    Join([r.name, r.city.GetOr(""), "", r.description, Join(r.brewMethods, " "), Join(r.vibeTags, " ")], " ")
  }

  /** `bySearch`: a blank query passes everything; otherwise the lowercased
      query, untrimmed, must occur in the lowercased haystack. */
  predicate BySearch(r: Roastery, query: string) {
    Trim(query) == "" || Includes(Lower(Haystack(r)), Lower(query))
  }

  /** A roastery passes the search exactly when the query is white space
      only, or the lowercased query occurs somewhere in the lowercased
      haystack. */
  lemma BySearchMeaning(r: Roastery, query: string)
    ensures BySearch(r, query) <==> IsBlank(query) || exists i :: OccursAt(Lower(Haystack(r)), Lower(query), i)
  {
    TrimEmptyIffBlank(query);
    IncludesIffOccurs(Lower(Haystack(r)), Lower(query));
  }

  /** A blank query lets every roastery through. */
  lemma BlankQueryPassesAll(r: Roastery, query: string)
    requires IsBlank(query)
    ensures BySearch(r, query)
  {
    TrimEmptyIffBlank(query);
  }

  /** A query found in the lowercased name finds the roastery. */
  lemma NameMatchPasses(r: Roastery, query: string)
    requires Includes(Lower(r.name), Lower(query))
    ensures BySearch(r, query)
  {
    var rest := [r.city.GetOr(""), "", r.description, Join(r.brewMethods, " "), Join(r.vibeTags, " ")];
    var pieces := [r.name] + rest;
    assert pieces[1..] == rest;
    assert Haystack(r) == r.name + (" " + Join(rest, " "));
    LowerConcat(r.name, " " + Join(rest, " "));
    IncludesInPrefix(Lower(r.name), Lower(" " + Join(rest, " ")), Lower(query));
  }

  /** Lowercasing introduces no tab. */
  lemma LowerKeepsNoTab(s: string)
    requires '\t' !in s
    ensures '\t' !in Lower(s)
  {
    var h := Lower(s);
    forall i | 0 <= i < |h| ensures h[i] != '\t' {
      assert h[i] == LowerChar(s[i]);
    }
  }

  /** The query is not trimmed: a trailing tab is searched for too, so a
      roastery whose fields hold no tab is not found by `"x\t"`, whatever
      they say about `x`. */
  lemma QueryIsNotTrimmed(r: Roastery)
    requires '\t' !in Haystack(r)
    ensures !BySearch(r, "x\t")
  {
    var q := "x\t";
    assert q[0] == 'x' && !IsSpace('x');
    TrimEmptyIffBlank(q);
    var h := Lower(Haystack(r));
    LowerKeepsNoTab(Haystack(r));
    var lq := Lower(q);
    assert lq[1] == '\t';
    if Includes(h, lq) {
      IncludedCharsOccur(h, lq);
      assert false;
    }
  }

  datatype QuickFilterKey = All | FilterKey | EspressoKey

  /** Some brew method, lowercased, contains `word`. */
  predicate SomeMethodIncludes(r: Roastery, word: string) {
    exists k :: 0 <= k < |r.brewMethods| && Includes(Lower(r.brewMethods[k]), word)
  }

  /** `byQuickFilter` as written: the English words `filter` and `espresso`. */
  predicate ByQuickFilterAsWritten(r: Roastery, f: QuickFilterKey) {
    match f
    case All => true
    case FilterKey => SomeMethodIncludes(r, "filter")
    case EspressoKey => SomeMethodIncludes(r, "espresso")
  }

  /** A string without Latin letters. */
  predicate NoLatin(s: string) {
    forall k :: 0 <= k < |s| ==> !('a' <= s[k] <= 'z') && !('A' <= s[k] <= 'Z')
  }

  /** When every brew method is written without Latin letters, as the
      catalog's Hebrew labels are, the `filter` and `espresso` quick filters
      reject the roastery. */
  lemma HebrewMethodsFailQuickFilter(r: Roastery, f: QuickFilterKey)
    requires forall k :: 0 <= k < |r.brewMethods| ==> NoLatin(r.brewMethods[k])
    requires f != All
    ensures !ByQuickFilterAsWritten(r, f)
  {
    forall k, word | 0 <= k < |r.brewMethods| && word in {"filter", "espresso"}
      ensures !Includes(Lower(r.brewMethods[k]), word)
    {
      var m := Lower(r.brewMethods[k]);
      assert 'e' !in m by {
        forall i | 0 <= i < |m| ensures m[i] != 'e' {
          assert m[i] == LowerChar(r.brewMethods[k][i]);
        }
      }
      var i := if word == "filter" then 4 else 0;
      assert word[i] == 'e';
      if Includes(m, word) {
        IncludedCharsOccur(m, word);
        assert false;
      }
    }
  }

  /** So a roastery offering the three canonical methods fails the "פילטר"
      quick filter. */
  lemma CanonicalMethodsFailFilter(r: Roastery)
    requires r.brewMethods == ["אספרסו", "פילטר", "קולד ברו"]
    ensures !ByQuickFilterAsWritten(r, FilterKey)
  {
    forall k | 0 <= k < |r.brewMethods| ensures NoLatin(r.brewMethods[k]) {
    }
    HebrewMethodsFailQuickFilter(r, FilterKey);
  }

  /** The Hebrew label each quick filter shows. */
  function Label(f: QuickFilterKey): string {
    match f
    case All => "הכל"
    case FilterKey => "פילטר"
    case EspressoKey => "אספרסו"
  }

  /** `byQuickFilter` as intended: the English word or the Hebrew label the
      button shows. */
  predicate ByQuickFilter(r: Roastery, f: QuickFilterKey) {
    match f
    case All => true
    case FilterKey => SomeMethodIncludes(r, "filter") || SomeMethodIncludes(r, Label(f))
    case EspressoKey => SomeMethodIncludes(r, "espresso") || SomeMethodIncludes(r, Label(f))
  }

  /** The intended filter keeps whatever the written one keeps, and also every
      roastery that lists the button's own label. */
  lemma QuickFilterFixed(r: Roastery, f: QuickFilterKey)
    ensures ByQuickFilterAsWritten(r, f) ==> ByQuickFilter(r, f)
    ensures f != All && Label(f) in r.brewMethods ==> ByQuickFilter(r, f)
  {
    if f != All && Label(f) in r.brewMethods {
      var k :| 0 <= k < |r.brewMethods| && r.brewMethods[k] == Label(f);
      assert Lower(Label(f)) == Label(f);
      IncludesSelf(Label(f));
    }
  }

  /** The explorer's list: the catalog entries that pass both tests, in
      catalog order. */
  function Explore(roasteries: seq<Roastery>, query: string, f: QuickFilterKey): (r: seq<Roastery>)
    ensures |r| <= |roasteries|
    ensures forall k :: 0 <= k < |r| ==> BySearch(r[k], query) && ByQuickFilter(r[k], f) && r[k] in roasteries
    ensures forall k :: 0 <= k < |roasteries| && BySearch(roasteries[k], query) && ByQuickFilter(roasteries[k], f)
              ==> roasteries[k] in r
    ensures Seqs.IsSubseq(r, roasteries)
  {
    if roasteries == [] then []
    else
      var rest := Explore(roasteries[1..], query, f);
      assert forall k :: 1 <= k < |roasteries| ==> roasteries[k] == roasteries[1..][k - 1];
      if BySearch(roasteries[0], query) && ByQuickFilter(roasteries[0], f) then
        assert ([roasteries[0]] + rest)[1..] == rest;
        [roasteries[0]] + rest
      else
        Seqs.SubseqSkip(rest, roasteries);
        rest
  }

  /** `filter` keeps every copy of a passing roastery and no copy of a
      failing one. */
  lemma {:induction false} ExploreCount(roasteries: seq<Roastery>, query: string, f: QuickFilterKey, x: Roastery)
    ensures multiset(Explore(roasteries, query, f))[x]
            == if BySearch(x, query) && ByQuickFilter(x, f) then multiset(roasteries)[x] else 0
  {
    if roasteries != [] {
      var h, tail := roasteries[0], roasteries[1..];
      var rest := Explore(tail, query, f);
      ExploreCount(tail, query, f, x);
      assert multiset(roasteries) == multiset{h} + multiset(tail) by {
        assert roasteries == [h] + tail;
      }
      if BySearch(h, query) && ByQuickFilter(h, f) {
        assert Explore(roasteries, query, f) == [h] + rest;
        assert multiset([h] + rest) == multiset{h} + multiset(rest);
      } else {
        assert Explore(roasteries, query, f) == rest;
      }
    }
  }

  /** With a blank query and the `all` filter, the whole catalog is listed. */
  lemma {:induction false} BlankAllListsEverything(roasteries: seq<Roastery>, query: string)
    requires IsBlank(query)
    ensures Explore(roasteries, query, All) == roasteries
  {
    if roasteries != [] {
      BlankQueryPassesAll(roasteries[0], query);
      BlankAllListsEverything(roasteries[1..], query);
      assert roasteries == [roasteries[0]] + roasteries[1..];
    }
  }
}
