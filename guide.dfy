/** The pure logic of `IsraelCoffeeGuide`: the shop records it shows, the
    brew-method normalisation, the search and brew filters, the toggle lists,
    review submission and the marker rule. */
module Guide {
  import opened Js
  import opened Text
  import opened Types
  import Seqs
  import Sorting
  import IdGen
  import Roasteries

  /** One shop as the guide displays it. */
  datatype CoffeeShop = CoffeeShop(
    id: string,
    name: string,
    location: string,
    lat: real,
    lng: real,
    image: string,
    specialty: string,
    description: string,
    brewMethods: Option<seq<string>>,
    vibeTags: seq<string>,
    instagram: Option<string>,
    website: Option<string>,
    hours: Option<string>,
    reviews: seq<Review>,
    matchaOrigin: Option<string>,
    milkOptions: Loose)

  const DefaultLat: real := 32.0809
  const DefaultLng: real := 34.7806
  const DefaultImage: string := "https://images.unsplash.com/photo-1495474472287-4d71bcdd2085?w=800&auto=format&fit=crop"

  /** `mapPlaceToCoffeeShop`. */
  function MapPlaceToCoffeeShop(p: Place): (s: CoffeeShop)
    ensures s.id == p.id && s.name == p.name && s.description == p.description
    ensures s.location == if Truthy(p.city) then p.city.value else ""
    ensures p.latitude.Some? ==> s.lat == p.latitude.value
    ensures p.latitude.None? ==> s.lat == DefaultLat
    ensures p.longitude.Some? ==> s.lng == p.longitude.value
    ensures p.longitude.None? ==> s.lng == DefaultLng
    ensures s.image == if Truthy(p.heroImage) then p.heroImage.value else DefaultImage
    ensures s.brewMethods == p.brewMethods && s.vibeTags == p.vibeTags
    ensures s.hours == OrNull(p.openingHours) && s.instagram == OrNull(p.instagramHandle)
    ensures s.website == OrNull(p.website)
    ensures s.reviews == if p.reviews.Some? then p.reviews.value else []
    ensures s.specialty == "" && s.matchaOrigin == p.matchaOrigin && s.milkOptions == p.milkOptions
  {
    CoffeeShop(
      p.id,
      p.name,
      if Truthy(p.city) then p.city.value else "",
      p.latitude.GetOr(DefaultLat),
      p.longitude.GetOr(DefaultLng),
      if Truthy(p.heroImage) then p.heroImage.value else DefaultImage,
      "",
      p.description,
      p.brewMethods,
      p.vibeTags,
      OrNull(p.instagramHandle),
      OrNull(p.website),
      OrNull(p.openingHours),
      p.reviews.GetOr([]),
      p.matchaOrigin,
      p.milkOptions)
  }

  predicate HasCoords(p: Place) {
    p.latitude.Some? && p.longitude.Some?
  }

  /** `shop` is the mapping of some place of `places` that has coordinates. */
  predicate MappedFrom(shop: CoffeeShop, places: seq<Place>) {
    exists j :: 0 <= j < |places| && HasCoords(places[j]) && shop == MapPlaceToCoffeeShop(places[j])
  }

  function MapAll(ps: seq<Place>): (r: seq<CoffeeShop>)
    ensures |r| == |ps| && forall k :: 0 <= k < |ps| ==> r[k] == MapPlaceToCoffeeShop(ps[k])
  {
    seq(|ps|, k requires 0 <= k < |ps| => MapPlaceToCoffeeShop(ps[k]))
  }

  /** `coffeeShops`: the places with both coordinates, in order, mapped. */
  function CoffeeShops(places: seq<Place>): (r: seq<CoffeeShop>)
    ensures |r| == |Seqs.Filter(places, HasCoords)|
    ensures forall k :: 0 <= k < |r| ==> r[k] == MapPlaceToCoffeeShop(Seqs.Filter(places, HasCoords)[k])
    ensures forall k :: 0 <= k < |r| ==> MappedFrom(r[k], places)
    ensures forall k :: 0 <= k < |places| && HasCoords(places[k]) ==> MapPlaceToCoffeeShop(places[k]) in r
  {
    var kept := Seqs.Filter(places, HasCoords);
    CoffeeShopsFacts(places, kept);
    MapAll(kept)
  }

  lemma CoffeeShopsFacts(places: seq<Place>, kept: seq<Place>)
    requires kept == Seqs.Filter(places, HasCoords)
    ensures forall k :: 0 <= k < |kept| ==> MappedFrom(MapAll(kept)[k], places)
    ensures forall k :: 0 <= k < |places| && HasCoords(places[k]) ==> MapPlaceToCoffeeShop(places[k]) in MapAll(kept)
  {
    ShownAreMapped(places, kept);
    MappedAreShown(places, kept);
  }

  lemma ShownAreMapped(places: seq<Place>, kept: seq<Place>)
    requires kept == Seqs.Filter(places, HasCoords)
    ensures forall k :: 0 <= k < |kept| ==> MappedFrom(MapAll(kept)[k], places)
  {
    Seqs.FilterKeepsMembers(places, HasCoords);
    forall k | 0 <= k < |kept| ensures MappedFrom(MapAll(kept)[k], places) {
      KeptIsMapped(places, kept, k);
    }
  }

  lemma MappedAreShown(places: seq<Place>, kept: seq<Place>)
    requires kept == Seqs.Filter(places, HasCoords)
    ensures forall k :: 0 <= k < |places| && HasCoords(places[k]) ==> MapPlaceToCoffeeShop(places[k]) in MapAll(kept)
  {
    Seqs.FilterKeepsAll(places, HasCoords);
    forall k | 0 <= k < |places| && HasCoords(places[k]) ensures MapPlaceToCoffeeShop(places[k]) in MapAll(kept) {
      MappedIsShown(kept, places[k]);
    }
  }

  lemma KeptIsMapped(places: seq<Place>, kept: seq<Place>, k: int)
    requires 0 <= k < |kept| && kept[k] in places && HasCoords(kept[k])
    ensures MappedFrom(MapAll(kept)[k], places)
  {
    var j :| 0 <= j < |places| && places[j] == kept[k];
    assert HasCoords(places[j]) && MapAll(kept)[k] == MapPlaceToCoffeeShop(places[j]);
  }

  lemma MappedIsShown(kept: seq<Place>, p: Place)
    requires p in kept
    ensures MapPlaceToCoffeeShop(p) in MapAll(kept)
  {
    var j :| 0 <= j < |kept| && kept[j] == p;
    assert MapAll(kept)[j] == MapPlaceToCoffeeShop(p);
  }

  /** `shop` is some place of `places` at that place's own coordinates. */
  predicate AtOwnCoordinates(shop: CoffeeShop, places: seq<Place>) {
    exists i :: 0 <= i < |places| && places[i].id == shop.id
                && places[i].latitude == Some(shop.lat) && places[i].longitude == Some(shop.lng)
  }

  /** Every displayed shop stands at its place's own coordinates: the default
      position is never used. */
  lemma ShopsUseRealCoordinates(places: seq<Place>)
    ensures forall k :: 0 <= k < |CoffeeShops(places)| ==> AtOwnCoordinates(CoffeeShops(places)[k], places)
  {
    var r := CoffeeShops(places);
    forall k | 0 <= k < |r| ensures AtOwnCoordinates(r[k], places) {
      assert MappedFrom(r[k], places);
      var j :| 0 <= j < |places| && HasCoords(places[j]) && r[k] == MapPlaceToCoffeeShop(places[j]);
      assert places[j].latitude == Some(r[k].lat) && places[j].longitude == Some(r[k].lng);
    }
  }

  // ------------------------------------------------------------ brew methods

  /** The five labels `filterBrewMethods` keeps. */
  predicate IsBrewLabel(m: string) {
    m == "פילטר" || m == "אספרסו" || m == "קולד ברו" || m == "V60" || m == "חליטה קרה"
  }

  /** V60 is a filter method and חליטה קרה is cold brew. */
  function Fold(m: string): string {
    if m == "V60" then "פילטר"
    else if m == "חליטה קרה" then "קולד ברו"
    else m
  }

  function FoldAll(ms: seq<string>): (r: seq<string>)
    ensures |r| == |ms|
    ensures forall k :: 0 <= k < |ms| ==> r[k] == Fold(ms[k])
  {
    seq(|ms|, k requires 0 <= k < |ms| => Fold(ms[k]))
  }

  /** `filter((m, i, arr) => arr.indexOf(m) === i)` over the first `n`
      elements: each value at its first position. */
  function DedupePrefix(xs: seq<string>, n: nat): (r: seq<string>)
    requires n <= |xs|
    ensures Seqs.NoDups(r)
    ensures forall x :: x in r <==> x in xs[..n]
    ensures forall x :: x in r ==> Seqs.IndexOf(xs, x) < n
    ensures forall i, j :: 0 <= i < j < |r| ==> Seqs.IndexOf(xs, r[i]) < Seqs.IndexOf(xs, r[j])
  {
    if n == 0 then []
    else
      var r := DedupePrefix(xs, n - 1);
      assert xs[..n] == xs[..n - 1] + [xs[n - 1]];
      assert forall x :: x in xs[..n - 1] ==> Seqs.IndexOf(xs, x) < n - 1 by {
        forall x | x in xs[..n - 1] ensures Seqs.IndexOf(xs, x) < n - 1 {
          var k :| 0 <= k < n - 1 && xs[..n - 1][k] == x;
          assert xs[k] == x;
        }
      }
      if Seqs.IndexOf(xs, xs[n - 1]) == n - 1 then
        assert xs[..n - 1] == xs[..Seqs.IndexOf(xs, xs[n - 1])];
        r + [xs[n - 1]]
      else
        assert xs[n - 1] in xs[..n - 1] by {
          var j := Seqs.IndexOf(xs, xs[n - 1]);
          assert xs[j] == xs[n - 1] && j < n - 1;
          assert xs[..n - 1][j] == xs[j];
        }
        r
  }

  /** `arr.filter((m, i) => arr.indexOf(m) === i)`: each value once, in the
      order of first occurrence. */
  function Dedupe(xs: seq<string>): (r: seq<string>)
    ensures Seqs.NoDups(r)
    ensures forall x :: x in r <==> x in xs
    ensures forall i, j :: 0 <= i < j < |r| ==> Seqs.IndexOf(xs, r[i]) < Seqs.IndexOf(xs, r[j])
  {
    assert xs[..|xs|] == xs;
    DedupePrefix(xs, |xs|)
  }

  /** The contract of `Dedupe` determines its result: any list with the same
      values, ordered by first occurrence, is that result. */
  lemma DedupeIsUnique(xs: seq<string>, r: seq<string>)
    requires forall x :: x in r <==> x in xs
    requires forall i, j :: 0 <= i < j < |r| ==> Seqs.IndexOf(xs, r[i]) < Seqs.IndexOf(xs, r[j])
    ensures r == Dedupe(xs)
  {
    Seqs.OrderedByKeyUnique(r, Dedupe(xs), x => Seqs.IndexOf(xs, x));
  }

  /** `m` or one of its synonyms is listed. */
  predicate Offered(m: string, methods: seq<string>) {
    m in methods
    || (m == "פילטר" && "V60" in methods)
    || (m == "קולד ברו" && "חליטה קרה" in methods)
  }

  /** `filterBrewMethods`: the canonical methods the list offers, each once,
      in the canonical order. */
  function FilterBrewMethods(methods: seq<string>): (r: seq<string>)
    ensures forall k :: 0 <= k < |r| ==> r[k] in Roasteries.Order
    ensures Seqs.NoDups(r)
    ensures forall i, j :: 0 <= i < j < |r| ==> Roasteries.Rank(r[i]) < Roasteries.Rank(r[j])
    ensures forall x :: x in r <==> x in Roasteries.Order && Offered(x, methods)
  {
    var kept := Seqs.Filter(methods, IsBrewLabel);
    var folded := FoldAll(kept);
    var unique := Dedupe(folded);
    var r := Sorting.SortBy(unique, Roasteries.RankKey);
    FilterBrewMethodsFacts(methods, kept, folded, unique, r);
    r
  }

  /** The folded labels are exactly the canonical methods offered. */
  lemma FoldedMembership(methods: seq<string>, x: string)
    ensures x in FoldAll(Seqs.Filter(methods, IsBrewLabel)) <==> x in Roasteries.Order && Offered(x, methods)
  {
    var kept := Seqs.Filter(methods, IsBrewLabel);
    var folded := FoldAll(kept);
    Seqs.FilterSpec(methods, IsBrewLabel);
    if x in folded {
      var k :| 0 <= k < |folded| && folded[k] == x;
      assert kept[k] in methods && IsBrewLabel(kept[k]);
    }
    if x in Roasteries.Order && Offered(x, methods) {
      var m := if x in methods then x else if x == "פילטר" && "V60" in methods then "V60" else "חליטה קרה";
      assert m in methods && IsBrewLabel(m) && Fold(m) == x;
      var i :| 0 <= i < |methods| && methods[i] == m;
      assert m in kept;
      var k :| 0 <= k < |kept| && kept[k] == m;
      assert folded[k] == x;
    }
  }

  /** Sorting canonical, distinct labels by rank orders them strictly. */
  lemma SortedDistinctStrict(unique: seq<string>, r: seq<string>)
    requires forall k :: 0 <= k < |unique| ==> unique[k] in Roasteries.Order
    requires Seqs.NoDups(unique)
    requires r == Sorting.SortBy(unique, Roasteries.RankKey)
    ensures forall k :: 0 <= k < |r| ==> r[k] in Roasteries.Order
    ensures Seqs.NoDups(r)
    ensures forall i, j :: 0 <= i < j < |r| ==> Roasteries.Rank(r[i]) < Roasteries.Rank(r[j])
  {
    assert multiset(r) == multiset(unique) && Sorting.SortedBy(r, Roasteries.RankKey);
    Seqs.PermutationNoDups(unique, r);
    forall k | 0 <= k < |r| ensures r[k] in Roasteries.Order {
      assert r[k] in multiset(unique);
    }
    forall i, j | 0 <= i < j < |r| ensures Roasteries.Rank(r[i]) < Roasteries.Rank(r[j]) {
      assert Roasteries.RankKey(r[i]) <= Roasteries.RankKey(r[j]);
      Roasteries.RankStrict(r[i], r[j]);
    }
  }

  lemma FilterBrewMethodsFacts(methods: seq<string>, kept: seq<string>, folded: seq<string>,
                               unique: seq<string>, r: seq<string>)
    requires kept == Seqs.Filter(methods, IsBrewLabel)
    requires folded == FoldAll(kept)
    requires unique == Dedupe(folded)
    requires r == Sorting.SortBy(unique, Roasteries.RankKey)
    ensures forall k :: 0 <= k < |r| ==> r[k] in Roasteries.Order
    ensures Seqs.NoDups(r)
    ensures forall i, j :: 0 <= i < j < |r| ==> Roasteries.Rank(r[i]) < Roasteries.Rank(r[j])
    ensures forall x :: x in r <==> x in Roasteries.Order && Offered(x, methods)
  {
    forall x ensures x in r <==> x in Roasteries.Order && Offered(x, methods) {
      assert x in r <==> x in multiset(unique);
      FoldedMembership(methods, x);
    }
    forall k | 0 <= k < |unique| ensures unique[k] in Roasteries.Order {
      FoldedMembership(methods, unique[k]);
    }
    SortedDistinctStrict(unique, r);
  }

  // ------------------------------------------------------------ filters

  /** The search test: the lowercased query occurs in the lowercased name or
      location. */
  predicate MatchesSearch(shop: CoffeeShop, query: string) {
    Includes(Lower(shop.name), Lower(query)) || Includes(Lower(shop.location), Lower(query))
  }

  /** One selected method against a shop's list: פילטר accepts V60 too and
      קולד ברו accepts חליטה קרה too; any other needs itself. */
  predicate MethodMatches(wanted: string, brew: seq<string>) {
    if wanted == "פילטר" then "פילטר" in brew || "V60" in brew
    else if wanted == "קולד ברו" then "קולד ברו" in brew || "חליטה קרה" in brew
    else wanted in brew
  }

  /** The brew test: always in matcha mode or with nothing selected;
      otherwise some selected method must match the shop's list. */
  predicate MatchesBrew(mode: AppMode, selected: seq<string>, shop: CoffeeShop) {
    mode == Matcha
    || |selected| == 0
    || (shop.brewMethods.Some? && exists k :: 0 <= k < |selected| && MethodMatches(selected[k], shop.brewMethods.value))
  }

  /** The matching shops in their original order, written without the
      distance sort. */
  function Matching(shops: seq<CoffeeShop>, query: string, selected: seq<string>, mode: AppMode): (r: seq<CoffeeShop>)
    ensures |r| <= |shops|
    ensures forall k :: 0 <= k < |r| ==> MatchesSearch(r[k], query) && MatchesBrew(mode, selected, r[k])
    ensures forall k :: 0 <= k < |shops| && MatchesSearch(shops[k], query) && MatchesBrew(mode, selected, shops[k])
              ==> shops[k] in r
    ensures forall k :: 0 <= k < |r| ==> r[k] in shops
    ensures Seqs.IsSubseq(r, shops)
  {
    if shops == [] then []
    else
      var rest := Matching(shops[1..], query, selected, mode);
      assert forall k :: 1 <= k < |shops| ==> shops[k] == shops[1..][k - 1];
      if MatchesSearch(shops[0], query) && MatchesBrew(mode, selected, shops[0]) then
        assert ([shops[0]] + rest)[1..] == rest;
        [shops[0]] + rest
      else
        Seqs.SubseqSkip(rest, shops);
        rest
  }

  /** `filter` keeps every copy of a passing shop and no copy of a failing
      one. */
  lemma {:induction false} MatchingCount(shops: seq<CoffeeShop>, query: string, selected: seq<string>, mode: AppMode, s: CoffeeShop)
    ensures multiset(Matching(shops, query, selected, mode))[s]
            == if MatchesSearch(s, query) && MatchesBrew(mode, selected, s) then multiset(shops)[s] else 0
  {
    if shops != [] {
      MatchingCount(shops[1..], query, selected, mode, s);
      assert shops == [shops[0]] + shops[1..];
    }
  }

  /** `filteredShops`: the matching shops, sorted by ascending distance from
      the user when a location is known. `distance` stands for the
      great-circle distance, which is not modelled. */
  function FilteredShops(shops: seq<CoffeeShop>, query: string, selected: seq<string>, mode: AppMode,
                         userLocation: Option<(real, real)>,
                         distance: ((real, real), CoffeeShop) -> real): (r: seq<CoffeeShop>)
    ensures userLocation.None? ==> r == Matching(shops, query, selected, mode)
    ensures userLocation.Some? ==> multiset(r) == multiset(Matching(shops, query, selected, mode))
    ensures userLocation.Some? ==>
              forall i, j :: 0 <= i < j < |r| ==> distance(userLocation.value, r[i]) <= distance(userLocation.value, r[j])
  {
    var matching := Matching(shops, query, selected, mode);
    if userLocation.None? then matching
    else Sorting.SortBy(matching, s => distance(userLocation.value, s))
  }

  /** With a location the result holds exactly the matching shops. */
  lemma FilteredShopsMembership(shops: seq<CoffeeShop>, query: string, selected: seq<string>, mode: AppMode,
                                userLocation: Option<(real, real)>,
                                distance: ((real, real), CoffeeShop) -> real, s: CoffeeShop)
    ensures s in FilteredShops(shops, query, selected, mode, userLocation, distance)
            <==> s in shops && MatchesSearch(s, query) && MatchesBrew(mode, selected, s)
  {
    var r := FilteredShops(shops, query, selected, mode, userLocation, distance);
    var m := Matching(shops, query, selected, mode);
    assert s in r <==> s in multiset(r);
    assert s in m <==> s in multiset(m);
  }

  /** In matcha mode, or with no method selected, the brew filter passes
      everything, so only the search narrows the list. */
  lemma BrewFilterInactive(shops: seq<CoffeeShop>, query: string, selected: seq<string>, mode: AppMode)
    requires mode == Matcha || selected == []
    ensures forall k :: 0 <= k < |shops| && MatchesSearch(shops[k], query)
              ==> shops[k] in Matching(shops, query, selected, mode)
  {
  }

  /** An empty query matches every shop. */
  lemma EmptyQueryMatchesAll(shop: CoffeeShop)
    ensures MatchesSearch(shop, "")
  {
    IncludesSelf(Lower(shop.name));
  }

  // ------------------------------------------------------------ toggles

  /** `prev.filter(x => x !== v)`. */
  function Remove(xs: seq<string>, v: string): (r: seq<string>)
    ensures v !in r
    ensures forall x :: x != v ==> (x in r <==> x in xs)
    ensures Seqs.IsSubseq(r, xs)
    ensures forall x :: multiset(r)[x] == if x == v then 0 else multiset(xs)[x]
  {
    if xs == [] then []
    else
      var rest := Remove(xs[1..], v);
      Seqs.FilterStepCount(xs, rest, x => x != v);
      if xs[0] == v then
        Seqs.SubseqSkip(rest, xs);
        rest
      else
        assert ([xs[0]] + rest)[1..] == rest;
        [xs[0]] + rest
  }

  /** `toggleFavorite` / `toggleBrewMethod`: a present value is removed
      everywhere, an absent one appended. */
  function Toggle(xs: seq<string>, v: string): (r: seq<string>)
    ensures v in xs ==> v !in r && forall x :: x != v ==> (x in r <==> x in xs)
    ensures v in xs ==> r == Remove(xs, v)
    ensures v !in xs ==> r == xs + [v]
  {
    if v in xs then Remove(xs, v) else xs + [v]
  }

  /** Toggling keeps a duplicate-free list duplicate-free. */
  lemma ToggleKeepsNoDups(xs: seq<string>, v: string)
    requires Seqs.NoDups(xs)
    ensures Seqs.NoDups(Toggle(xs, v))
  {
    if v in xs {
      Seqs.SubseqNoDups(Remove(xs, v), xs);
    }
  }

  /** Removing an absent value changes nothing. */
  lemma {:induction false} RemoveAbsent(xs: seq<string>, v: string)
    requires v !in xs
    ensures Remove(xs, v) == xs
  {
    if xs != [] {
      RemoveAbsent(xs[1..], v);
      assert xs == [xs[0]] + xs[1..];
    }
  }

  /** Toggling an absent value twice restores the list. */
  lemma ToggleAbsentTwice(xs: seq<string>, v: string)
    requires v !in xs
    ensures Toggle(Toggle(xs, v), v) == xs
  {
    var ys := xs + [v];
    assert v in ys;
    RemoveAppended(xs, v);
  }

  lemma {:induction false} RemoveAppended(xs: seq<string>, v: string)
    requires v !in xs
    ensures Remove(xs + [v], v) == xs
  {
    if xs == [] {
      assert [] + [v] == [v];
    } else {
      RemoveAppended(xs[1..], v);
      assert (xs + [v])[1..] == xs[1..] + [v];
      assert xs == [xs[0]] + xs[1..];
    }
  }

  // ------------------------------------------------------------ reviews

  /** The review form. */
  datatype Draft = Draft(name: string, text: string, rating: int)

  const EmptyDraft: Draft := Draft("", "", 5)

  const ReviewSource: string := "Google Maps + Ca Fe community"

  predicate IsDecimalDigit(c: char) {
    '0' <= c <= '9'
  }

  /** The number a string of decimal digits denotes. */
  function FromDecimal(s: string): nat
    requires forall k :: 0 <= k < |s| ==> IsDecimalDigit(s[k])
  {
    if s == [] then 0
    else
      assert IsDecimalDigit(s[|s| - 1]);
      FromDecimal(s[..|s| - 1]) * 10 + (s[|s| - 1] as int - '0' as int)
  }

  /** `String(n)` for a non-negative integer: decimal digits without a
      leading zero that read back as `n`. */
  function Decimal(n: nat): (r: string)
    ensures |r| >= 1
    ensures forall k :: 0 <= k < |r| ==> IsDecimalDigit(r[k])
    ensures n > 0 ==> r[0] != '0'
    ensures FromDecimal(r) == n
  {
    if n < 10 then [(('0' as int) + n) as char]
    else
      var init := Decimal(n / 10);
      var r := init + [(('0' as int) + n % 10) as char];
      assert r[..|r| - 1] == init;
      r
  }

  /** The submission guard: a shop is selected and both name and text have
      something besides white space. */
  predicate CanSubmit(selected: Option<CoffeeShop>, draft: Draft) {
    selected.Some? && Trim(draft.name) != "" && Trim(draft.text) != ""
  }

  /** The new review: ID `${shopId}-${now}`, trimmed author and text, the
      draft's rating, the first ten characters of the ISO timestamp. */
  function NewReview(shopId: string, draft: Draft, now: nat, isoDate: string): (r: Review)
    ensures r.author == Trim(draft.name) && r.text == Trim(draft.text) && r.rating == draft.rating
    ensures r.id == shopId + "-" + Decimal(now)
    ensures r.source == Some(ReviewSource)
    ensures r.date.Some? && |r.date.value| <= 10 && r.date.value <= isoDate
    ensures |isoDate| >= 10 ==> |r.date.value| == 10
    ensures |isoDate| < 10 ==> r.date.value == isoDate
  {
    Review(shopId + "-" + Decimal(now), Trim(draft.name), draft.rating, Trim(draft.text),
      Some(ReviewSource), Some(Take(isoDate, 10)))
  }

  /** `handleReviewSubmit`'s update of the reviews map. */
  function SubmitReview(reviews: map<string, seq<Review>>, selected: Option<CoffeeShop>, draft: Draft,
                        now: nat, isoDate: string): (r: map<string, seq<Review>>)
    ensures !CanSubmit(selected, draft) ==> r == reviews
    ensures CanSubmit(selected, draft) ==> forall k :: k in r <==> k in reviews || k == selected.value.id
    ensures CanSubmit(selected, draft) ==>
              r[selected.value.id] == [NewReview(selected.value.id, draft, now, isoDate)]
                                      + (if selected.value.id in reviews then reviews[selected.value.id] else [])
    ensures CanSubmit(selected, draft) ==>
              forall k :: k in reviews && k != selected.value.id ==> r[k] == reviews[k]
  {
    if !CanSubmit(selected, draft) then reviews
    else
      var id := selected.value.id;
      var existing := if id in reviews then reviews[id] else [];
      reviews[id := [NewReview(id, draft, now, isoDate)] + existing]
  }

  /** A submission adds exactly one review, at the front, and keeps the
      earlier ones in order behind it. */
  lemma SubmitPrependsOne(reviews: map<string, seq<Review>>, selected: Option<CoffeeShop>, draft: Draft,
                          now: nat, isoDate: string)
    requires CanSubmit(selected, draft)
    ensures var id := selected.value.id;
            var r := SubmitReview(reviews, selected, draft, now, isoDate);
            var before := if id in reviews then reviews[id] else [];
            |r[id]| == |before| + 1 && r[id][1..] == before
            && r[id][0].author != "" && r[id][0].text != ""
  {
  }

  // ------------------------------------------------------------ markers

  datatype Icon = RoasteryIcon | CafeIcon | MatchaIcon

  /** The icon the mode gives to ordinary shops. */
  function ModeIcon(mode: AppMode): Icon {
    if mode == Coffee then CafeIcon else MatchaIcon
  }

  /** The marker rule as written: the roastery icon for the ID
      `"canopy-jerusalem"` in coffee mode. */
  function MarkerIconAsWritten(mode: AppMode, shop: CoffeeShop): (i: Icon)
    ensures i == RoasteryIcon <==> mode == Coffee && shop.id == "canopy-jerusalem"
    ensures i != RoasteryIcon ==> i == ModeIcon(mode)
  {
    if mode == Coffee && shop.id == "canopy-jerusalem" then RoasteryIcon else ModeIcon(mode)
  }

  /** No shop whose ID was generated gets the roastery icon, Canopy included. */
  lemma NoGeneratedIdGetsRoasteryIcon(mode: AppMode, shop: CoffeeShop, name: string, city: string)
    requires shop.id == IdGen.IdOf(name, city)
    ensures MarkerIconAsWritten(mode, shop) == ModeIcon(mode)
  {
    IdGen.NeverCanopyLiteral(name, city);
  }

  /** The rule as intended: the roastery icon for Canopy's actual ID in
      coffee mode. */
  function MarkerIcon(mode: AppMode, shop: CoffeeShop): (i: Icon)
    ensures i == RoasteryIcon <==> mode == Coffee && shop.id == Roasteries.CanopyId()
    ensures i != RoasteryIcon ==> i == ModeIcon(mode)
  {
    if mode == Coffee && shop.id == Roasteries.CanopyId() then RoasteryIcon else ModeIcon(mode)
  }

  /** With the intended rule the Canopy catalog record does get the roastery
      icon in coffee mode. */
  lemma CanopyGetsRoasteryIcon(c: Roasteries.CafeRaw, shop: CoffeeShop)
    requires Roasteries.IsCanopy(c)
    requires shop.id == Roasteries.ToRoastery(c).id
    ensures MarkerIcon(Coffee, shop) == RoasteryIcon
    ensures MarkerIconAsWritten(Coffee, shop) == CafeIcon
  {
    Roasteries.CanopyIdIsGenerated(c);
  }
}
