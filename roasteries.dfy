/** The coffee catalog: raw `CAFES` records and their transformation into
    `Roastery` records (`ROASTERIES`). */
module Roasteries {
  import opened Js
  import opened Text
  import Seqs
  import Sorting
  import CommaList
  import IdGen
  import opened Types

  /** The canonical brew-method order. */
  const Order: seq<string> := ["אספרסו", "פילטר", "קולד ברו"]

  /** The comparator `parseBrewMethods` hands to `sort`: it orders exactly
      as `Rank` does, so the sort is the stable sort by `Rank`. */
  function BrewCompare(a: string, b: string): (r: int)
    ensures r < 0 <==> Rank(a) < Rank(b)
    ensures r == 0 <==> Rank(a) == Rank(b)
    ensures r > 0 <==> Rank(a) > Rank(b)
  {
    var ia := Seqs.IndexOf(Order, a);
    var ib := Seqs.IndexOf(Order, b);
    if ia == -1 && ib == -1 then 0
    else if ia == -1 then 1
    else if ib == -1 then -1
    else ia - ib
  }

  /** The sort key the comparator induces: the position in `Order`, and
      `|Order|` for every method not in it. */
  function Rank(m: string): (r: nat)
    ensures r <= |Order|
    ensures r < |Order| <==> m in Order
    ensures r < |Order| ==> Order[r] == m
  {
    var k := Seqs.IndexOf(Order, m);
    if k == -1 then |Order| else k
  }

  function RankKey(m: string): real {
    Rank(m) as real
  }

  /** `parseBrewMethods`: the comma list, stably sorted by `Rank`. */
  function ParseBrewMethods(methods: string): (r: seq<string>)
    ensures multiset(r) == multiset(CommaList.Parse(methods))
    ensures Sorting.SortedBy(r, RankKey)
    ensures forall k :: 0 <= k < |r| ==> r[k] != "" && IsTrimmed(r[k])
  {
    var parsed := CommaList.Parse(methods);
    var r := Sorting.SortBy(parsed, RankKey);
    assert forall k :: 0 <= k < |r| ==> r[k] in multiset(parsed);
    r
  }

  predicate IsUnknownMethod(m: string) {
    m !in Order
  }

  /** The known methods come first, in the canonical order. */
  lemma KnownMethodsFirst(methods: string)
    ensures var r := ParseBrewMethods(methods);
            forall i, j :: 0 <= i < j < |r| && r[j] in Order ==> r[i] in Order && Rank(r[i]) <= Rank(r[j])
  {
    var r := ParseBrewMethods(methods);
    assert forall i, j :: 0 <= i < j < |r| ==> RankKey(r[i]) <= RankKey(r[j]);
  }

  /** The unknown methods keep their input order. */
  lemma UnknownMethodsInInputOrder(methods: string)
    ensures Seqs.Filter(ParseBrewMethods(methods), IsUnknownMethod)
         == Seqs.Filter(CommaList.Parse(methods), IsUnknownMethod)
  {
    Sorting.SortIsStable(CommaList.Parse(methods), RankKey, |Order| as real, IsUnknownMethod);
  }

  /** Two different known methods in key order are in strict rank order. */
  lemma RankStrict(a: string, b: string)
    requires a in Order && b in Order && a != b
    requires RankKey(a) <= RankKey(b)
    ensures Rank(a) < Rank(b)
  {
  }

  /** The canonical order lists each method once. */
  lemma OrderNoDups()
    ensures Seqs.NoDups(Order)
  {
  }

  /** The only rank-sorted arrangement of the three known methods is the
      canonical order. */
  /** A rearrangement of the canonical order has three different known
      methods. */
  lemma PermutedOrder(r: seq<string>)
    requires multiset(r) == multiset(Order)
    ensures |r| == 3
    ensures r[0] in Order && r[1] in Order && r[2] in Order
    ensures r[0] != r[1] && r[1] != r[2]
  {
    assert |r| == 3 by {
      assert |multiset(r)| == |multiset(Order)|;
    }
    assert r[0] in multiset(Order) && r[1] in multiset(Order) && r[2] in multiset(Order);
    OrderNoDups();
    Seqs.PermutationNoDups(Order, r);
  }

  lemma {:induction false} SortedOrderIsCanonical(r: seq<string>)
    requires multiset(r) == multiset(Order)
    requires Sorting.SortedBy(r, RankKey)
    ensures r == Order
  {
    PermutedOrder(r);
    assert RankKey(r[0]) <= RankKey(r[1]) <= RankKey(r[2]);
    RankStrict(r[0], r[1]);
    RankStrict(r[1], r[2]);
  }

  /** Any arrangement of the three known methods comes out in the canonical
      order. */
  lemma {:induction false} KnownMethodsCanonical(methods: string)
    requires multiset(CommaList.Parse(methods)) == multiset(Order)
    ensures ParseBrewMethods(methods) == Order
  {
    SortedOrderIsCanonical(ParseBrewMethods(methods));
  }

  /** The argument of `parseVibeTags`: an array of tags or a comma list. */
  datatype TagsArg = TagArray(items: seq<string>) | TagText(text: string)

  /** `parseVibeTags`: an array is returned as given, a string is parsed. */
  function ParseVibeTags(tags: TagsArg): (r: seq<string>)
    ensures tags.TagArray? ==> r == tags.items
    ensures tags.TagText? ==> r == CommaList.Parse(tags.text)
    ensures tags.TagText? ==> forall k :: 0 <= k < |r| ==> r[k] != "" && IsTrimmed(r[k])
    ensures tags.TagText? && IsBlank(tags.text) ==> r == []
  {
    match tags
    case TagArray(items) => items
    case TagText(text) => CommaList.Parse(text)
  }

  /** `cleanInstagramHandle`: nothing for a missing or blank handle, otherwise
      the handle without one leading `@`. */
  function CleanInstagramHandle(handle: Option<string>): (r: Option<string>)
    ensures r.None? <==> handle.None? || IsBlank(handle.value)
    ensures r.Some? ==> handle.value == r.value || handle.value == "@" + r.value
    ensures r.Some? ==> (handle.value[0] == '@' <==> |r.value| == |handle.value| - 1)
  {
    if handle.None? || handle.value == "" || Trim(handle.value) == "" then
      None
    else
      TrimEmptyIffBlank(handle.value);
      Some(StripAt(handle.value))
  }

  datatype Coordinates = Coordinates(lat: real, lng: real)

  /** One raw `CAFES` record. */
  datatype CafeRaw = CafeRaw(
    id: int,
    name: string,
    city: string,
    address: string,
    openingHours: string,
    description: string,
    brewMethods: string,
    vibeTags: seq<string>,
    instagramHandle: string,
    website: string,
    coordinates: Coordinates,
    heroImage: string)

  /** `lat || null`: zero is falsy and becomes null. */
  function NonZeroOrNull(x: real): (r: Option<real>)
    ensures r.None? <==> x == 0.0
    ensures r.Some? ==> r.value == x
  {
    if x == 0.0 then None else Some(x)
  }

  /** The website when it is not blank. */
  function WebsiteOrNull(w: string): (r: Option<string>)
    ensures r.None? <==> IsBlank(w)
    ensures r.Some? ==> r.value == w
  {
    if w != "" && Trim(w) != "" then
      TrimEmptyIffBlank(w);
      Some(w)
    else
      TrimEmptyIffBlank(w);
      None
  }

  /** The `ROASTERIES` mapping of one record. */
  function ToRoastery(c: CafeRaw): (r: Roastery)
    ensures r.id == IdGen.IdOf(c.name, c.city)
    ensures r.name == c.name && r.description == c.description && r.vibeTags == c.vibeTags
    ensures r.city.None? <==> c.city == ""
    ensures r.city.Some? ==> r.city.value == c.city
    ensures r.address.None? <==> c.address == ""
    ensures r.address.Some? ==> r.address.value == c.address
    ensures r.openingHours.None? <==> c.openingHours == ""
    ensures r.openingHours.Some? ==> r.openingHours.value == c.openingHours
    ensures r.heroImage.None? <==> c.heroImage == ""
    ensures r.heroImage.Some? ==> r.heroImage.value == c.heroImage
    ensures r.instagramHandle.None? <==> IsBlank(c.instagramHandle) || c.instagramHandle == "@"
    ensures r.instagramHandle.Some? ==> r.instagramHandle.value == StripAt(c.instagramHandle)
    ensures r.website.None? <==> IsBlank(c.website)
    ensures r.website.Some? ==> r.website.value == c.website
    ensures r.latitude.None? <==> c.coordinates.lat == 0.0
    ensures r.latitude.Some? ==> r.latitude.value == c.coordinates.lat
    ensures r.longitude.None? <==> c.coordinates.lng == 0.0
    ensures r.longitude.Some? ==> r.longitude.value == c.coordinates.lng
    ensures r.brewMethods == ParseBrewMethods(c.brewMethods)
    ensures multiset(r.brewMethods) == multiset(CommaList.Parse(c.brewMethods))
    ensures Sorting.SortedBy(r.brewMethods, RankKey)
    ensures r.reviews == Some([])
  {
    Roastery(
      IdGen.IdOf(c.name, c.city),
      c.name,
      NonEmptyOrNull(c.city),
      NonEmptyOrNull(c.address),
      NonEmptyOrNull(c.openingHours),
      c.description,
      ParseBrewMethods(c.brewMethods),
      ParseVibeTags(TagArray(c.vibeTags)),
      OrNull(CleanInstagramHandle(Some(c.instagramHandle))),
      WebsiteOrNull(c.website),
      NonZeroOrNull(c.coordinates.lat),
      NonZeroOrNull(c.coordinates.lng),
      NonEmptyOrNull(c.heroImage),
      Some([]))
  }

  /** `ROASTERIES`: every record mapped, in catalog order. */
  function ToRoasteries(cafes: seq<CafeRaw>): (r: seq<Roastery>)
    ensures |r| == |cafes|
    ensures forall k :: 0 <= k < |cafes| ==> r[k] == ToRoastery(cafes[k])
  {
    seq(|cafes|, k requires 0 <= k < |cafes| => ToRoastery(cafes[k]))
  }

  /** The name and city of Canopy's `CAFES` record (id 20). */
  const CanopyName := "קנופי קפה"
  const CanopyCity := "ירושלים"

  /** Canopy's record, whatever its other fields. */
  predicate IsCanopy(c: CafeRaw) {
    c.name == CanopyName && c.city == CanopyCity
  }

  /** The ID the catalog gives Canopy. */
  function CanopyId(): string {
    IdGen.IdOf(CanopyName, CanopyCity)
  }

  /** Canopy's ID is generated from its Hebrew name and city, so it is not
      `"canopy-jerusalem"`. */
  lemma CanopyIdIsGenerated(c: CafeRaw)
    requires IsCanopy(c)
    ensures ToRoastery(c).id == CanopyId()
    ensures ToRoastery(c).id != "canopy-jerusalem"
  {
    IdGen.NeverCanopyLiteral(CanopyName, CanopyCity);
  }
}
