/** `usePlaceData`: the unified `Place` list of the current mode. */
module PlaceData {
  import opened Js
  import opened Text
  import opened Types
  import Matcha
  import IdGen

  /** `raw.coordinates`, when present; either coordinate may be null. */
  datatype Coords = Coords(lat: Option<real>, lng: Option<real>)

  /** A raw record as `normalizeMatchaPlace` reads it (its parameter is
      untyped): every field may be missing. */
  datatype RawMatcha = RawMatcha(
    id: Option<string>,
    name: string,
    city: Option<string>,
    address: Option<string>,
    openingHours: Option<string>,
    description: Option<string>,
    vibeTags: Loose,
    instagramHandle: Option<string>,
    website: Option<string>,
    coordinates: Option<Coords>,
    latitude: Option<real>,
    longitude: Option<real>,
    heroImage: Option<string>,
    matchaOrigin: Option<string>,
    milkOptions: Loose)

  /** A missing value in a template literal reads `undefined`. */
  function Interpolate(s: Option<string>): string {
    if s.Some? then s.value else "undefined"
  }

  /** `a ?? b`. */
  function Coalesce(a: Option<real>, b: Option<real>): (r: Option<real>)
    ensures a.Some? ==> r == a
    ensures a.None? ==> r == b
  {
    if a.Some? then a else b
  }

  /** `x || undefined` on a field that is a string or a list: an empty string
      is dropped, a list (even an empty one) is kept. */
  function LooseOrMissing(x: Loose): (r: Loose)
    ensures r.Missing? <==> x.Missing? || x == Str("")
    ensures !r.Missing? ==> r == x
  {
    if x == Str("") then Missing else x
  }

  /** `normalizeMatchaPlace`. */
  function NormalizeMatcha(raw: RawMatcha): (p: Place)
    ensures p.id == if Truthy(raw.id) then raw.id.value else raw.name + "-" + Interpolate(raw.city)
    ensures p.vibeTags == if raw.vibeTags.List? then raw.vibeTags.items else []
    ensures p.instagramHandle.None? <==> raw.instagramHandle.None? || raw.instagramHandle.value in {"", "@"}
    ensures p.instagramHandle.Some? ==> raw.instagramHandle.value in {p.instagramHandle.value, "@" + p.instagramHandle.value}
    ensures p.instagramHandle.Some? ==>
              (raw.instagramHandle.value[0] == '@' <==> |p.instagramHandle.value| == |raw.instagramHandle.value| - 1)
    ensures raw.coordinates.Some? && raw.coordinates.value.lat.Some? ==> p.latitude == raw.coordinates.value.lat
    ensures raw.coordinates.None? || raw.coordinates.value.lat.None? ==> p.latitude == raw.latitude
    ensures raw.coordinates.Some? && raw.coordinates.value.lng.Some? ==> p.longitude == raw.coordinates.value.lng
    ensures raw.coordinates.None? || raw.coordinates.value.lng.None? ==> p.longitude == raw.longitude
    ensures p.brewMethods.None? && p.reviews == Some([])
    ensures p.milkOptions.List? <==> raw.milkOptions.List?
    ensures p.name == raw.name
    ensures p.city == OrNull(raw.city) && p.address == OrNull(raw.address)
    ensures p.openingHours == OrNull(raw.openingHours) && p.website == OrNull(raw.website)
    ensures p.heroImage == OrNull(raw.heroImage) && p.matchaOrigin == OrNull(raw.matchaOrigin)
    ensures p.description == if Truthy(raw.description) then raw.description.value else ""
    ensures p.milkOptions == LooseOrMissing(raw.milkOptions)
  {
    var handle := if raw.instagramHandle.Some? then NonEmptyOrNull(StripAt(raw.instagramHandle.value)) else None;
    StripAtEmptyIff(raw.instagramHandle.GetOr(""));
    Place(
      if Truthy(raw.id) then raw.id.value else raw.name + "-" + Interpolate(raw.city),
      raw.name,
      OrNull(raw.city),
      OrNull(raw.address),
      OrNull(raw.openingHours),
      if Truthy(raw.description) then raw.description.value else "",
      if raw.vibeTags.List? then raw.vibeTags.items else [],
      handle,
      OrNull(raw.website),
      Coalesce(if raw.coordinates.Some? then raw.coordinates.value.lat else None, raw.latitude),
      Coalesce(if raw.coordinates.Some? then raw.coordinates.value.lng else None, raw.longitude),
      OrNull(raw.heroImage),
      Some([]),
      None,
      OrNull(raw.matchaOrigin),
      LooseOrMissing(raw.milkOptions))
  }

  /** `normalizeCoffeePlace`: every field copied, `reviews` defaulting to `[]`. */
  function NormalizeCoffee(r: Roastery): (p: Place)
    ensures p.id == r.id && p.name == r.name && p.city == r.city && p.address == r.address
    ensures p.openingHours == r.openingHours && p.description == r.description
    ensures p.vibeTags == r.vibeTags && p.instagramHandle == r.instagramHandle && p.website == r.website
    ensures p.latitude == r.latitude && p.longitude == r.longitude && p.heroImage == r.heroImage
    ensures p.brewMethods == Some(r.brewMethods)
    ensures p.reviews == Some(if r.reviews.Some? then r.reviews.value else [])
    ensures p.matchaOrigin.None? && p.milkOptions.Missing?
  {
    Place(r.id, r.name, r.city, r.address, r.openingHours, r.description, r.vibeTags,
      r.instagramHandle, r.website, r.latitude, r.longitude, r.heroImage,
      Some(r.reviews.GetOr([])), Some(r.brewMethods), None, Missing)
  }

  /** A normalised coffee place is a coffee place iff it lists a brew method,
      and never a matcha place. */
  lemma NormalizedCoffeeClassification(r: Roastery)
    ensures IsCoffeePlace(NormalizeCoffee(r)) <==> |r.brewMethods| > 0
    ensures !IsMatchaPlace(NormalizeCoffee(r))
  {
  }

  /** A `MATCHA_PLACES` record as `normalizeMatchaPlace` sees it: no
      `coordinates`, flat `latitude`/`longitude`, and list-valued milk options. */
  function FromCatalog(m: Matcha.MatchaPlace): (raw: RawMatcha)
    ensures raw.milkOptions == List(m.milkOptions)
  {
    RawMatcha(Some(m.id), m.name, Some(m.city), Some(m.address), Some(m.openingHours),
      Some(m.description), List(m.vibeTags), m.instagramHandle, m.website, None,
      Some(m.latitude), Some(m.longitude), m.heroImage, Some(m.matchaOrigin),
      List(m.milkOptions))
  }

  /** Every normalised matcha catalog place keeps its generated ID, its tags
      and its flat coordinates, and is neither a coffee place nor, since its
      milk options are a list, a matcha place. */
  lemma NormalizedCatalogMatcha(m: Matcha.MatchaPlace)
    requires m.id != ""
    ensures var p := NormalizeMatcha(FromCatalog(m));
            && p.id == m.id && p.vibeTags == m.vibeTags
            && p.latitude == Some(m.latitude) && p.longitude == Some(m.longitude)
            && !IsMatchaPlace(p) && !IsCoffeePlace(p)
  {
  }

  /** The generated ID is never empty, so every catalog record keeps it. */
  lemma GeneratedIdsAreTruthy(m: Matcha.MatchaPlace)
    requires m.id == IdGen.IdOf(m.name, m.city)
    ensures NormalizeMatcha(FromCatalog(m)).id == m.id
  {
  }

  /** What `usePlaceData` hands back. */
  datatype PlaceData = PlaceData(places: seq<Place>, loading: bool, error: Option<string>)

  /** A value thrown while building the list: an `Error` with a message, or
      something else. */
  datatype Thrown = ErrorValue(message: string) | OtherValue

  /** `usePlaceData`: the normalised catalog of `mode`. Nothing in the two
      mappings throws; `thrown` stands for a failure in them. */
  function UsePlaceData(mode: AppMode, roasteries: seq<Roastery>, matcha: seq<Matcha.MatchaPlace>,
                        thrown: Option<Thrown>): (d: PlaceData)
    ensures !d.loading
    ensures thrown.Some? <==> d.error.Some?
    ensures thrown.Some? ==> d.places == []
    ensures thrown.Some? && thrown.value.ErrorValue? ==> d.error == Some(thrown.value.message)
    ensures thrown.Some? && thrown.value.OtherValue? ==> d.error == Some("Failed to load data")
    ensures thrown.None? && mode == Coffee ==>
              |d.places| == |roasteries| &&
              forall k :: 0 <= k < |roasteries| ==> d.places[k] == NormalizeCoffee(roasteries[k])
    ensures thrown.None? && mode == Matcha ==>
              |d.places| == |matcha| &&
              forall k :: 0 <= k < |matcha| ==> d.places[k] == NormalizeMatcha(FromCatalog(matcha[k]))
  {
    if thrown.Some? then
      PlaceData([], false, Some(if thrown.value.ErrorValue? then thrown.value.message else "Failed to load data"))
    else if mode == Coffee then
      PlaceData(seq(|roasteries|, k requires 0 <= k < |roasteries| => NormalizeCoffee(roasteries[k])), false, None)
    else
      PlaceData(seq(|matcha|, k requires 0 <= k < |matcha| => NormalizeMatcha(FromCatalog(matcha[k]))), false, None)
  }

  /** In matcha mode no loaded place passes `isMatchaPlace`. */
  lemma NoLoadedMatchaPlaceIsMatcha(matcha: seq<Matcha.MatchaPlace>, roasteries: seq<Roastery>)
    ensures var d := UsePlaceData(Matcha, roasteries, matcha, None);
            forall k :: 0 <= k < |d.places| ==> !IsMatchaPlace(d.places[k])
  {
  }
}
