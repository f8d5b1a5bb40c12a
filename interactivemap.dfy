/** `InteractiveMap`: which places the map plots, the bounds it fits and the
    marker each place gets. */
module InteractiveMap {
  import opened Js
  import opened Text
  import opened Types
  import Seqs
  import Matcha
  import Roasteries
  import IdGen

  /** What the map receives from the mode context: a coffee catalog entry or
      a matcha catalog entry. */
  datatype Venue = RoasteryVenue(roastery: Roastery) | MatchaVenue(place: Matcha.MatchaPlace)

  /** The mode context's `data`: the coffee catalog in coffee mode, the matcha
      catalog in matcha mode. */
  function Venues(mode: AppMode, roasteries: seq<Roastery>, matcha: seq<Matcha.MatchaPlace>): (r: seq<Venue>)
    ensures mode == Coffee ==> |r| == |roasteries| && forall k :: 0 <= k < |r| ==> r[k] == RoasteryVenue(roasteries[k])
    ensures mode == Matcha ==> |r| == |matcha| && forall k :: 0 <= k < |r| ==> r[k] == MatchaVenue(matcha[k])
  {
    if mode == Coffee then seq(|roasteries|, k requires 0 <= k < |roasteries| => RoasteryVenue(roasteries[k]))
    else seq(|matcha|, k requires 0 <= k < |matcha| => MatchaVenue(matcha[k]))
  }

  /** `isRoastery`: the record has a `brewMethods` key, which only coffee
      entries have. */
  predicate IsRoastery(v: Venue) {
    v.RoasteryVenue?
  }

  /** On the map's data the guard holds exactly in coffee mode. */
  lemma IsRoasteryIffCoffee(mode: AppMode, roasteries: seq<Roastery>, matcha: seq<Matcha.MatchaPlace>, k: int)
    requires 0 <= k < |Venues(mode, roasteries, matcha)|
    ensures IsRoastery(Venues(mode, roasteries, matcha)[k]) <==> mode == Coffee
  {
  }

  /** Both coordinates are non-null; a matcha entry's coordinates are plain
      numbers and always are. */
  predicate HasCoords(v: Venue) {
    match v
    case RoasteryVenue(r) => r.latitude.Some? && r.longitude.Some?
    case MatchaVenue(_) => true
  }

  function Lat(v: Venue): real
    requires HasCoords(v)
  {
    match v
    case RoasteryVenue(r) => r.latitude.value
    case MatchaVenue(p) => p.latitude
  }

  function Lng(v: Venue): real
    requires HasCoords(v)
  {
    match v
    case RoasteryVenue(r) => r.longitude.value
    case MatchaVenue(p) => p.longitude
  }

  /** `placesWithCoords`: the places with both coordinates, in input order. */
  function PlacesWithCoords(vs: seq<Venue>): (r: seq<Venue>)
    ensures forall k :: 0 <= k < |r| ==> HasCoords(r[k]) && r[k] in vs
    ensures forall v :: v in r ==> HasCoords(v)
    ensures forall k :: 0 <= k < |vs| && HasCoords(vs[k]) ==> vs[k] in r
    ensures Seqs.IsSubseq(r, vs)
  {
    if vs == [] then []
    else
      var rest := PlacesWithCoords(vs[1..]);
      assert forall k :: 1 <= k < |vs| ==> vs[k] == vs[1..][k - 1];
      if HasCoords(vs[0]) then
        assert ([vs[0]] + rest)[1..] == rest;
        [vs[0]] + rest
      else
        Seqs.SubseqSkip(rest, vs);
        rest
  }

  /** `filter` keeps every copy of a place with coordinates and no copy of
      one without. */
  lemma {:induction false} PlacesWithCoordsCount(vs: seq<Venue>, v: Venue)
    ensures multiset(PlacesWithCoords(vs))[v] == if HasCoords(v) then multiset(vs)[v] else 0
  {
    if vs != [] {
      PlacesWithCoordsCount(vs[1..], v);
      assert vs == [vs[0]] + vs[1..];
    }
  }

  /** In matcha mode every place is plotted. */
  lemma {:induction false} MatchaAllPlotted(matcha: seq<Matcha.MatchaPlace>)
    ensures PlacesWithCoords(Venues(Matcha, [], matcha)) == Venues(Matcha, [], matcha)
  {
    var vs := Venues(Matcha, [], matcha);
    AllWithCoordsKept(vs);
  }

  lemma {:induction false} AllWithCoordsKept(vs: seq<Venue>)
    requires forall k :: 0 <= k < |vs| ==> HasCoords(vs[k])
    ensures PlacesWithCoords(vs) == vs
  {
    if vs != [] {
      AllWithCoordsKept(vs[1..]);
      assert vs == [vs[0]] + vs[1..];
    }
  }

  /** `Math.min(...xs)` over a non-empty list. */
  function MinOf(xs: seq<real>): (r: real)
    requires |xs| > 0
    ensures r in xs
    ensures forall k :: 0 <= k < |xs| ==> r <= xs[k]
  {
    if |xs| == 1 then xs[0]
    else
      var m := MinOf(xs[1..]);
      assert forall k :: 1 <= k < |xs| ==> xs[k] == xs[1..][k - 1];
      if xs[0] <= m then xs[0] else m
  }

  /** `Math.max(...xs)` over a non-empty list. */
  function MaxOf(xs: seq<real>): (r: real)
    requires |xs| > 0
    ensures r in xs
    ensures forall k :: 0 <= k < |xs| ==> xs[k] <= r
  {
    if |xs| == 1 then xs[0]
    else
      var m := MaxOf(xs[1..]);
      assert forall k :: 1 <= k < |xs| ==> xs[k] == xs[1..][k - 1];
      if xs[0] >= m then xs[0] else m
  }

  function Lats(ps: seq<Venue>): (r: seq<real>)
    requires forall k :: 0 <= k < |ps| ==> HasCoords(ps[k])
    ensures |r| == |ps| && forall k :: 0 <= k < |ps| ==> r[k] == Lat(ps[k])
  {
    seq(|ps|, k requires 0 <= k < |ps| => Lat(ps[k]))
  }

  function Lngs(ps: seq<Venue>): (r: seq<real>)
    requires forall k :: 0 <= k < |ps| ==> HasCoords(ps[k])
    ensures |r| == |ps| && forall k :: 0 <= k < |ps| ==> r[k] == Lng(ps[k])
  {
    seq(|ps|, k requires 0 <= k < |ps| => Lng(ps[k]))
  }

  /** A `[[south, west], [north, east]]` box. */
  datatype LatLngBounds = LatLngBounds(south: real, west: real, north: real, east: real)

  /** The box shown when nothing can be plotted. */
  const DefaultBounds := LatLngBounds(31.5, 34.5, 32.5, 35.5)

  predicate Inside(b: LatLngBounds, v: Venue)
    requires HasCoords(v)
  {
    b.south <= Lat(v) <= b.north && b.west <= Lng(v) <= b.east
  }

  /** The smallest box around a non-empty list of plotted places. */
  function Box(ps: seq<Venue>): LatLngBounds
    requires |ps| > 0 && forall k :: 0 <= k < |ps| ==> HasCoords(ps[k])
  {
    LatLngBounds(MinOf(Lats(ps)), MinOf(Lngs(ps)), MaxOf(Lats(ps)), MaxOf(Lngs(ps)))
  }

  /** The box holds every place and each of its sides is touched by one. */
  lemma BoxFacts(ps: seq<Venue>)
    requires |ps| > 0 && forall k :: 0 <= k < |ps| ==> HasCoords(ps[k])
    ensures forall v :: v in ps ==> Inside(Box(ps), v)
    ensures Box(ps).south <= Box(ps).north && Box(ps).west <= Box(ps).east
    ensures exists v :: v in ps && Lat(v) == Box(ps).south
    ensures exists v :: v in ps && Lat(v) == Box(ps).north
    ensures exists v :: v in ps && Lng(v) == Box(ps).west
    ensures exists v :: v in ps && Lng(v) == Box(ps).east
  {
    var b := Box(ps);
    var lats, lngs := Lats(ps), Lngs(ps);
    forall v | v in ps ensures Inside(b, v) {
      var k :| 0 <= k < |ps| && ps[k] == v;
      assert lats[k] == Lat(v) && lngs[k] == Lng(v);
    }
    assert b.south <= lats[0] <= b.north && b.west <= lngs[0] <= b.east;
    var i :| 0 <= i < |ps| && lats[i] == b.south;
    assert ps[i] in ps;
    i :| 0 <= i < |ps| && lats[i] == b.north;
    assert ps[i] in ps;
    i :| 0 <= i < |ps| && lngs[i] == b.west;
    assert ps[i] in ps;
    i :| 0 <= i < |ps| && lngs[i] == b.east;
    assert ps[i] in ps;
  }

  /** `bounds`: the default box when nothing is plotted; otherwise the
      smallest box holding every plotted place, each side touched by one. */
  function Bounds(vs: seq<Venue>): (b: LatLngBounds)
    ensures PlacesWithCoords(vs) == [] ==> b == DefaultBounds
    ensures forall v :: v in PlacesWithCoords(vs) ==> Inside(b, v)
    ensures b.south <= b.north && b.west <= b.east
    ensures PlacesWithCoords(vs) != [] ==>
      && (exists v :: v in PlacesWithCoords(vs) && Lat(v) == b.south)
      && (exists v :: v in PlacesWithCoords(vs) && Lat(v) == b.north)
      && (exists v :: v in PlacesWithCoords(vs) && Lng(v) == b.west)
      && (exists v :: v in PlacesWithCoords(vs) && Lng(v) == b.east)
  {
    var ps := PlacesWithCoords(vs);
    if ps == [] then DefaultBounds
    else
      BoxFacts(ps);
      Box(ps)
  }

  /** `isRoasteryPlace` as written: the ID `"canopy-jerusalem"` or a name
      containing "רוסטרי". */
  predicate IsRoasteryPlaceAsWritten(r: Roastery) {
    r.id == "canopy-jerusalem" || Includes(r.name, "רוסטרי")
  }

  /** A roastery with a generated-looking ID and no "ר" in its name is not
      recognised as written. */
  lemma {:induction false} NoReshNotRecognised(r: Roastery)
    requires r.id != "canopy-jerusalem"
    requires 'ר' !in r.name
    ensures !IsRoasteryPlaceAsWritten(r)
  {
    assert "רוסטרי"[0] == 'ר';
    if Includes(r.name, "רוסטרי") {
      IncludedCharsOccur(r.name, "רוסטרי");
      assert false;
    }
  }

  /** The Canopy catalog entry, the roastery the rule is meant for, is not
      recognised as written: its ID is generated, and its name has no "ר". */
  lemma CanopyNotRecognisedAsWritten(c: Roasteries.CafeRaw)
    requires Roasteries.IsCanopy(c)
    ensures !IsRoasteryPlaceAsWritten(Roasteries.ToRoastery(c))
  {
    Roasteries.CanopyIdIsGenerated(c);
    NameHasNoResh(c);
    NoReshNotRecognised(Roasteries.ToRoastery(c));
  }

  lemma NameHasNoResh(c: Roasteries.CafeRaw)
    requires Roasteries.IsCanopy(c)
    ensures 'ר' !in Roasteries.ToRoastery(c).name
  {
    var name := c.name;
    assert forall k :: 0 <= k < |name| ==> name[k] != 'ר';
  }

  /** `isRoasteryPlace` as intended: Canopy's actual ID, or a name containing
      "רוסטרי". */
  predicate IsRoasteryPlace(r: Roastery) {
    r.id == Roasteries.CanopyId() || Includes(r.name, "רוסטרי")
  }

  /** The intended rule recognises Canopy, and everything the written rule
      recognises from a generated ID. */
  lemma CanopyRecognised(c: Roasteries.CafeRaw, r: Roastery, name: string, city: string)
    requires Roasteries.IsCanopy(c)
    requires r.id == IdGen.IdOf(name, city)
    ensures IsRoasteryPlace(Roasteries.ToRoastery(c))
    ensures IsRoasteryPlaceAsWritten(r) ==> IsRoasteryPlace(r)
  {
    Roasteries.CanopyIdIsGenerated(c);
    IdGen.NeverCanopyLiteral(name, city);
  }

  datatype Marker = RoasteryMarker | CoffeeMarker | MatchaMarker

  /** `getMarkerIcon`: in coffee mode the roastery marker for a roastery
      place and the coffee marker otherwise; in matcha mode the matcha
      marker. */
  function GetMarkerIcon(mode: AppMode, v: Venue): (m: Marker)
    ensures mode == Matcha ==> m == MatchaMarker
    ensures mode == Coffee ==> (m == RoasteryMarker <==> IsRoastery(v) && IsRoasteryPlace(v.roastery))
    ensures mode == Coffee && m != RoasteryMarker ==> m == CoffeeMarker
  {
    if mode == Coffee then
      if IsRoastery(v) && IsRoasteryPlace(v.roastery) then RoasteryMarker else CoffeeMarker
    else MatchaMarker
  }
}
