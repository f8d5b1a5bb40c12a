/** The state `IsraelCoffeeGuide` keeps between renders, and the handlers
    and effects that update it. */
module GuideState {
  import opened Js
  import opened Types
  import Seqs
  import opened Guide

  datatype View = MapView | ShopsView

  /** `reviewsMap` built from the shops when nothing is stored: each shop's
      reviews under its ID, a later shop with the same ID winning. */
  function ReviewsFromShops(shops: seq<CoffeeShop>): (m: map<string, seq<Review>>)
    ensures forall id :: id in m <==> exists i :: 0 <= i < |shops| && shops[i].id == id
    ensures forall id :: id in m ==> LastWith(shops, id, m[id])
  {
    if shops == [] then map[]
    else
      var init := shops[..|shops| - 1];
      var m := ReviewsFromShops(init);
      var last := shops[|shops| - 1];
      assert forall i :: 0 <= i < |init| ==> init[i] == shops[i];
      var r := m[last.id := last.reviews];
      forall id | id in r ensures LastWith(shops, id, r[id]) {
        if id == last.id {
          assert shops[|shops| - 1].id == id;
        } else {
          LastWithExtend(init, shops, id, m[id]);
        }
      }
      r
  }

  /** The last shop of `shops` whose ID is `id` has the reviews `rs`. */
  predicate LastWith(shops: seq<CoffeeShop>, id: string, rs: seq<Review>) {
    exists i :: 0 <= i < |shops| && shops[i].id == id && shops[i].reviews == rs
                && forall j :: i < j < |shops| ==> shops[j].id != id
  }

  lemma LastWithExtend(init: seq<CoffeeShop>, shops: seq<CoffeeShop>, id: string, rs: seq<Review>)
    requires |shops| > 0 && init == shops[..|shops| - 1] && shops[|shops| - 1].id != id
    requires LastWith(init, id, rs)
    ensures LastWith(shops, id, rs)
  {
    var i :| 0 <= i < |init| && init[i].id == id && init[i].reviews == rs
             && forall j :: i < j < |init| ==> init[j].id != id;
    assert shops[i] == init[i];
    forall j | i < j < |shops| ensures shops[j].id != id {
      if j < |init| { assert shops[j] == init[j]; }
    }
  }

  class CoffeeGuide {
    var mode: AppMode
    var favorites: seq<string>
    var selectedBrewMethods: seq<string>
    var searchQuery: string
    var reviewsMap: map<string, seq<Review>>
    var reviewDraft: Draft
    var selectedShop: Option<CoffeeShop>
    var detailOpen: bool
    var fitBoundsEnabled: bool
    var activeView: View
    var userLocation: Option<(real, real)>
    var flyToLocationKey: int

    /** The toggle lists hold each value once and the fly key never goes
        below its initial 0. */
    predicate Valid()
      reads this
    {
      Seqs.NoDups(favorites) && Seqs.NoDups(selectedBrewMethods) && flyToLocationKey >= 0
    }

    /** The state of the first render. */
    constructor (m: AppMode)
      ensures mode == m && favorites == [] && selectedBrewMethods == [] && searchQuery == ""
      ensures reviewsMap == map[] && reviewDraft == EmptyDraft
      ensures selectedShop == None && !detailOpen && fitBoundsEnabled && activeView == MapView
      ensures userLocation == None && flyToLocationKey == 0
      ensures Valid()
    {
      mode := m;
      favorites := [];
      selectedBrewMethods := [];
      searchQuery := "";
      reviewsMap := map[];
      reviewDraft := EmptyDraft;
      selectedShop := None;
      detailOpen := false;
      fitBoundsEnabled := true;
      activeView := MapView;
      userLocation := None;
      flyToLocationKey := 0;
    }

    /** `toggleFavorite`. */
    method ToggleFavorite(shopId: string)
      requires Valid()
      modifies this
      ensures favorites == Toggle(old(favorites), shopId)
      ensures shopId in favorites <==> shopId !in old(favorites)
      ensures selectedBrewMethods == old(selectedBrewMethods) && reviewsMap == old(reviewsMap)
      ensures mode == old(mode) && searchQuery == old(searchQuery) && reviewDraft == old(reviewDraft)
      ensures selectedShop == old(selectedShop) && detailOpen == old(detailOpen)
      ensures fitBoundsEnabled == old(fitBoundsEnabled) && activeView == old(activeView)
      ensures userLocation == old(userLocation) && flyToLocationKey == old(flyToLocationKey)
      ensures Valid()
    {
      ToggleKeepsNoDups(favorites, shopId);
      favorites := Toggle(favorites, shopId);
    }

    /** `toggleBrewMethod`. */
    method ToggleBrewMethod(m: string)
      requires Valid()
      modifies this
      ensures selectedBrewMethods == Toggle(old(selectedBrewMethods), m)
      ensures m in selectedBrewMethods <==> m !in old(selectedBrewMethods)
      ensures favorites == old(favorites) && reviewsMap == old(reviewsMap)
      ensures mode == old(mode) && searchQuery == old(searchQuery) && reviewDraft == old(reviewDraft)
      ensures selectedShop == old(selectedShop) && detailOpen == old(detailOpen)
      ensures fitBoundsEnabled == old(fitBoundsEnabled) && activeView == old(activeView)
      ensures userLocation == old(userLocation) && flyToLocationKey == old(flyToLocationKey)
      ensures Valid()
    {
      ToggleKeepsNoDups(selectedBrewMethods, m);
      selectedBrewMethods := Toggle(selectedBrewMethods, m);
    }

    method SetSearchQuery(q: string)
      requires Valid()
      modifies this
      ensures searchQuery == q
      ensures favorites == old(favorites) && selectedBrewMethods == old(selectedBrewMethods)
      ensures reviewsMap == old(reviewsMap) && mode == old(mode) && reviewDraft == old(reviewDraft)
      ensures selectedShop == old(selectedShop) && detailOpen == old(detailOpen)
      ensures fitBoundsEnabled == old(fitBoundsEnabled) && activeView == old(activeView)
      ensures userLocation == old(userLocation) && flyToLocationKey == old(flyToLocationKey)
      ensures Valid()
    {
      searchQuery := q;
    }

    method SetDraft(d: Draft)
      requires Valid()
      modifies this
      ensures reviewDraft == d
      ensures favorites == old(favorites) && selectedBrewMethods == old(selectedBrewMethods)
      ensures reviewsMap == old(reviewsMap) && mode == old(mode) && searchQuery == old(searchQuery)
      ensures selectedShop == old(selectedShop) && detailOpen == old(detailOpen)
      ensures fitBoundsEnabled == old(fitBoundsEnabled) && activeView == old(activeView)
      ensures userLocation == old(userLocation) && flyToLocationKey == old(flyToLocationKey)
      ensures Valid()
    {
      reviewDraft := d;
    }

    /** `handleSelectShop`: select the shop with its bubble (not the full
        panel), show the map and stop fitting bounds; selecting a different
        shop clears the review form. */
    method HandleSelectShop(shop: CoffeeShop)
      requires Valid()
      modifies this
      ensures selectedShop == Some(shop) && !detailOpen && activeView == MapView && !fitBoundsEnabled
      ensures reviewDraft == if old(selectedShop) == Some(shop) then old(reviewDraft) else EmptyDraft
      ensures favorites == old(favorites) && selectedBrewMethods == old(selectedBrewMethods)
      ensures reviewsMap == old(reviewsMap) && mode == old(mode) && searchQuery == old(searchQuery)
      ensures userLocation == old(userLocation) && flyToLocationKey == old(flyToLocationKey)
      ensures Valid()
    {
      if selectedShop != Some(shop) {
        reviewDraft := EmptyDraft;
      }
      selectedShop := Some(shop);
      detailOpen := false;
      activeView := MapView;
      fitBoundsEnabled := false;
    }

    /** `handleOpenDetailPanel`. */
    method OpenDetailPanel()
      requires Valid()
      modifies this
      ensures detailOpen
      ensures selectedShop == old(selectedShop) && reviewDraft == old(reviewDraft)
      ensures favorites == old(favorites) && selectedBrewMethods == old(selectedBrewMethods)
      ensures reviewsMap == old(reviewsMap) && mode == old(mode) && searchQuery == old(searchQuery)
      ensures fitBoundsEnabled == old(fitBoundsEnabled) && activeView == old(activeView)
      ensures userLocation == old(userLocation) && flyToLocationKey == old(flyToLocationKey)
      ensures Valid()
    {
      detailOpen := true;
    }

    /** `handleReviewSubmit`: `now` is `Date.now()` and `isoDate` the ISO
        form of the current time. A rejected submission changes nothing. */
    method HandleReviewSubmit(now: nat, isoDate: string)
      requires Valid()
      modifies this
      ensures reviewsMap == SubmitReview(old(reviewsMap), old(selectedShop), old(reviewDraft), now, isoDate)
      ensures reviewDraft == if CanSubmit(old(selectedShop), old(reviewDraft)) then EmptyDraft else old(reviewDraft)
      ensures selectedShop == old(selectedShop) && detailOpen == old(detailOpen)
      ensures favorites == old(favorites) && selectedBrewMethods == old(selectedBrewMethods)
      ensures mode == old(mode) && searchQuery == old(searchQuery)
      ensures fitBoundsEnabled == old(fitBoundsEnabled) && activeView == old(activeView)
      ensures userLocation == old(userLocation) && flyToLocationKey == old(flyToLocationKey)
      ensures Valid()
    {
      var next := SubmitReview(reviewsMap, selectedShop, reviewDraft, now, isoDate);
      if CanSubmit(selectedShop, reviewDraft) {
        reviewsMap := next;
        reviewDraft := EmptyDraft;
      } else {
        assert next == reviewsMap;
      }
    }

    /** The reviews effect: the stored map when there is one, otherwise the
        shops' own reviews. */
    method LoadReviews(saved: Option<map<string, seq<Review>>>, shops: seq<CoffeeShop>)
      requires Valid()
      modifies this
      ensures reviewsMap == if saved.Some? then saved.value else ReviewsFromShops(shops)
      ensures selectedShop == old(selectedShop) && reviewDraft == old(reviewDraft)
      ensures favorites == old(favorites) && selectedBrewMethods == old(selectedBrewMethods)
      ensures mode == old(mode) && searchQuery == old(searchQuery) && detailOpen == old(detailOpen)
      ensures fitBoundsEnabled == old(fitBoundsEnabled) && activeView == old(activeView)
      ensures userLocation == old(userLocation) && flyToLocationKey == old(flyToLocationKey)
      ensures Valid()
    {
      if saved.Some? {
        reviewsMap := saved.value;
      } else {
        reviewsMap := ReviewsFromShops(shops);
      }
    }

    /** The favourites effect: the list stored under the mode's key, or `[]`
        when nothing is stored. The stored list is only ever written from
        `favorites` itself, so it holds each ID once. */
    method LoadFavorites(saved: Option<seq<string>>)
      requires Valid()
      requires saved.Some? ==> Seqs.NoDups(saved.value)
      modifies this
      ensures favorites == if saved.Some? then saved.value else []
      ensures selectedShop == old(selectedShop) && reviewDraft == old(reviewDraft)
      ensures reviewsMap == old(reviewsMap) && selectedBrewMethods == old(selectedBrewMethods)
      ensures mode == old(mode) && searchQuery == old(searchQuery) && detailOpen == old(detailOpen)
      ensures fitBoundsEnabled == old(fitBoundsEnabled) && activeView == old(activeView)
      ensures userLocation == old(userLocation) && flyToLocationKey == old(flyToLocationKey)
      ensures Valid()
    {
      if saved.Some? {
        favorites := saved.value;
      } else {
        favorites := [];
      }
    }

    /** A mode change and the effects keyed on the mode: deselect, close the
        panel and fit bounds again (the review form is cleared when a shop
        was selected), then reload the new mode's favourites and reviews.
        `savedFavorites` and `savedReviews` are what storage holds under the
        new mode's keys, and `shops` is the new mode's list. */
    method ChangeMode(m: AppMode, savedFavorites: Option<seq<string>>,
                      savedReviews: Option<map<string, seq<Review>>>, shops: seq<CoffeeShop>)
      requires Valid()
      requires savedFavorites.Some? ==> Seqs.NoDups(savedFavorites.value)
      modifies this
      ensures mode == m && selectedShop == None && !detailOpen && fitBoundsEnabled
      ensures reviewDraft == if old(selectedShop).Some? then EmptyDraft else old(reviewDraft)
      ensures favorites == if savedFavorites.Some? then savedFavorites.value else []
      ensures reviewsMap == if savedReviews.Some? then savedReviews.value else ReviewsFromShops(shops)
      ensures selectedBrewMethods == old(selectedBrewMethods)
      ensures searchQuery == old(searchQuery) && activeView == old(activeView)
      ensures userLocation == old(userLocation) && flyToLocationKey == old(flyToLocationKey)
      ensures Valid()
    {
      if selectedShop.Some? {
        reviewDraft := EmptyDraft;
      }
      mode := m;
      selectedShop := None;
      detailOpen := false;
      fitBoundsEnabled := true;
      LoadFavorites(savedFavorites);
      LoadReviews(savedReviews, shops);
    }

    /** A successful geolocation: remember the position and bump the fly key. */
    method LocationFound(lat: real, lng: real)
      requires Valid()
      modifies this
      ensures userLocation == Some((lat, lng)) && flyToLocationKey == old(flyToLocationKey) + 1
      ensures selectedShop == old(selectedShop) && reviewDraft == old(reviewDraft)
      ensures favorites == old(favorites) && selectedBrewMethods == old(selectedBrewMethods)
      ensures reviewsMap == old(reviewsMap) && mode == old(mode) && searchQuery == old(searchQuery)
      ensures detailOpen == old(detailOpen) && fitBoundsEnabled == old(fitBoundsEnabled)
      ensures activeView == old(activeView)
      ensures Valid()
    {
      userLocation := Some((lat, lng));
      flyToLocationKey := flyToLocationKey + 1;
    }
  }

  /** `FlyToLocation`'s effect and the key of its last flight, `-1` before
      the first. */
  class FlyToLocation {
    var previousFlyKey: int

    constructor ()
      ensures previousFlyKey == -1
    {
      previousFlyKey := -1;
    }

    /** Flies only to a known location under a key other than the last one,
        and then remembers that key. */
    method Effect(location: Option<(real, real)>, flyKey: int) returns (flew: bool)
      modifies this
      ensures flew <==> location.Some? && flyKey != old(previousFlyKey)
      ensures previousFlyKey == if flew then flyKey else old(previousFlyKey)
    {
      if location.None? || flyKey == previousFlyKey {
        return false;
      }
      previousFlyKey := flyKey;
      return true;
    }
  }

  /** A located user is flown to once per geolocation: the key starts at 0
      and the ref at -1, so the first effect after a success flies, and a
      second effect under the same key does not. */
  method FlyOncePerLocation(lat: real, lng: real) returns (first: bool, second: bool)
    ensures first && !second
  {
    var g := new CoffeeGuide(Coffee);
    var fly := new FlyToLocation();
    var initial := fly.Effect(g.userLocation, g.flyToLocationKey);
    assert !initial;
    g.LocationFound(lat, lng);
    first := fly.Effect(g.userLocation, g.flyToLocationKey);
    second := fly.Effect(g.userLocation, g.flyToLocationKey);
  }

  /** From any reachable state, a geolocation makes a newly mounted
      `FlyToLocation` fly: the fly key never goes below 0, so after the
      bump it differs from the ref's initial -1. */
  method FreshMapFliesAfterLocation(g: CoffeeGuide, lat: real, lng: real) returns (flew: bool)
    requires g.Valid()
    modifies g
    ensures flew && g.flyToLocationKey >= 1
  {
    var fly := new FlyToLocation();
    g.LocationFound(lat, lng);
    flew := fly.Effect(g.userLocation, g.flyToLocationKey);
  }
}
