/** The record types shared by the catalogs and the views: `Review`,
    `Roastery` (the coffee catalog's shape) and the unified `Place`. */
module Types {
  import opened Js

  /** The application mode: the coffee guide or the matcha guide. */
  datatype AppMode = Coffee | Matcha

  /** A review; `rating` is meant to be 1..5, which nothing enforces. */
  datatype Review = Review(
    id: string,
    author: string,
    rating: int,
    text: string,
    source: Option<string>,
    date: Option<string>)

  /** One coffee place in the shape the views consume. */
  datatype Roastery = Roastery(
    id: string,
    name: string,
    city: Option<string>,
    address: Option<string>,
    openingHours: Option<string>,
    description: string,
    brewMethods: seq<string>,
    vibeTags: seq<string>,
    instagramHandle: Option<string>,
    website: Option<string>,
    latitude: Option<real>,
    longitude: Option<real>,
    heroImage: Option<string>,
    reviews: Option<seq<Review>>)

  /** The unified record of both modes. `brewMethods` is present for coffee
      places; `matchaOrigin` and `milkOptions` are meant for matcha places.
      `milkOptions` is declared a string but is a list at run time, so it is
      `Loose` here. */
  datatype Place = Place(
    id: string,
    name: string,
    city: Option<string>,
    address: Option<string>,
    openingHours: Option<string>,
    description: string,
    vibeTags: seq<string>,
    instagramHandle: Option<string>,
    website: Option<string>,
    latitude: Option<real>,
    longitude: Option<real>,
    heroImage: Option<string>,
    reviews: Option<seq<Review>>,
    brewMethods: Option<seq<string>>,
    matchaOrigin: Option<string>,
    milkOptions: Loose)

  /** `isCoffeePlace`: `brewMethods` is an array with at least one element. */
  predicate IsCoffeePlace(p: Place) {
    p.brewMethods.Some? && |p.brewMethods.value| > 0
  }

  /** `isMatchaPlace`: `matchaOrigin` and `milkOptions` are both strings. */
  predicate IsMatchaPlace(p: Place) {
    p.matchaOrigin.Some? && p.milkOptions.Str?
  }

  /** A place whose `milkOptions` is a list, or absent, is never a matcha place. */
  lemma NonStringMilkIsNotMatcha(p: Place)
    requires !p.milkOptions.Str?
    ensures !IsMatchaPlace(p)
  {
  }

  /** The two predicates read disjoint fields: changing the matcha fields does
      not change `isCoffeePlace`, changing `brewMethods` does not change
      `isMatchaPlace`. */
  lemma PredicatesReadDisjointFields(p: Place, origin: Option<string>, milk: Loose, brew: Option<seq<string>>)
    ensures IsCoffeePlace(p.(matchaOrigin := origin, milkOptions := milk)) == IsCoffeePlace(p)
    ensures IsMatchaPlace(p.(brewMethods := brew)) == IsMatchaPlace(p)
  {
  }

  /** Hence a place can satisfy both predicates, or neither. */
  lemma BothAndNeitherPossible(p: Place)
    ensures var q := p.(brewMethods := Some(["x"]), matchaOrigin := Some("y"), milkOptions := Str("z"));
            IsCoffeePlace(q) && IsMatchaPlace(q)
    ensures var q := p.(brewMethods := None, matchaOrigin := None);
            !IsCoffeePlace(q) && !IsMatchaPlace(q)
  {
  }
}
