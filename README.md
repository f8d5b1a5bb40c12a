# Ca-Fe: a verified model of the guide's data and filtering logic

Ca-Fe is a Next.js guide to Israeli specialty coffee and matcha places. This
project models its non-visual core in Dafny:

- **Catalog records.** The `CAFES` records become `ROASTERIES`, the
  `MATCHA_PLACES` records are built, and the two are normalised into the
  unified `Place` shape by `usePlaceData`. The core of this is the ID
  generator:
  - a 32-bit rolling hash over the UTF-16 code units of `${name}-${city}`;
  - a Latin slug of the name and of the city;
  - the base-36 hash.

  The comma-list parser, the brew-method ordering, the Instagram handle
  cleaner and `instagramUrl` belong here too.
- **The mode context.** The persisted `appMode`, its toggle, the value the
  provider hands to the views and the `useMode` guard.
- **The main guide (`IsraelCoffeeGuide`).**
  - The shops it shows and the brew-method normalisation.
  - The search and brew filters, with the distance sort.
  - The favourite and brew-method toggle lists.
  - Review submission, the marker rule and the fly-to key guard.
  - The component state, as a class whose methods are the handlers and
    effects.
- **The second explorer (`RoasteryExplorer`).** Its search and quick
  filters.
- **The interactive map.** Which places it plots, the bounds it fits and the
  marker each place gets.

JavaScript semantics are written out where they matter:

- `ToInt32` of ECMA-262 (section 7.1.6) for `<<` and `&`;
- UTF-16 code units for `charCodeAt`;
- the ECMAScript white-space set for `trim` and `\s`;
- truthiness for `||`, and `??`;
- a stable `sort`, as the language requires.

`generateId` and `cleanInstagramHandle` are written twice in the sources,
once in each catalog file, with identical text. Each is defined once here:
`IdGen.GenerateId`/`IdGen.IdOf` and `Roasteries.CleanInstagramHandle`. So
the two copies agree on every input by construction. `parseList` exists
only in `src/data/matcha.ts`; `src/data/roasteries.ts` inlines the same
`split`/`trim`/`filter(Boolean)` chain in `parseBrewMethods` and
`parseVibeTags`. All three are `CommaList.Parse` here.

Modules, one per file: `Js` (optional values, truthiness), `Text` (string
built-ins), `Seqs` and `Sorting` (sequence helpers, the stable sort),
`IdGen`, `CommaList`, `Types`, `Roasteries`, `Matcha`, `Formatters`,
`PlaceData`, `ModeContext`, `Guide`, `GuideState`, `Explorer` and
`InteractiveMap`.

## Model

| member | source | states |
|---|---|---|
| IdGen.ToInt32 | src/data/roasteries.ts:12 | `hash & hash` is ToInt32: the result is a signed 32-bit integer congruent to its argument modulo 2^32 |
| IdGen.HashStep | src/data/roasteries.ts:11-12 | one step of the loop, `((hash << 5) - hash) + char` followed by `hash & hash`, is ToInt32(31·hash + char) |
| IdGen.Hash | src/data/roasteries.ts:8-13 | the hash after any prefix of code units stays in the signed 32-bit range |
| IdGen.HashIsReducedPoly | src/data/roasteries.ts:7-13 | the hash of a string is the unwrapped polynomial sum of c_k·31^(n-1-k) reduced once by ToInt32: wrapping at every step loses nothing |
| IdGen.HashLoop | src/data/roasteries.ts:8-13 | the `for` loop, starting from 0, returns the hash of the whole code-unit sequence |
| IdGen.ToBase36 | src/data/roasteries.ts:29 | `toString(36)` of a natural number is non-empty, holds only lower-case base-36 digits, and starts with `0` only for 0 |
| IdGen.Base36RoundTrip | src/data/roasteries.ts:29 | reading the base-36 rendering back gives the number |
| IdGen.Base36Length | src/data/roasteries.ts:29 | a number below 36^k has at most k base-36 digits |
| IdGen.HashStrExact | src/data/roasteries.ts:29 | for a 32-bit hash, `substring(0, 6)` never removes a digit: `hashStr` has 1 to 6 base-36 digits and gives back abs(hash) |
| IdGen.KeepSlugSource | src/data/roasteries.ts:18 | `.replace(/[^a-z0-9\s]/g, "")` is an order-preserving subsequence of its input holding only a-z, 0-9 and white space, and keeps every such character exactly as many times as the input has it |
| IdGen.CollapseSpaces | src/data/roasteries.ts:19 | `.replace(/\s+/g, "-")` leaves no white space, is empty iff its input is, and every character other than `-` comes from the input |
| IdGen.CollapsePrefix | src/data/roasteries.ts:19 | a prefix without white space passes through the replacement unchanged |
| IdGen.CollapseRun | src/data/roasteries.ts:19 | a maximal run of white space (one or more characters) becomes exactly one `-` |
| IdGen.CollapseWords | src/data/roasteries.ts:19 | two words separated by any white-space run are joined by a single `-` |
| IdGen.DropBlank | src/data/roasteries.ts:19 | the characters of a white-space run before a non-space are all consumed by the same match |
| IdGen.RemoveParensNoOp | src/data/roasteries.ts:20 | the `[()]` removal comes after the Latin filter has removed every parenthesis, so it never changes the name slug |
| IdGen.CollapsedIsSlug | src/data/roasteries.ts:18-19 | the collapsed slug holds only a-z, 0-9 and `-` |
| IdGen.NamePart | src/data/roasteries.ts:16-21 | `namePart` has 1 to 20 slug characters; it is `"cafe"` when no a-z, 0-9 or white-space character survives, and otherwise exactly the first 20 characters of the collapsed slug of the lowercased name, so a Hebrew name of several words keeps its spaces and gives `-` |
| IdGen.CityPart | src/data/roasteries.ts:22-26 | `cityPart` has 1 to 15 slug characters; it is `"city"` when no a-z, 0-9 or white-space character survives, and otherwise exactly the first 15 characters of the collapsed slug of the lowercased city, so a Hebrew city of several words gives `-` |
| IdGen.IdOf | src/data/roasteries.ts:28-30 | the ID is `namePart`, `-`, the city part, `-` and the hash string: it starts with `namePart-`, has a `-` at two positions, and ends with `-` and 1 to 6 base-36 digits that read back as abs(hash) |
| IdGen.NeverCanopyLiteral | src/data/roasteries.ts:30 | no generated ID equals `"canopy-jerusalem"`, which has a single `-` |
| IdGen.GenerateId | src/data/roasteries.ts:5-31 | the method (the loop and the three parts) returns `namePart-cityPart-hashStr` for the hash of `${name}-${city}`; the copy at src/data/matcha.ts:22-48 is the same code |
| Text.Utf16 | src/data/roasteries.ts:9-10 | `charCodeAt` visits at least one code unit per character, each below 2^16 |
| Text.CodeUnits | src/data/roasteries.ts:10 | a character below U+10000 is one unit equal to its code; any other is a high surrogate followed by a low one that together encode it |
| Text.Utf16RoundTrip | src/data/roasteries.ts:9-10 | decoding the code units again gives back the string, so the hash input determines the string |
| Text.Utf16OfBmp | src/data/roasteries.ts:10 | for Hebrew and Latin text there is exactly one code unit per character, equal to its code |
| Text.Lower | src/data/roasteries.ts:17 | `toLowerCase` (ASCII) keeps the length and lowers each character on its own |
| Text.Trim | src/data/matcha.ts:52 | `trim()` leaves no white space at either end |
| Text.TrimIsInfix | src/data/matcha.ts:52 | the trimmed string is an infix of the input with only white space around it |
| Text.TrimEmptyIffBlank | src/data/roasteries.ts:55 | `handle.trim() === ""` exactly when the handle is all white space |
| Text.TrimOfTrimmed | src/data/matcha.ts:52 | trimming a string without white space at its ends changes nothing |
| Text.Split | src/data/matcha.ts:52 | `split(",")` yields one more piece than there are commas, and no piece holds a comma |
| Text.JoinSplit | src/data/matcha.ts:52 | joining the pieces of `split(sep)` with `sep` gives back the input |
| Text.IncludesIffOccurs | src/components/RoasteryExplorer.tsx:28 | `includes` holds exactly when the needle occurs at some index |
| Text.StripAt | src/data/roasteries.ts:57 | `replace(/^@/, "")` removes one leading `@` and nothing else |
| Text.StripAtEmptyIff | src/hooks/usePlaceData.ts:17 | only `""` and `"@"` strip to the empty string |
| Text.Take | src/data/roasteries.ts:21 | `substring(0, n)` is a prefix of the string of exactly n characters when it is longer, and the whole string otherwise |
| CommaList.Parse | src/data/matcha.ts:51-53 | `parseList` items are non-empty and trimmed, at most one per comma plus one, in input order among the trimmed pieces; each non-empty trimmed piece appears exactly as often as the pieces hold it, so repeated items are kept; a blank input gives `[]` |
| Sorting.SortBy | src/data/roasteries.ts:38-45 | the sort returns a permutation of its input, ordered by the key |
| Sorting.SortIsStable | src/data/roasteries.ts:38-45 | elements with equal keys keep their input order |
| Roasteries.Rank | src/data/roasteries.ts:35 | the key is the position in `order` for a known method and 3 for any other |
| Roasteries.BrewCompare | src/data/roasteries.ts:38-44 | the comparator is negative, zero or positive exactly as the ranks compare (unknown methods rank after the three known ones), so the sort is the stable sort by rank |
| Roasteries.ParseBrewMethods | src/data/roasteries.ts:34-46 | `parseBrewMethods` is a permutation of the parsed comma list, ordered by rank, with non-empty trimmed items |
| Roasteries.KnownMethodsFirst | src/data/roasteries.ts:37-44 | a known method is preceded only by known methods of no greater rank, so unknown labels come after every known one |
| Roasteries.UnknownMethodsInInputOrder | src/data/roasteries.ts:37-44 | the unknown labels keep their input order |
| Roasteries.KnownMethodsCanonical | src/data/roasteries.ts:35-45 | any arrangement of the three known methods comes out as אספרסו, פילטר, קולד ברו |
| Roasteries.ParseVibeTags | src/data/roasteries.ts:48-51 | an array is returned unchanged; a string is split, trimmed and filtered exactly as `parseList` does (`CommaList.Parse`): non-empty trimmed items, none for a blank string |
| Roasteries.CleanInstagramHandle | src/data/roasteries.ts:54-57 | undefined exactly for a missing or blank handle; otherwise the handle with at most one leading `@` removed and nothing trimmed |
| Roasteries.NonZeroOrNull | src/data/roasteries.ts:707-708 | `lat \|\| null` is null exactly for 0 and the coordinate otherwise |
| Roasteries.WebsiteOrNull | src/data/roasteries.ts:705 | the website is null exactly when it is blank |
| Roasteries.ToRoastery | src/data/roasteries.ts:695-710 | the mapping of one record: the generated ID; city, address, opening hours, hero image, website and coordinates null exactly under the record's null rules and otherwise equal to the record's values; the handle is `cleanInstagramHandle` of the raw one; the brew methods are `parseBrewMethods` of the string; `reviews` is empty |
| Roasteries.ToRoasteries | src/data/roasteries.ts:695 | `ROASTERIES` has the length and order of `CAFES`, one mapped record each |
| Roasteries.CanopyIdIsGenerated | src/data/roasteries.ts:343-345 | Canopy's record gets the ID generated from its name and city, which is not `"canopy-jerusalem"` |
| Js.OrNull | src/data/roasteries.ts:704 | `x \|\| null` keeps a truthy string and gives null otherwise |
| Js.NonEmptyOrNull | src/data/roasteries.ts:698 | `cafe.city \|\| null` is null exactly for the empty string |
| Matcha.Entry | src/data/matcha.ts:61-77 | a `MATCHA_PLACES` record's ID is generated from that same record's name and city; milk options and vibe tags are `parseList` of the literal strings; the handle is `cleanInstagramHandle` of the literal; every other field is the literal value |
| Formatters.InstagramUrl | src/lib/formatters.ts:1-2 | null exactly for a missing or empty handle; otherwise the profile prefix followed by the handle with exactly one leading `@` removed when there is one, and nothing removed otherwise |
| Formatters.LoneAtGivesBarePrefix | src/lib/formatters.ts:2 | the handle `"@"` yields the bare prefix, which is not null |
| Formatters.UrlOfCleanedHandle | src/lib/formatters.ts:2 | cleaning a non-blank handle other than `"@"` with at most one leading `@` does not change its link |
| Formatters.CleanedLoneAtHasNoUrl | src/lib/formatters.ts:2 | for `"@"` cleaning first gives `""` and no link, while the raw handle has one |
| Types.NonStringMilkIsNotMatcha | src/types/place.ts:30-32 | a place whose `milkOptions` is a list or absent is never a matcha place |
| Types.PredicatesReadDisjointFields | src/types/place.ts:26-32 | `isCoffeePlace` ignores the matcha fields and `isMatchaPlace` ignores `brewMethods` |
| Types.BothAndNeitherPossible | src/types/place.ts:26-32 | so a place can satisfy both predicates, or neither |
| PlaceData.Coalesce | src/hooks/usePlaceData.ts:19-20 | `a ?? b` is `a` when present (0 included) and `b` otherwise |
| PlaceData.LooseOrMissing | src/hooks/usePlaceData.ts:23 | `milkOptions \|\| undefined` drops only a missing value or `""`; a list is kept |
| PlaceData.NormalizeMatcha | src/hooks/usePlaceData.ts:8-26 | `normalizeMatchaPlace`: the truthy ID or `name-city`; the name as given; city, address, opening hours, website, hero image and matcha origin kept when truthy and otherwise null; the description or `""`; tags kept only when a list; milk options dropped only when missing or `""`; the handle with exactly one leading `@` removed when there is one, null when nothing is left; nested coordinates before flat ones; empty reviews; no brew methods |
| PlaceData.NormalizeCoffee | src/hooks/usePlaceData.ts:28-33 | `normalizeCoffeePlace` copies every field and defaults `reviews` to `[]` |
| PlaceData.NormalizedCoffeeClassification | src/hooks/usePlaceData.ts:28-33 | a normalised coffee place is a coffee place iff it lists a brew method, and is never a matcha place |
| PlaceData.FromCatalog | src/data/matcha.ts:70 | a catalog record reaches the normaliser with list-valued milk options |
| PlaceData.NormalizedCatalogMatcha | src/hooks/usePlaceData.ts:8-26 | a normalised catalog matcha place keeps its ID, tags and flat coordinates, and is neither a coffee nor a matcha place |
| PlaceData.GeneratedIdsAreTruthy | src/hooks/usePlaceData.ts:10 | a generated ID is never empty, so the normaliser keeps it |
| PlaceData.UsePlaceData | src/hooks/usePlaceData.ts:35-66 | the normalised catalog of the mode, same length and order, never loading; on a throw: no places and the error's message or `"Failed to load data"` |
| PlaceData.NoLoadedMatchaPlaceIsMatcha | src/types/place.ts:30-32 | in matcha mode no loaded place passes `isMatchaPlace` |
| ModeContext.Name | src/contexts/ModeContext.tsx:10 | the two modes have the distinct names `coffee` and `matcha` |
| ModeContext.InitialMode | src/contexts/ModeContext.tsx:28-32 | coffee without a window; otherwise matcha exactly for the saved value `'matcha'`, so a saved mode name is used and anything else gives coffee |
| ModeContext.StoredModeReadsBack | src/contexts/ModeContext.tsx:31-36 | the mode written under `appMode` parses back to the same mode |
| ModeContext.Toggle | src/contexts/ModeContext.tsx:40-42 | `toggleMode` always changes the mode |
| ModeContext.ToggleTwice | src/contexts/ModeContext.tsx:40-42 | toggling twice restores the mode |
| ModeContext.ThemeOf | src/contexts/ModeContext.tsx:47-49 | blue for coffee, emerald for matcha |
| ModeContext.ValueOf | src/contexts/ModeContext.tsx:45-52 | `data` is the coffee catalog exactly in coffee mode and the matcha catalog exactly in matcha mode; `appMode` equals `mode` |
| ModeContext.UseMode | src/contexts/ModeContext.tsx:62-68 | fails with the provider message exactly outside a provider, and otherwise returns the context |
| ModeContext.ModeProvider.Mount | src/contexts/ModeContext.tsx:28-37 | mounting parses the stored mode and the persist effect writes it back |
| ModeContext.ModeProvider.ToggleMode | src/contexts/ModeContext.tsx:35-42 | the toggle updates the mode and stores its name under `appMode` |
| ModeContext.ModeProvider.Reload | src/contexts/ModeContext.tsx:28-36 | a reload of a persisted state restores the same mode |
| Guide.MapPlaceToCoffeeShop | src/components/IsraelCoffeeGuide.tsx:125-148 | `mapPlaceToCoffeeShop`: ID, name, description, brew methods, tags, matcha origin and milk options copied; the defaults for a missing city, coordinate or image; the `\|\| undefined` rules for hours, handle and website; an empty specialty; `reviews` defaulting to `[]` |
| Guide.CoffeeShops | src/components/IsraelCoffeeGuide.tsx:392-396 | the shown shops are, in order, the mappings of exactly the places that have both coordinates |
| Guide.ShopsUseRealCoordinates | src/components/IsraelCoffeeGuide.tsx:392-396 | every shown shop stands at its own place's coordinates, so the Tel Aviv default is never used |
| Guide.Dedupe | src/components/IsraelCoffeeGuide.tsx:189 | the `indexOf` filter keeps each value once, keeps every value, and lists them in the order of their first occurrence |
| Guide.DedupeIsUnique | src/components/IsraelCoffeeGuide.tsx:189 | any list holding exactly the input's values in the order of their first occurrence is the filter's result, so that order pins the result down |
| Guide.FoldedMembership | src/components/IsraelCoffeeGuide.tsx:179-189 | after keeping the five labels and folding the synonyms, the labels are exactly the canonical methods that the list or a synonym offers |
| Guide.SortedDistinctStrict | src/components/IsraelCoffeeGuide.tsx:191-197 | sorting distinct canonical labels by rank orders them strictly |
| Guide.FilterBrewMethods | src/components/IsraelCoffeeGuide.tsx:178-198 | `filterBrewMethods` returns exactly the canonical methods offered directly or through V60 or חליטה קרה, each once, in the order אספרסו, פילטר, קולד ברו |
| Guide.Matching | src/components/IsraelCoffeeGuide.tsx:590-618 | the filter keeps exactly the shops that pass search and brew matching, as an order-preserving subsequence |
| Guide.MatchingCount | src/components/IsraelCoffeeGuide.tsx:590-618 | every copy of a passing shop is kept and no copy of a failing one, so with the subsequence clause the result is exactly the `filter` result |
| Guide.FilteredShops | src/components/IsraelCoffeeGuide.tsx:590-630 | without a location, the matching shops in order; with one, a permutation of them in ascending distance |
| Guide.FilteredShopsMembership | src/components/IsraelCoffeeGuide.tsx:590-630 | with or without a location, a shop is listed iff it is a shop that passes both tests |
| Guide.BrewFilterInactive | src/components/IsraelCoffeeGuide.tsx:597-599 | in matcha mode, or with nothing selected, every shop that passes search is listed |
| Guide.EmptyQueryMatchesAll | src/components/IsraelCoffeeGuide.tsx:591-594 | the empty query matches every shop |
| Guide.Remove | src/components/IsraelCoffeeGuide.tsx:512 | `filter(id => id !== shopId)` removes every occurrence and keeps every other element, with its multiplicity, in order |
| Guide.Toggle | src/components/IsraelCoffeeGuide.tsx:509-515 | a present value is removed everywhere (the result is `Remove`, so the others keep their order) and an absent one appended at the end |
| Guide.ToggleKeepsNoDups | src/components/IsraelCoffeeGuide.tsx:509-515 | toggling keeps a duplicate-free list duplicate-free |
| Guide.RemoveAbsent | src/components/IsraelCoffeeGuide.tsx:512 | removing an absent value changes nothing |
| Guide.ToggleAbsentTwice | src/components/IsraelCoffeeGuide.tsx:509-515 | toggling an absent value twice restores the list |
| Guide.Decimal | src/components/IsraelCoffeeGuide.tsx:644 | `Date.now()` in a template literal is a non-empty run of decimal digits without a leading zero that reads back as the number |
| Guide.NewReview | src/components/IsraelCoffeeGuide.tsx:643-650 | the review has the trimmed author and text, the draft's rating, the ID `shopId-` followed by the decimal time, the fixed source, and as date the first ten characters of the ISO time (the whole string when it is shorter) |
| Guide.SubmitReview | src/components/IsraelCoffeeGuide.tsx:639-655 | no change when no shop is selected or the trimmed name or text is empty; otherwise the new review goes in front of that shop's list and every other list is unchanged |
| Guide.SubmitPrependsOne | src/components/IsraelCoffeeGuide.tsx:652-655 | a submission adds exactly one review, with a non-empty author and text, ahead of the earlier ones in their order |
| Guide.MarkerIconAsWritten | src/components/IsraelCoffeeGuide.tsx:928-929 | the roastery icon exactly in coffee mode for the ID `"canopy-jerusalem"`, the mode's icon otherwise |
| Guide.NoGeneratedIdGetsRoasteryIcon | src/components/IsraelCoffeeGuide.tsx:928 | no shop with a generated ID gets the roastery icon under the rule as written |
| Guide.MarkerIcon | src/components/IsraelCoffeeGuide.tsx:928-929 | the intended rule: the roastery icon exactly in coffee mode for Canopy's generated ID |
| Guide.CanopyGetsRoasteryIcon | src/components/IsraelCoffeeGuide.tsx:928 | Canopy's shop gets the roastery icon under the intended rule and the café icon under the written one |
| GuideState.ReviewsFromShops | src/components/IsraelCoffeeGuide.tsx:452-459 | without a stored map, the reviews map has exactly the shop IDs as keys, and each key maps to the reviews of the last shop with that ID |
| GuideState.CoffeeGuide.constructor | src/components/IsraelCoffeeGuide.tsx:412-470 | the first render: no favourites, no selected methods, empty query, empty reviews map and draft, no selection, bounds fitting on, the map view, no location, fly key 0 |
| GuideState.CoffeeGuide.ToggleFavorite | src/components/IsraelCoffeeGuide.tsx:509-515 | `toggleFavorite` toggles the ID, keeps the favourites duplicate-free and changes nothing else |
| GuideState.CoffeeGuide.ToggleBrewMethod | src/components/IsraelCoffeeGuide.tsx:581-587 | `toggleBrewMethod` toggles the method, keeps the selection duplicate-free and changes nothing else |
| GuideState.CoffeeGuide.SetSearchQuery | src/components/IsraelCoffeeGuide.tsx:738 | the search box sets the query and nothing else |
| GuideState.CoffeeGuide.SetDraft | src/components/IsraelCoffeeGuide.tsx:462-470 | editing the form sets the draft and nothing else |
| GuideState.CoffeeGuide.HandleSelectShop | src/components/IsraelCoffeeGuide.tsx:558-574 | selects the shop with its bubble and not the panel, shows the map and stops bounds fitting; the draft is cleared when the selection changes |
| GuideState.CoffeeGuide.OpenDetailPanel | src/components/IsraelCoffeeGuide.tsx:576-579 | opens the panel and changes nothing else |
| GuideState.CoffeeGuide.HandleReviewSubmit | src/components/IsraelCoffeeGuide.tsx:639-657 | the reviews map becomes the submission's result; the draft is cleared only when the submission is accepted; nothing else changes |
| GuideState.CoffeeGuide.LoadReviews | src/components/IsraelCoffeeGuide.tsx:447-461 | the stored map when there is one, otherwise the map built from the shops |
| GuideState.CoffeeGuide.LoadFavorites | src/components/IsraelCoffeeGuide.tsx:416-421 | the favourites become the list stored under the mode's key, or `[]` when nothing is stored; nothing else changes |
| GuideState.CoffeeGuide.ChangeMode | src/components/IsraelCoffeeGuide.tsx:416-507 | a mode change deselects, closes the panel and turns bounds fitting back on, clearing the draft when a shop was selected; the effects keyed on the mode then load the new mode's stored favourites (or `[]`) and reviews (or the shops' own); search, brew selection, view and location are kept |
| GuideState.CoffeeGuide.LocationFound | src/components/IsraelCoffeeGuide.tsx:526-532 | a position found is stored and the fly key goes up by one |
| GuideState.FlyToLocation.constructor | src/components/IsraelCoffeeGuide.tsx:286 | the last-flown key starts at -1 |
| GuideState.FlyToLocation.Effect | src/components/IsraelCoffeeGuide.tsx:289-298 | flies exactly when there is a location and the key differs from the last one, and then records the key |
| GuideState.FlyOncePerLocation | src/components/IsraelCoffeeGuide.tsx:285-298 | after one geolocation the first effect flies and a second under the same key does not |
| GuideState.FreshMapFliesAfterLocation | src/components/IsraelCoffeeGuide.tsx:285-298 | from any reachable state a geolocation makes a newly mounted `FlyToLocation` fly, because the fly key never goes below 0 and so never equals the ref's initial -1 |
| Explorer.BlankQueryPassesAll | src/components/RoasteryExplorer.tsx:16 | a blank query lets every roastery through |
| Explorer.BySearchMeaning | src/components/RoasteryExplorer.tsx:15-29 | a roastery passes the search exactly when the query is white space only, or the lowercased query occurs in the lowercased join of name, city, the (always empty) neighborhood, description, brew methods and vibe tags |
| Explorer.NameMatchPasses | src/components/RoasteryExplorer.tsx:17-28 | a query found in the lowercased name finds the roastery in the joined haystack |
| Explorer.QueryIsNotTrimmed | src/components/RoasteryExplorer.tsx:17 | the query is not trimmed: `"x\t"` finds nothing whose fields hold no tab |
| Explorer.HebrewMethodsFailQuickFilter | src/components/RoasteryExplorer.tsx:33-36 | when no brew method has a Latin letter, the `filter` and `espresso` quick filters reject the roastery |
| Explorer.CanonicalMethodsFailFilter | src/components/RoasteryExplorer.tsx:33-34 | a roastery with the three canonical Hebrew methods fails the `filter` quick filter |
| Explorer.QuickFilterFixed | src/components/RoasteryExplorer.tsx:31-40 | the intended filter keeps what the written one keeps, and also a roastery that lists the button's own label |
| Explorer.Explore | src/components/RoasteryExplorer.tsx:42 | the list is the order-preserving subsequence of the catalog that passes both tests |
| Explorer.ExploreCount | src/components/RoasteryExplorer.tsx:42 | every copy of a passing roastery is kept and no copy of a failing one |
| Explorer.BlankAllListsEverything | src/components/RoasteryExplorer.tsx:14-42 | with a blank query and `all`, the whole catalog is listed |
| InteractiveMap.Venues | src/components/map/InteractiveMap.tsx:46 | the map's data is the coffee catalog in coffee mode and the matcha catalog in matcha mode |
| InteractiveMap.IsRoasteryIffCoffee | src/components/map/InteractiveMap.tsx:33-35 | on the map's data, the `isRoastery` guard holds exactly in coffee mode |
| InteractiveMap.PlacesWithCoords | src/components/map/InteractiveMap.tsx:49-57 | exactly the places with both coordinates, in their original order |
| InteractiveMap.PlacesWithCoordsCount | src/components/map/InteractiveMap.tsx:49-57 | every copy of a place with coordinates is kept and no copy of one without |
| InteractiveMap.AllWithCoordsKept | src/components/map/InteractiveMap.tsx:49-57 | when every place has coordinates, all are plotted |
| InteractiveMap.MatchaAllPlotted | src/components/map/InteractiveMap.tsx:49-57 | in matcha mode every place is plotted |
| InteractiveMap.MinOf | src/components/map/InteractiveMap.tsx:74 | `Math.min(...xs)` is an element of the list and no greater than any element |
| InteractiveMap.MaxOf | src/components/map/InteractiveMap.tsx:75 | `Math.max(...xs)` is an element of the list and no smaller than any element |
| InteractiveMap.BoxFacts | src/components/map/InteractiveMap.tsx:66-76 | the min/max box holds every place, has south ≤ north and west ≤ east, and each side is touched by a place |
| InteractiveMap.Bounds | src/components/map/InteractiveMap.tsx:60-77 | the default box when nothing is plotted; otherwise the smallest box holding every plotted place |
| InteractiveMap.NoReshNotRecognised | src/components/map/InteractiveMap.tsx:42 | a roastery with a generated ID and no ר in its name is not recognised by the rule as written |
| InteractiveMap.CanopyNotRecognisedAsWritten | src/components/map/InteractiveMap.tsx:38-43 | Canopy's catalog entry is not recognised as a roastery by the rule as written |
| InteractiveMap.CanopyRecognised | src/components/map/InteractiveMap.tsx:38-43 | the intended rule recognises Canopy, and everything the written rule recognises among generated IDs |
| InteractiveMap.GetMarkerIcon | src/components/map/InteractiveMap.tsx:80-89 | the matcha marker in matcha mode; in coffee mode the roastery marker exactly for a roastery place, the coffee marker otherwise |

## Left out

- The Haversine distance and the map-centre average are left out: they are floating-point trigonometry and division. The distance sort takes the distance as a function parameter.
- Leaflet glue is not modelled: `MapController`, `FitBounds`, `MapBoundsUpdater`, tile layers and the marker HTML of `MapIcons`. Only which marker a place gets is modelled.
- The `localStorage` JSON reads and writes for favourites, notes and reviews are not modelled: they are browser I/O. What storage holds under the mode's keys is passed as parameters to `LoadFavorites`, `LoadReviews` and `ChangeMode`. The `appMode` key is modelled as a map field. The per-mode user notes (lines 428-435) are not modelled, because no modelled operation reads them.
- GuideState.CoffeeGuide.LoadFavorites: requires the stored list to hold each ID once. That list is only ever written from the favourites state (line 486), which the toggle keeps duplicate-free; a hand-edited store is not modelled.
- Guide.Matching: its own contract states membership and order; the count of each shop is stated by `Guide.MatchingCount` beside it, which keeps each proof small.
- Explorer.Explore: likewise, the count of each roastery is stated by `Explorer.ExploreCount`.
- InteractiveMap.PlacesWithCoords: likewise, the count of each place is stated by `InteractiveMap.PlacesWithCoordsCount`.
- PlaceData.NormalizeMatcha: `Option` does not tell `null` from `undefined`, so a fallback ID built from a null city reads `name-undefined` where the source gives `name-null`. That branch needs a falsy ID, and no catalog record has one.
- Geolocation and its alerts, resize listeners, `window.open`, `SuggestModal` and all rendering are not modelled. `LocationFound` stands for the success callback.
- Only a few catalog records are modelled: Canopy's name and city, and two matcha records. The literal catalogs are data, not logic.
- `toLowerCase` is modelled for ASCII only. Hebrew, the only other script in the data, is unaffected by it.
- The explorer reads `roastery.neighborhood`, which the `Roastery` type does not have, so that haystack piece is always `""`.
- GuideState.CoffeeGuide.HandleSelectShop: clears the draft when the new selection differs by value. React clears it when the selected object changes identity, which also happens when the same shop is selected again as a fresh object.
- Formatters.UrlOfCleanedHandle: also requires the handle to differ from `"@"` and not to start with `"@@"`. For `"@"` the two links differ, as `Formatters.CleanedLoneAtHasNoUrl` shows. For `"@@x"`, cleaning and the link each strip one `@`.
- InteractiveMap.GetMarkerIcon: decides with the corrected `IsRoasteryPlace`. The rule as written is `IsRoasteryPlaceAsWritten`; see Findings.
- Explorer.Explore: filters with the corrected `ByQuickFilter`. The rule as written is `ByQuickFilterAsWritten`; see Findings.
- Guide.FilteredShops: the distance sort is an insertion sort by the distance key. It is stable, as the language's `sort` is. Floating-point comparison is left out.
- Concrete literal cases are proved by lemmas over all inputs with the relevant property. Evaluating whole literal records is too costly for the solver.

## Findings

| source | as written | input that shows it | evidently intended | confidence | as-written member | corrected member |
|---|---|---|---|---|---|---|
| src/components/IsraelCoffeeGuide.tsx:928 | the roastery icon is given when `shop.id === "canopy-jerusalem"`, but every catalog ID is generated and has at least two `-` | the Canopy record (`קנופי קפה`, `ירושלים`), whose ID is `--city-` followed by its hash | Canopy, the only roastery, gets the roastery icon in coffee mode | not executed | Guide.MarkerIconAsWritten (Guide.NoGeneratedIdGetsRoasteryIcon, Guide.CanopyGetsRoasteryIcon) | Guide.MarkerIcon |
| src/components/map/InteractiveMap.tsx:38-43 | `isRoasteryPlace` tests the same literal ID; Canopy's name has no `רוסטרי` either | the Canopy record | Canopy is recognised as a roastery | not executed | InteractiveMap.IsRoasteryPlaceAsWritten (InteractiveMap.CanopyNotRecognisedAsWritten) | InteractiveMap.IsRoasteryPlace (InteractiveMap.CanopyRecognised) |
| src/components/RoasteryExplorer.tsx:33-36 | the quick filters look for the English words `filter` and `espresso`, but the catalog's brew methods are Hebrew labels | a roastery with methods `אספרסו`, `פילטר`, `קולד ברו` under the `filter` quick filter | the `filter` and `espresso` buttons find roasteries that list the Hebrew label they show | not executed | Explorer.ByQuickFilterAsWritten (Explorer.CanonicalMethodsFailFilter) | Explorer.ByQuickFilter (Explorer.QuickFilterFixed) |
