/** The matcha catalog `MATCHA_PLACES`. Its `generateId` is the shared
    `IdGen.GenerateId`, its `parseList` is `CommaList.Parse` and its
    `cleanInstagramHandle` is `Roasteries.CleanInstagramHandle`: the file
    repeats those definitions word for word. */
module Matcha {
  import opened Js
  import IdGen
  import CommaList
  import Text
  import Roasteries

  /** One matcha place as the catalog declares it. */
  datatype MatchaPlace = MatchaPlace(
    id: string,
    name: string,
    city: string,
    address: string,
    openingHours: string,
    description: string,
    matchaOrigin: string,
    milkOptions: seq<string>,
    vibeTags: seq<string>,
    instagramHandle: Option<string>,
    website: Option<string>,
    latitude: real,
    longitude: real,
    heroImage: Option<string>)

  /** A catalog entry as the file writes it: the ID generated from the same
      name and city as the record's own, the milk options and vibe tags parsed
      from comma lists, and the handle cleaned. */
  function Entry(name: string, city: string, address: string, openingHours: string,
                 description: string, matchaOrigin: string, milk: string, vibes: string,
                 handle: Option<string>, website: Option<string>,
                 latitude: real, longitude: real, heroImage: Option<string>): (p: MatchaPlace)
    ensures p.id == IdGen.IdOf(p.name, p.city)
    ensures p.name == name && p.city == city
    ensures p.milkOptions == CommaList.Parse(milk) && p.vibeTags == CommaList.Parse(vibes)
    ensures forall k :: 0 <= k < |p.milkOptions| ==> p.milkOptions[k] != ""
    ensures forall k :: 0 <= k < |p.vibeTags| ==> p.vibeTags[k] != ""
    ensures p.instagramHandle == Roasteries.CleanInstagramHandle(handle)
    ensures p.instagramHandle.None? <==> handle.None? || Text.IsBlank(handle.value)
    ensures p.address == address && p.openingHours == openingHours && p.description == description
    ensures p.matchaOrigin == matchaOrigin && p.website == website && p.heroImage == heroImage
    ensures p.latitude == latitude && p.longitude == longitude
  {
    MatchaPlace(IdGen.IdOf(name, city), name, city, address, openingHours, description,
      matchaOrigin, CommaList.Parse(milk), CommaList.Parse(vibes),
      Roasteries.CleanInstagramHandle(handle), website, latitude, longitude, heroImage)
  }

  /** The first record of `MATCHA_PLACES`. */
  function FitHouse(): MatchaPlace {
    Entry("פיטהאוס", "תל אביב", "התערוכה 3, נמל תל אביב",
      "א'-ה': 07:00–21:00, ו': 07:00–16:00, שבת: 08:00–21:00",
      "בר בריאות בתוך מתחם כושר. מגישים מאצ'ה של Matchaeologist. המקום המושלם למאצ'ה קרה לפני או אחרי אימון מול הים.",
      "Uji, Kyoto", "Oat, Almond, Soy", "בריאות, ספורטיבי, ים, אנרגטי, נמל",
      Some("@fithouse_tlv"), Some("https://www.fithouse.co.il"),
      32.096320, 34.773530, Some("/images/FitHouse.jpeg"))
  }

  /** The second record, which has no website. */
  function MelaMikveIsrael(): MatchaPlace {
    Entry("מלה (מקווה ישראל)", "תל אביב", "מקווה ישראל 23, תל אביב",
      "א'-ה': 08:00–18:00, ו': 08:00–15:00, שבת: סגור",
      "בית קפה שכונתי חמים. עובדים עם המותג Mix & Matcha ומגישים משקאות מאצ'ה עשירים ומדויקים.",
      "Uji, Kyoto", "Oat, Almond, Cow", "שכונתי, חמים, בייתי, ותיק, טעים",
      Some("@melacafe_tlv"), None,
      32.062590, 34.776120, Some("/images/Mela_Mikve.jpg"))
  }
}
