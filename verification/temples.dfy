/** The temple record shared by every screen and script (`Temple` in `src/data/temples.ts`). */
module Temples {
  import opened Options

  datatype Language = English | Telugu

  /** Text in both display languages; `t.name[language]` is `t.name.In(language)`. */
  datatype Bilingual = Bilingual(english: string, telugu: string)
  {
    function In(lang: Language): string
    {
      match lang
      case English => english
      case Telugu => telugu
    }
  }

  const Blank := Bilingual("", "")

  /** Coordinates are JavaScript numbers; they are only stored and copied here. */
  datatype Location = Location(latitude: real, longitude: real, address: Bilingual)

  datatype Timings = Timings(morning: string, evening: string, pujaTimings: seq<string>)

  /** `date` is the stored "YYYY-MM-DD" text. */
  datatype Festival = Festival(name: Bilingual, date: string, description: Bilingual)

  datatype Contact = Contact(phone: Option<string>, website: Option<string>, email: Option<string>)

  const NoContact := Contact(None, None, None)

  /** `state` and `templeType` are kept as text: rows read from the store are cast to the
      declared unions without any check, so only `WellTyped` temples respect them. */
  datatype Temple = Temple(
    id: string,
    name: Bilingual,
    deity: Bilingual,
    district: string,
    state: string,
    location: Location,
    description: Bilingual,
    history: Bilingual,
    timings: Timings,
    festivals: seq<Festival>,
    images: seq<string>,
    contact: Contact,
    features: seq<string>,
    isOpen: bool,
    popularity: int,
    templeType: string)

  /** The two state codes of `Temple.state`. */
  const StateCodes: seq<string> := ["TS", "AP"]

  /** The five values of `Temple.templeType`. */
  const TempleTypes: seq<string> := ["Ancient", "Modern", "Cave", "Hill", "River"]

  /** `temple => temple.templeType === category`, the test the category badge and the
      category screen share. */
  function OfType(category: string): Temple -> bool
  {
    (t: Temple) => t.templeType == category
  }

  predicate WellTyped(t: Temple)
  {
    t.state in StateCodes && t.templeType in TempleTypes
  }

  /** The documented 1 to 5 rating. */
  predicate Rated(t: Temple)
  {
    1 <= t.popularity <= 5
  }

  /** The full state name the search suggestions and the CSV import show for a state code;
      every code other than "TS" reads as Andhra Pradesh. */
  function StateName(code: string): (r: string)
    ensures r == "Telangana" <==> code == "TS"
    ensures r == "Andhra Pradesh" <==> code != "TS"
  {
    if code == "TS" then "Telangana" else "Andhra Pradesh"
  }
}
