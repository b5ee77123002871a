/** The conversion of the embedded temple spreadsheet into `Temple` records
    (`convertCSVToTemples` in `scripts/parse-csv-temples.ts`): placeholder rows are skipped,
    the deity is guessed from the temple's name, the free-text temple type is reduced to the
    five catalogue types, and missing coordinates fall back to a district table. */
module CsvImport {
  import opened Options
  import opened Seqs
  import opened JsString
  import opened Decimal
  import opened Temples
  import opened CsvParse

  /** `row[key]`, with a missing column read as "". */
  function Get(row: map<string, string>, key: string): string
  {
    if key in row then row[key] else ""
  }

  /** Some keyword occurs in `text`. */
  predicate MentionsAny(text: string, keywords: seq<string>)
  {
    exists i | 0 <= i < |keywords| :: Contains(text, keywords[i])
  }

  /** One branch of an if-chain: `if (text.includes(k1) || text.includes(k2) …) return result`. */
  datatype Rule<T> = Rule(keywords: seq<string>, result: T)

  /** The first rule any of whose keywords occurs in `text`. */
  function FirstMatching<T>(rules: seq<Rule<T>>, text: string): (k: Option<nat>)
    ensures k.Some? ==> k.value < |rules| && MentionsAny(text, rules[k.value].keywords)
    ensures k.Some? ==> forall j | 0 <= j < k.value :: !MentionsAny(text, rules[j].keywords)
    ensures k.None? <==> forall j | 0 <= j < |rules| :: !MentionsAny(text, rules[j].keywords)
    decreases |rules|
  {
    if |rules| == 0 then None
    else if MentionsAny(text, rules[0].keywords) then Some(0)
    else
      match FirstMatching(rules[1..], text)
      case None => None
      case Some(k) => Some(k + 1)
  }

  /** The result of the first rule that fires, or `default` when none does. */
  function Classify<T>(rules: seq<Rule<T>>, text: string, default: T): (r: T)
  {
    match FirstMatching(rules, text)
    case None => default
    case Some(k) => rules[k].result
  }

  /** The deity guesses in the order the script tries them. */
  const DeityRules: seq<Rule<Bilingual>> := [
    Rule(["narasimha", "anjaneya", "hanuman"],
      Bilingual("Lord Narasimha", "\U{0C28}\U{0C30}\U{0C38}\U{0C3F}\U{0C02}\U{0C39} \U{0C38}\U{0C4D}\U{0C35}\U{0C3E}\U{0C2E}\U{0C3F}")),
    Rule(["venkateswara", "balaji", "tirupati"],
      Bilingual("Lord Venkateswara", "\U{0C35}\U{0C47}\U{0C02}\U{0C15}\U{0C1F}\U{0C47}\U{0C36}\U{0C4D}\U{0C35}\U{0C30} \U{0C38}\U{0C4D}\U{0C35}\U{0C3E}\U{0C2E}\U{0C3F}")),
    Rule(["shiva", "mallikarjuna", "someswara", "lingeswara"],
      Bilingual("Lord Shiva", "\U{0C36}\U{0C3F}\U{0C35}\U{0C41}\U{0C21}\U{0C41}")),
    Rule(["rama", "ramachandraswamy"],
      Bilingual("Lord Rama", "\U{0C36}\U{0C4D}\U{0C30}\U{0C40} \U{0C30}\U{0C3E}\U{0C2E}")),
    Rule(["saraswati", "gnana saraswathi"],
      Bilingual("Goddess Saraswati", "\U{0C38}\U{0C30}\U{0C38}\U{0C4D}\U{0C35}\U{0C24}\U{0C3F} \U{0C26}\U{0C47}\U{0C35}\U{0C3F}")),
    Rule(["durga", "devi", "amma", "bhadrakali", "mahankali"],
      Bilingual("Goddess Devi", "\U{0C26}\U{0C47}\U{0C35}\U{0C3F}")),
    Rule(["ganesha", "vinayaka", "ganapathi"],
      Bilingual("Lord Ganesha", "\U{0C17}\U{0C23}\U{0C47}\U{0C36} \U{0C38}\U{0C4D}\U{0C35}\U{0C3E}\U{0C2E}\U{0C3F}")),
    Rule(["satyanarayana"],
      Bilingual("Lord Satyanarayana", "\U{0C38}\U{0C24}\U{0C4D}\U{0C2F}\U{0C28}\U{0C3E}\U{0C30}\U{0C3E}\U{0C2F}\U{0C23} \U{0C38}\U{0C4D}\U{0C35}\U{0C3E}\U{0C2E}\U{0C3F}")),
    Rule(["surya", "sun temple"],
      Bilingual("Lord Surya", "\U{0C38}\U{0C42}\U{0C30}\U{0C4D}\U{0C2F} \U{0C26}\U{0C47}\U{0C35}\U{0C41}\U{0C21}\U{0C41}")),
    Rule(["vishnu", "narayana"],
      Bilingual("Lord Vishnu", "\U{0C35}\U{0C3F}\U{0C37}\U{0C4D}\U{0C23}\U{0C41}\U{0C35}\U{0C41}"))
  ]

  const DefaultDeity := Bilingual("Divine Deity", "\U{0C26}\U{0C48}\U{0C35}\U{0C02}")

  /** `deduceDeityFromTempleName(name)`: matched case-insensitively. */
  function DeduceDeity(name: string): Bilingual
  {
    Classify(DeityRules, Lower(name), DefaultDeity)
  }

  /** The catalogue types in the order the script tests for them. */
  const TypeRules: seq<Rule<string>> := [
    Rule(["hill", "mountain"], "Hill"),
    Rule(["cave"], "Cave"),
    Rule(["river", "coastal"], "River"),
    Rule(["modern", "theme", "iskcon"], "Modern")
  ]

  /** `normalizeTempleType(type)`. */
  function NormalizeTempleType(kind: string): string
  {
    Classify(TypeRules, Lower(kind), "Ancient")
  }

  /** Every guess is one of the table's deities or the default; the default is given exactly
      when no keyword of any rule occurs in the lower-cased name. */
  lemma DeduceDeityFacts(name: string)
    ensures DeduceDeity(name) == DefaultDeity
      || exists k | 0 <= k < |DeityRules| :: DeduceDeity(name) == DeityRules[k].result
    ensures FirstMatching(DeityRules, Lower(name)).None? ==> DeduceDeity(name) == DefaultDeity
    ensures FirstMatching(DeityRules, Lower(name)).Some? ==> DeduceDeity(name) != DefaultDeity
  {
    var k := FirstMatching(DeityRules, Lower(name));
    if k.Some? {
      assert DeduceDeity(name) == DeityRules[k.value].result;
      DeityResultsNotDefault();
    }
  }

  /** Every rule names a lord or a goddess, never the default "Divine Deity". */
  lemma DeityResultsNotDefault()
    ensures forall k | 0 <= k < |DeityRules| :: DeityRules[k].result != DefaultDeity
  {
    forall k | 0 <= k < |DeityRules| ensures DeityRules[k].result != DefaultDeity {
      var e := DeityRules[k].result.english;
      assert e[0] == 'L' || e[0] == 'G';
    }
  }

  /** Hanuman and Anjaneya temples are filed under Lord Narasimha, whatever else the name
      mentions: that rule is tried first. */
  lemma NarasimhaFirst(name: string)
    requires MentionsAny(Lower(name), ["narasimha", "anjaneya", "hanuman"])
    ensures DeduceDeity(name).english == "Lord Narasimha"
  {
  }

  /** The second Rama keyword never matters: every name containing "ramachandraswamy"
      contains "rama". */
  lemma RamachandraswamyRedundant(text: string)
    requires Contains(text, "ramachandraswamy")
    ensures Contains(text, "rama")
  {
    var i: nat :| i <= |text| && OccursAt(text, "ramachandraswamy", i);
    assert text[i..i + 4] == text[i..i + 16][..4];
    assert OccursAt(text, "rama", i);
  }

  /** A normalized type is always one of the five catalogue types. */
  lemma NormalizeIsCatalogueType(kind: string)
    ensures NormalizeTempleType(kind) in TempleTypes
  {
  }

  /** "Cave" comes out exactly when the text mentions a cave and neither a hill nor a
      mountain; "Ancient" exactly when it mentions none of the keywords. */
  lemma NormalizeTempleTypeCases(kind: string)
    ensures NormalizeTempleType(kind) == "Hill" <==> MentionsAny(Lower(kind), ["hill", "mountain"])
    ensures NormalizeTempleType(kind) == "Cave"
      <==> MentionsAny(Lower(kind), ["cave"]) && !MentionsAny(Lower(kind), ["hill", "mountain"])
    ensures NormalizeTempleType(kind) == "Ancient"
      <==> forall j | 0 <= j < |TypeRules| :: !MentionsAny(Lower(kind), TypeRules[j].keywords)
  {
    var k := FirstMatching(TypeRules, Lower(kind));
    if k.Some? && k.value > 0 {
      assert !MentionsAny(Lower(kind), TypeRules[0].keywords);
    }
    if k.Some? && k.value > 1 {
      assert !MentionsAny(Lower(kind), TypeRules[1].keywords);
    }
  }

  /** A coordinate pair. */
  datatype Point = Point(lat: real, lng: real)

  /** The district centres the script knows. */
  const DistrictCoords: map<string, Point> := map[
    "Hyderabad" := Point(17.3850, 78.4867),
    "Warangal" := Point(18.0037, 79.5645),
    "Karimnagar" := Point(18.4386, 79.1288),
    "Yadadri Bhuvanagiri" := Point(17.6020, 78.8840),
    "Rangareddy" := Point(17.2403, 78.1374),
    "Medchal-Malkajgiri" := Point(17.5589, 78.7456),
    "Nirmal" := Point(19.0969, 78.3428),
    "Mulugu" := Point(18.1912, 79.8000),
    "Rajanna Sircilla" := Point(18.3925, 78.8389),
    "Bhadradri Kothagudem" := Point(17.6698, 80.8931),
    "Nalgonda" := Point(17.0540, 79.2663),
    "Sangareddy" := Point(17.6222, 78.0808),
    "Siddipet" := Point(18.1021, 78.8473),
    "Jayashankar Bhupalpally" := Point(18.6667, 79.9167),
    "Jogulamba Gadwal" := Point(16.2090, 77.7993),
    "Wanaparthy" := Point(16.3667, 78.0667),
    "Medak" := Point(18.0488, 78.2646),
    "Suryapet" := Point(17.1434, 79.6185),
    "Bhongir" := Point(17.5175, 78.8877),
    "Tirupati" := Point(13.6288, 79.4192),
    "Chittoor" := Point(13.2172, 79.1003),
    "Visakhapatnam" := Point(17.6868, 83.2185),
    "Krishna" := Point(16.5062, 80.6480),
    "Vijayawada" := Point(16.5062, 80.6480),
    "Kakinada" := Point(16.9891, 82.2475),
    "East Godavari" := Point(17.2403, 81.7816),
    "West Godavari" := Point(16.8500, 81.2833),
    "Guntur" := Point(16.3067, 80.4365),
    "Nellore" := Point(14.4426, 79.9865),
    "Kurnool" := Point(15.8281, 78.0373),
    "Nandyal" := Point(15.4781, 78.4829),
    "Anantapur" := Point(14.6819, 77.6006),
    "Srikakulam" := Point(18.2949, 83.8974),
    "Vizianagaram" := Point(18.1167, 83.4000),
    "Kadapa" := Point(14.4673, 78.8242),
    "Prakasam" := Point(15.3560, 79.5874),
    "Bapatla" := Point(15.9045, 80.4676),
    "Eluru" := Point(16.7107, 81.0955),
    "Konaseema" := Point(16.8833, 82.0667),
    "Narasaraopet" := Point(16.2350, 80.0500),
    "Amaravati" := Point(16.5419, 80.5109)
  ]

  /** Hyderabad for Telangana, the state's centre for everything else. */
  function StateFallback(state: string): (p: Point)
    ensures state == "TS" ==> p == DistrictCoords["Hyderabad"]
  {
    if state == "TS" then Point(17.3850, 78.4867) else Point(15.9129, 79.7400)
  }

  /** `getDefaultCoordinates(state, district)`: the district's centre when the table lists
      it (matched exactly), otherwise the state fallback. */
  function DefaultCoordinates(state: string, district: string): (p: Point)
    ensures district in DistrictCoords ==> p == DistrictCoords[district]
    ensures district !in DistrictCoords ==> p == StateFallback(state)
  {
    if district in DistrictCoords then DistrictCoords[district] else StateFallback(state)
  }

  /** `parseFloat(text) || fallback`: `None` stands for NaN, and 0 is falsy too. */
  function Coordinate(parsed: Option<real>, fallback: real): (x: real)
    ensures x != 0.0 || fallback == 0.0
    ensures parsed.Some? && parsed.value != 0.0 ==> x == parsed.value
    ensures parsed.None? || parsed.value == 0.0 ==> x == fallback
  {
    match parsed
    case Some(v) => if v != 0.0 then v else fallback
    case None => fallback
  }

  /** Rows without a usable English name are not imported. */
  predicate Skipped(row: map<string, string>)
  {
    var name := Get(row, "name_english");
    || name == ""
    || Contains(name, "Additional Temple")
    || Contains(name, "to fill")
    || Trim(name) == ""
  }

  function KeepRow(): map<string, string> -> bool
  {
    (row: map<string, string>) => !Skipped(row)
  }

  /** `csv_${Date.now()}_${index}`; the clock reading is the parameter `stamp`. */
  function CsvId(stamp: nat, index: nat): string
  {
    "csv_" + NatToString(stamp) + "_" + NatToString(index)
  }

  /** `district.replace(/\//g, ' / ')`. */
  function SpaceSlashes(s: string): (r: string)
    ensures |r| == |s| + 2 * SepCount(s, {'/'})
    ensures |r| == 0 || r[|r| - 1] != '/'
    decreases |s|
  {
    if |s| == 0 then ""
    else SpaceSlashes(s[..|s| - 1]) + (if s[|s| - 1] == '/' then " / " else [s[|s| - 1]])
  }

  /** `r` ends in " / ". */
  predicate EndsWithSpacedSlash(r: string)
  {
    |r| >= 3 && r[|r| - 3] == ' ' && r[|r| - 2] == '/' && r[|r| - 1] == ' '
  }

  /** The inverse rewrite: every " / " read from the end becomes "/" again. */
  function Unspace(r: string): string
    decreases |r|
  {
    if |r| == 0 then ""
    else if EndsWithSpacedSlash(r) then Unspace(r[..|r| - 3]) + "/"
    else Unspace(r[..|r| - 1]) + [r[|r| - 1]]
  }

  lemma UnspaceSlash(a: string)
    ensures Unspace(a + " / ") == Unspace(a) + "/"
  {
    var r := a + " / ";
    assert EndsWithSpacedSlash(r) && r[..|r| - 3] == a;
  }

  lemma UnspacePlain(a: string, c: char)
    requires c != '/' && (|a| == 0 || a[|a| - 1] != '/')
    ensures Unspace(a + [c]) == Unspace(a) + [c]
  {
    var r := a + [c];
    assert r[..|r| - 1] == a && r[|r| - 1] == c;
    if |a| >= 2 {
      assert r[|r| - 2] == a[|a| - 1] != '/';
    }
    assert !EndsWithSpacedSlash(r);
    assert Unspace(r) == Unspace(r[..|r| - 1]) + [r[|r| - 1]];
  }

  /** The padding loses nothing: the original district text can be recovered from the
      displayed one. */
  lemma {:induction false} SpaceSlashesRoundTrip(s: string)
    ensures Unspace(SpaceSlashes(s)) == s
    decreases |s|
  {
    if |s| > 0 {
      var init := s[..|s| - 1];
      var c := s[|s| - 1];
      SpaceSlashesRoundTrip(init);
      RoundTripStep(init, c);
      assert init + [c] == s;
    }
  }

  lemma RoundTripStep(init: string, c: char)
    requires Unspace(SpaceSlashes(init)) == init
    ensures Unspace(SpaceSlashes(init + [c])) == init + [c]
  {
    if c == '/' {
      RoundTripSlash(init);
    } else {
      RoundTripPlain(init, c);
    }
  }

  lemma RoundTripSlash(init: string)
    requires Unspace(SpaceSlashes(init)) == init
    ensures Unspace(SpaceSlashes(init + ['/'])) == init + ['/']
  {
    var s := init + ['/'];
    var p := SpaceSlashes(init);
    assert s[..|s| - 1] == init;
    assert SpaceSlashes(s) == p + " / ";
    UnspaceSlash(p);
  }

  lemma RoundTripPlain(init: string, c: char)
    requires c != '/' && Unspace(SpaceSlashes(init)) == init
    ensures Unspace(SpaceSlashes(init + [c])) == init + [c]
  {
    var s := init + [c];
    var p := SpaceSlashes(init);
    assert s[..|s| - 1] == init;
    assert SpaceSlashes(s) == p + [c];
    UnspacePlain(p, c);
  }

  /** The part of `CsvId` after the last '_' is the row index. */
  lemma CsvIdInjective(stamp: nat, i: nat, j: nat)
    requires CsvId(stamp, i) == CsvId(stamp, j)
    ensures i == j
  {
    var w := CsvId(stamp, i);
    var a := NatToString(i);
    var b := NatToString(j);
    assert a == w[|w| - |a|..] == b;
    DigitsValueOfNatToString(i);
    DigitsValueOfNatToString(j);
  }

  /** `{ english: text || fallback, … }`. */
  function OrElse(text: string, fallback: string): (r: string)
    ensures r != "" || fallback == ""
  {
    if text == "" then fallback else text
  }

  /** The generated English description of an imported temple. */
  function GeneratedDescription(deity: Bilingual, district: string): Bilingual
  {
    Bilingual("Ancient temple dedicated to " + deity.english + " located in " + district + " district.", "")
  }

  /** The generated English history of an imported temple. */
  function GeneratedHistory(district: string): Bilingual
  {
    Bilingual("Historic temple with cultural and religious significance in " + district + " region.", "")
  }

  /** The opening hours every imported temple gets. */
  const CsvTimings := Timings("5:00 AM - 1:00 PM", "4:00 PM - 9:00 PM", ["6:00 AM", "12:00 PM", "7:00 PM"])

  /** One spreadsheet row as a temple; `index` is its position among the data rows and
      `parseFloat` the number reader (`None` for NaN). */
  function ConvertRow(row: map<string, string>, index: nat, stamp: nat, parseFloat: string -> Option<real>): (t: Temple)
    ensures t.id == CsvId(stamp, index)
    ensures t.templeType == NormalizeTempleType(Get(row, "temple_type")) && t.templeType in TempleTypes
    ensures t.features == [t.templeType, "Cultural Heritage", "Traditional Worship"]
    ensures t.deity == DeduceDeity(Get(row, "name_english"))
    ensures t.district == SpaceSlashes(Get(row, "district")) && t.state == Get(row, "state")
    ensures t.location.address.english != ""
    ensures t.isOpen && t.popularity == 3 && Rated(t) && t.festivals == [] && t.images == []
    ensures var n := Get(row, "name_english");
      t.name == Bilingual(if Contains(n, "(") && Contains(n, ")") then Trim(n) else n, Get(row, "name_telugu"))
    ensures var fallback := DefaultCoordinates(Get(row, "state"), Get(row, "district"));
      && t.location.latitude == Coordinate(parseFloat(Get(row, "latitude")), fallback.lat)
      && t.location.longitude == Coordinate(parseFloat(Get(row, "longitude")), fallback.lng)
  {
    var name := Get(row, "name_english");
    var district := Get(row, "district");
    var state := Get(row, "state");
    var deity := DeduceDeity(name);
    var point := DefaultCoordinates(state, district);
    var kind := NormalizeTempleType(Get(row, "temple_type"));
    NormalizeIsCatalogueType(Get(row, "temple_type"));
    var cleanName := if Contains(name, "(") && Contains(name, ")") then Trim(name) else name;
    Temple(
      CsvId(stamp, index),
      Bilingual(cleanName, Get(row, "name_telugu")),
      deity,
      SpaceSlashes(district),
      state,
      Location(
        Coordinate(parseFloat(Get(row, "latitude")), point.lat),
        Coordinate(parseFloat(Get(row, "longitude")), point.lng),
        Bilingual(OrElse(Get(row, "address_english"), district + ", " + StateName(state)), Get(row, "address_telugu"))),
      GeneratedDescription(deity, district),
      GeneratedHistory(district),
      CsvTimings,
      [],
      [],
      NoContact,
      [kind, "Cultural Heritage", "Traditional Worship"],
      true,
      3,
      kind)
  }

  /** `rows.forEach((row, index) => { if (keep(row)) out.push(convert(row, index)) })`. */
  function MapKept<R, T>(rows: seq<R>, keep: R -> bool, convert: (R, nat) -> T): (out: seq<T>)
    decreases |rows|
  {
    if |rows| == 0 then []
    else
      var last := |rows| - 1;
      var prev := MapKept(rows[..last], keep, convert);
      if keep(rows[last]) then prev + [convert(rows[last], last)] else prev
  }

  /** `x` is the conversion of some kept row with that row's index. */
  ghost predicate ConvertedFrom<R, T>(rows: seq<R>, keep: R -> bool, convert: (R, nat) -> T, x: T)
  {
    exists j | 0 <= j < |rows| :: keep(rows[j]) && x == convert(rows[j], j)
  }

  /** One output per kept row, each converted from a kept row with that row's index. */
  lemma MapKeptFrom<R, T>(rows: seq<R>, keep: R -> bool, convert: (R, nat) -> T)
    ensures |MapKept(rows, keep, convert)| == Count(rows, keep)
    ensures forall k | 0 <= k < |MapKept(rows, keep, convert)| :: ConvertedFrom(rows, keep, convert, MapKept(rows, keep, convert)[k])
  {
    MapKeptLength(rows, keep, convert);
    MapKeptSources(rows, keep, convert);
  }

  lemma {:induction false} MapKeptLength<R, T>(rows: seq<R>, keep: R -> bool, convert: (R, nat) -> T)
    ensures |MapKept(rows, keep, convert)| == Count(rows, keep)
    decreases |rows|
  {
    if |rows| > 0 {
      MapKeptLength(rows[..|rows| - 1], keep, convert);
    }
  }

  lemma {:induction false} MapKeptSources<R, T>(rows: seq<R>, keep: R -> bool, convert: (R, nat) -> T)
    ensures forall k | 0 <= k < |MapKept(rows, keep, convert)| :: ConvertedFrom(rows, keep, convert, MapKept(rows, keep, convert)[k])
    decreases |rows|
  {
    if |rows| > 0 {
      var last := |rows| - 1;
      var init := rows[..last];
      MapKeptSources(init, keep, convert);
      var prev := MapKept(init, keep, convert);
      var out := MapKept(rows, keep, convert);
      assert out == prev + (if keep(rows[last]) then [convert(rows[last], last)] else []);
      forall k | 0 <= k < |out| ensures ConvertedFrom(rows, keep, convert, out[k]) {
        if k < |prev| {
          assert ConvertedFrom(init, keep, convert, prev[k]);
          var j :| 0 <= j < |init| && keep(init[j]) && prev[k] == convert(init[j], j);
          assert init[j] == rows[j] && out[k] == prev[k];
        } else {
          assert out[k] == convert(rows[last], last);
        }
      }
    }
  }

  /** Every kept row is converted. */
  lemma {:induction false} MapKeptIncludes<R, T>(rows: seq<R>, keep: R -> bool, convert: (R, nat) -> T, j: nat)
    requires j < |rows| && keep(rows[j])
    ensures convert(rows[j], j) in MapKept(rows, keep, convert)
    decreases |rows|
  {
    var init := rows[..|rows| - 1];
    if j < |rows| - 1 {
      assert init[j] == rows[j];
      MapKeptIncludes(init, keep, convert, j);
    }
  }

  /** When the key of a conversion determines the row index, the outputs' keys are
      distinct. */
  lemma {:induction false} MapKeptDistinct<R, T, K>(rows: seq<R>, keep: R -> bool, convert: (R, nat) -> T, key: T -> K)
    requires forall x, y, i: nat, j: nat | key(convert(x, i)) == key(convert(y, j)) :: i == j
    ensures var out := MapKept(rows, keep, convert);
      forall k, l | 0 <= k < l < |out| :: key(out[k]) != key(out[l])
    decreases |rows|
  {
    if |rows| > 0 {
      var last := |rows| - 1;
      var init := rows[..last];
      MapKeptDistinct(init, keep, convert, key);
      MapKeptFrom(init, keep, convert);
    }
  }

  /** A skipped row's key appears in no output when keys determine row indexes. */
  lemma MapKeptSkips<R, T, K>(rows: seq<R>, keep: R -> bool, convert: (R, nat) -> T, key: T -> K, j: nat)
    requires j < |rows| && !keep(rows[j])
    requires forall x, i: nat | key(convert(x, i)) == key(convert(rows[j], j)) :: i == j
    ensures var out := MapKept(rows, keep, convert);
      forall k | 0 <= k < |out| :: key(out[k]) != key(convert(rows[j], j))
  {
    MapKeptFrom(rows, keep, convert);
  }

  /** The conversion the script applies to each row. */
  function Converter(stamp: nat, parseFloat: string -> Option<real>): (map<string, string>, nat) -> Temple
  {
    (row: map<string, string>, index: nat) => ConvertRow(row, index, stamp, parseFloat)
  }

  function Id(): Temple -> string
  {
    (t: Temple) => t.id
  }

  /** `convertCSVToTemples` over the given records: `forEach` with the row index, skipping
      placeholder rows. */
  function ConvertRows(rows: seq<map<string, string>>, stamp: nat, parseFloat: string -> Option<real>): seq<Temple>
  {
    MapKept(rows, KeepRow(), Converter(stamp, parseFloat))
  }

  /** The converter gives rows of different indices different ids. */
  lemma ConverterInjective(stamp: nat, parseFloat: string -> Option<real>)
    ensures forall x, y, i: nat, j: nat | Id()(Converter(stamp, parseFloat)(x, i)) == Id()(Converter(stamp, parseFloat)(y, j)) :: i == j
  {
    forall x, y, i: nat, j: nat | Id()(Converter(stamp, parseFloat)(x, i)) == Id()(Converter(stamp, parseFloat)(y, j)) ensures i == j {
      assert Id()(Converter(stamp, parseFloat)(x, i)) == CsvId(stamp, i);
      assert Id()(Converter(stamp, parseFloat)(y, j)) == CsvId(stamp, j);
      CsvIdInjective(stamp, i, j);
    }
  }

  /** No two imported temples share an id. */
  lemma ConvertRowsDistinctIds(rows: seq<map<string, string>>, stamp: nat, parseFloat: string -> Option<real>)
    ensures var ts := ConvertRows(rows, stamp, parseFloat);
      forall k, l | 0 <= k < l < |ts| :: ts[k].id != ts[l].id
  {
    var convert := Converter(stamp, parseFloat);
    ConverterInjective(stamp, parseFloat);
    MapKeptDistinct(rows, KeepRow(), convert, Id());
    var ts := ConvertRows(rows, stamp, parseFloat);
    assert ts == MapKept(rows, KeepRow(), convert);
    assert forall k, l | 0 <= k < l < |ts| :: Id()(ts[k]) != Id()(ts[l]);
    assert forall k | 0 <= k < |ts| :: Id()(ts[k]) == ts[k].id;
  }

  /** What every converted row satisfies: a catalogue type, open, the default rating. */
  predicate Shaped(t: Temple)
  {
    t.templeType in TempleTypes && t.isOpen && Rated(t)
  }

  function IsShaped(): Temple -> bool
  {
    (t: Temple) => Shaped(t)
  }

  /** A property every conversion has holds of every output. */
  lemma MapKeptAll<R, T>(rows: seq<R>, keep: R -> bool, convert: (R, nat) -> T, p: T -> bool)
    requires forall x, i: nat :: p(convert(x, i))
    ensures forall k | 0 <= k < |MapKept(rows, keep, convert)| :: p(MapKept(rows, keep, convert)[k])
  {
    MapKeptFrom(rows, keep, convert);
  }

  /** Every imported temple has a catalogue type, is open and carries the default rating. */
  lemma ConvertRowsShape(rows: seq<map<string, string>>, stamp: nat, parseFloat: string -> Option<real>)
    ensures var ts := ConvertRows(rows, stamp, parseFloat);
      forall k | 0 <= k < |ts| :: Shaped(ts[k])
  {
    var convert := Converter(stamp, parseFloat);
    ConverterShaped(stamp, parseFloat);
    MapKeptAll(rows, KeepRow(), convert, IsShaped());
    var ts := ConvertRows(rows, stamp, parseFloat);
    assert ts == MapKept(rows, KeepRow(), convert);
    forall k | 0 <= k < |ts| ensures Shaped(ts[k]) {
      assert IsShaped()(ts[k]);
    }
  }

  lemma ConverterShaped(stamp: nat, parseFloat: string -> Option<real>)
    ensures forall x, i: nat :: IsShaped()(Converter(stamp, parseFloat)(x, i))
  {
    forall x, i: nat ensures IsShaped()(Converter(stamp, parseFloat)(x, i)) {
      var t := ConvertRow(x, i, stamp, parseFloat);
      assert Shaped(t);
    }
  }

  /** `convertCSVToTemples()` on a spreadsheet text. */
  function ConvertCsv(csv: string, stamp: nat, parseFloat: string -> Option<real>): seq<Temple>
  {
    ConvertRows(ParseCsv(csv), stamp, parseFloat)
  }

  /** The import yields one temple per usable data row, every id distinct, every type one of
      the catalogue's five, and every temple open with the default rating. */
  lemma ConvertCsvFacts(csv: string, stamp: nat, parseFloat: string -> Option<real>)
    ensures var ts := ConvertCsv(csv, stamp, parseFloat);
      && |ts| == Count(ParseCsv(csv), KeepRow())
      && |ts| <= |Lines(csv)| - 1
      && (forall k, l | 0 <= k < l < |ts| :: ts[k].id != ts[l].id)
      && (forall k | 0 <= k < |ts| :: Shaped(ts[k]))
  {
    var rows := ParseCsv(csv);
    MapKeptFrom(rows, KeepRow(), Converter(stamp, parseFloat));
    ConvertRowsDistinctIds(rows, stamp, parseFloat);
    ConvertRowsShape(rows, stamp, parseFloat);
  }

  /** A placeholder row contributes nothing: no imported temple carries its id. */
  lemma SkippedRowAbsent(rows: seq<map<string, string>>, stamp: nat, parseFloat: string -> Option<real>, j: nat)
    requires j < |rows| && Skipped(rows[j])
    ensures var ts := ConvertRows(rows, stamp, parseFloat);
      forall k | 0 <= k < |ts| :: ts[k].id != CsvId(stamp, j)
  {
    var convert := Converter(stamp, parseFloat);
    ConverterInjective(stamp, parseFloat);
    MapKeptSkips(rows, KeepRow(), convert, Id(), j);
    var ts := ConvertRows(rows, stamp, parseFloat);
    assert ts == MapKept(rows, KeepRow(), convert);
    var skippedId := Id()(convert(rows[j], j));
    assert skippedId == CsvId(stamp, j);
    forall k | 0 <= k < |ts| ensures ts[k].id != CsvId(stamp, j) {
      assert Id()(ts[k]) != skippedId;
    }
  }

  /** Any other row contributes the temple built from it. */
  lemma KeptRowPresent(rows: seq<map<string, string>>, stamp: nat, parseFloat: string -> Option<real>, j: nat)
    requires j < |rows| && !Skipped(rows[j])
    ensures ConvertRow(rows[j], j, stamp, parseFloat) in ConvertRows(rows, stamp, parseFloat)
  {
    var convert := Converter(stamp, parseFloat);
    MapKeptIncludes(rows, KeepRow(), convert, j);
    assert ConvertRows(rows, stamp, parseFloat) == MapKept(rows, KeepRow(), convert);
  }
}
