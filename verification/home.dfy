/** The home screen's derived lists (`src/components/Home.tsx`, and the featured copy in
    `app/index.tsx`): the daily featured temples, the upcoming festivals and the category
    badge counts. */
module Home {
  import opened Options
  import opened Seqs
  import opened StableSort
  import opened Fnv
  import opened Calendar
  import opened Temples

  /** The sort key of a temple on a given day: `hashFor(`${dailySeed}-${id}`)`. */
  function FeaturedKey(dayKey: string): Temple -> int
  {
    (t: Temple) => HashFor(dayKey + "-" + t.id)
  }

  /** `[...temples].sort(by hash difference).slice(0, 4)`. The hashes lie in [0, 2^32), so
      their difference is exact and the comparator orders by key. The web home screen and the
      mobile home screen compute this same function, on their own catalogs. */
  function Featured(dayKey: string, temples: seq<Temple>): (r: seq<Temple>)
  {
    Take(SortBy(temples, FeaturedKey(dayKey)), 4)
  }

  /** The first `n` elements of a sorted permutation of `s`. */
  lemma SortedPrefix<T>(s: seq<T>, key: T -> int, n: nat)
    ensures var r := Take(SortBy(s, key), n);
      && |r| == (if |s| < n then |s| else n)
      && multiset(r) <= multiset(s)
      && SortedBy(r, key)
      && (forall x | x in r :: x in s)
  {
    var sorted := SortBy(s, key);
    SortByIsStableSort(s, key);
    var r := Take(sorted, n);
    assert sorted == r + sorted[|r|..];
    assert multiset(sorted) == multiset(r) + multiset(sorted[|r|..]);
    forall x | x in r ensures x in s {
      assert x in multiset(r);
    }
  }

  /** Four temples (fewer when the catalog is smaller), taken from the catalog without
      repetition beyond its own, in non-decreasing order of the day's hash. */
  lemma FeaturedShape(dayKey: string, temples: seq<Temple>)
    ensures var r := Featured(dayKey, temples);
      && |r| == (if |temples| < 4 then |temples| else 4)
      && multiset(r) <= multiset(temples)
      && SortedBy(r, FeaturedKey(dayKey))
  {
    SortedPrefix(temples, FeaturedKey(dayKey), 4);
  }

  /** No temple left out has a smaller hash than a featured one. */
  lemma FeaturedAreSmallest(dayKey: string, temples: seq<Temple>)
    ensures var r := Featured(dayKey, temples);
      forall x, y | x in temples && x !in r && y in r ::
        FeaturedKey(dayKey)(y) <= FeaturedKey(dayKey)(x)
  {
    var key := FeaturedKey(dayKey);
    var sorted := SortBy(temples, key);
    SortByIsStableSort(temples, key);
    forall x, y | x in temples && x !in Take(sorted, 4) && y in Take(sorted, 4) ensures key(y) <= key(x) {
      assert x in multiset(sorted);
      PrefixSmallest(sorted, key, 4, x, y);
    }
  }

  /** In a sorted sequence, an element past the first `n` has a key no smaller than any of
      the first `n`. */
  lemma PrefixSmallest<T>(sorted: seq<T>, key: T -> int, n: nat, x: T, y: T)
    requires SortedBy(sorted, key) && x in sorted && x !in Take(sorted, n) && y in Take(sorted, n)
    ensures key(y) <= key(x)
  {
    var r := Take(sorted, n);
    var j :| 0 <= j < |sorted| && sorted[j] == x;
    var i :| 0 <= i < |r| && r[i] == y;
    assert sorted[i] == y;
  }

  /** The selection does not depend on which stable sort the engine uses: for a fixed day key
      and catalog order, any stable sort gives the same four temples. */
  lemma FeaturedDetermined(dayKey: string, temples: seq<Temple>, sorted: seq<Temple>)
    requires IsStableSortOf(sorted, temples, FeaturedKey(dayKey))
    ensures Featured(dayKey, temples) == Take(sorted, 4)
  {
    SortByIsStableSort(temples, FeaturedKey(dayKey));
    StableSortUnique(SortBy(temples, FeaturedKey(dayKey)), sorted, FeaturedKey(dayKey));
  }

  /** A festival together with its temple's id and display name (`{...festival, templeId,
      templeName}`). */
  datatype FestivalEntry = FestivalEntry(festival: Festival, templeId: string, templeName: string)

  function EntriesOf(t: Temple, lang: Language): (r: seq<FestivalEntry>)
    ensures |r| == |t.festivals|
    ensures forall i | 0 <= i < |r| :: r[i] == FestivalEntry(t.festivals[i], t.id, t.name.In(lang))
  {
    seq(|t.festivals|, i requires 0 <= i < |t.festivals| => FestivalEntry(t.festivals[i], t.id, t.name.In(lang)))
  }

  /** The festivals of every temple, in catalog order (`temples.flatMap(...)`). */
  function FestivalEntries(temples: seq<Temple>, lang: Language): (r: seq<FestivalEntry>)
    ensures forall e | e in r :: exists i | 0 <= i < |temples| ::
      e.festival in temples[i].festivals && e.templeId == temples[i].id && e.templeName == temples[i].name.In(lang)
    decreases |temples|
  {
    if |temples| == 0 then []
    else
      var init := temples[..|temples| - 1];
      var last := EntriesOf(temples[|temples| - 1], lang);
      var r := FestivalEntries(init, lang) + last;
      assert forall e | e in r :: e in FestivalEntries(init, lang) || e in last;
      assert forall i | 0 <= i < |init| :: init[i] == temples[i];
      r
  }

  /** `new Date(f.date) >= new Date(year, month, date)` of today: the date parses and its day
      is not before today. A date that does not parse is an Invalid Date and compares false. */
  predicate IsUpcoming(e: FestivalEntry, today: Date)
  {
    match ParseIsoDate(e.festival.date)
    case Some(d) => !Before(d, today)
    case None => false
  }

  /** The sort key `new Date(f.date).getTime()`, up to an order-preserving renaming of the
      upcoming dates (every entry sorted has a parseable date). */
  function FestivalDay(e: FestivalEntry): int
  {
    match ParseIsoDate(e.festival.date)
    case Some(d) => DateKey(d)
    case None => 0
  }

  /** The three soonest festivals from today on, soonest first, ties in catalog order. */
  function UpcomingFestivals(temples: seq<Temple>, lang: Language, today: Date): (r: seq<FestivalEntry>)
  {
    Take(SortBy(Filter(FestivalEntries(temples, lang), e => IsUpcoming(e, today)), FestivalDay), 3)
  }

  /** At most three entries, every one a festival of a catalog temple on or after today, in
      non-decreasing calendar order. */
  lemma UpcomingFestivalsShape(temples: seq<Temple>, lang: Language, today: Date)
    ensures var r := UpcomingFestivals(temples, lang, today);
      && |r| <= 3
      && (forall e | e in r :: e in FestivalEntries(temples, lang))
      && (forall e | e in r :: ParseIsoDate(e.festival.date).Some?
            && !Before(ParseIsoDate(e.festival.date).value, today))
      && (forall i, j | 0 <= i < j < |r| ::
            !Before(ParseIsoDate(r[j].festival.date).value, ParseIsoDate(r[i].festival.date).value))
  {
    var all := FestivalEntries(temples, lang);
    var up := Filter(all, e => IsUpcoming(e, today));
    SortedPrefix(up, FestivalDay, 3);
    var r := UpcomingFestivals(temples, lang, today);
    forall i, j | 0 <= i < j < |r|
      ensures !Before(ParseIsoDate(r[j].festival.date).value, ParseIsoDate(r[i].festival.date).value)
    {
      assert r[i] in r && r[j] in r;
      DateKeyOrder(ParseIsoDate(r[j].festival.date).value, ParseIsoDate(r[i].festival.date).value);
    }
  }

  /** The list holds the three soonest upcoming festivals: as many as there are, up to three,
      and no upcoming festival left out falls before a listed one. */
  lemma UpcomingFestivalsComplete(temples: seq<Temple>, lang: Language, today: Date)
    ensures var up := Filter(FestivalEntries(temples, lang), e => IsUpcoming(e, today));
      |UpcomingFestivals(temples, lang, today)| == (if |up| < 3 then |up| else 3)
    ensures var up := Filter(FestivalEntries(temples, lang), e => IsUpcoming(e, today));
      var r := UpcomingFestivals(temples, lang, today);
      forall x, y | x in up && x !in r && y in r ::
        && ParseIsoDate(y.festival.date).Some?
        && !Before(ParseIsoDate(x.festival.date).value, ParseIsoDate(y.festival.date).value)
  {
    var up := Filter(FestivalEntries(temples, lang), e => IsUpcoming(e, today));
    SortedPrefix(up, FestivalDay, 3);
    var sorted := SortBy(up, FestivalDay);
    SortByIsStableSort(up, FestivalDay);
    var r := Take(sorted, 3);
    forall x, y | x in up && x !in r && y in r
      ensures && ParseIsoDate(y.festival.date).Some?
              && !Before(ParseIsoDate(x.festival.date).value, ParseIsoDate(y.festival.date).value)
    {
      assert x in multiset(sorted);
      assert IsUpcoming(y, today);
      PrefixSmallest(sorted, FestivalDay, 3, x, y);
      DateKeyOrder(ParseIsoDate(x.festival.date).value, ParseIsoDate(y.festival.date).value);
    }
  }

  /** `temples.filter(t => t.templeType === category.type).length`. */
  function CategoryCount(temples: seq<Temple>, templeType: string): (n: nat)
    ensures n <= |temples|
  {
    Count(temples, OfType(templeType))
  }

  /** The category badges the home screen shows, in display order; the Cave category is not
      among them. */
  const BadgeTypes: seq<string> := ["Ancient", "Hill", "River", "Modern"]

  /** When every temple has one of the five types, the four badge counts add up to the catalog
      size less the Cave temples, which no badge counts. */
  lemma {:induction false} CategoryCountsSum(temples: seq<Temple>)
    requires forall i | 0 <= i < |temples| :: temples[i].templeType in TempleTypes
    ensures "Cave" !in BadgeTypes
    ensures CategoryCount(temples, BadgeTypes[0]) + CategoryCount(temples, BadgeTypes[1])
      + CategoryCount(temples, BadgeTypes[2]) + CategoryCount(temples, BadgeTypes[3])
      == |temples| - CategoryCount(temples, "Cave")
    decreases |temples|
  {
    if |temples| > 0 {
      var init, last := temples[..|temples| - 1], temples[|temples| - 1];
      assert temples == init + [last];
      CategoryCountsSum(init);
      CountSnoc(init, last, OfType("Ancient"));
      CountSnoc(init, last, OfType("Hill"));
      CountSnoc(init, last, OfType("River"));
      CountSnoc(init, last, OfType("Modern"));
      CountSnoc(init, last, OfType("Cave"));
    }
  }
}
