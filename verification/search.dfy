/** Catalog search: the web search screen (`src/components/Search.tsx`) with its suggestions
    and filters, and the simpler mobile search (`app/search.tsx`). Lower-casing is ASCII. */
module Search {
  import opened Options
  import opened Seqs
  import opened JsString
  import opened Temples

  /** `SearchFilters`; "" and `None` mean "any". */
  datatype Filters = Filters(state: string, district: string, deity: string, templeType: string, isOpen: Option<bool>)

  /** `clearFilters()`. */
  const Cleared := Filters("", "", "", "", None)

  /** Choosing a state in the filter sheet clears the district. */
  function SelectState(f: Filters, state: string): (r: Filters)
    ensures r.state == state && r.district == ""
    ensures r.deity == f.deity && r.templeType == f.templeType && r.isOpen == f.isOpen
  {
    f.(state := state, district := "")
  }

  /** The lower-cased query occurs in the lower-cased name, deity, district or state code. */
  predicate MatchesCore(t: Temple, lang: Language, q: string)
  {
    || Contains(Lower(t.name.In(lang)), q)
    || Contains(Lower(t.deity.In(lang)), q)
    || Contains(Lower(t.district), q)
    || Contains(Lower(t.state), q)
  }

  /** The web search also looks in the description. */
  predicate MatchesText(t: Temple, lang: Language, q: string)
  {
    MatchesCore(t, lang, q) || Contains(Lower(t.description.In(lang)), q)
  }

  /** Every filter that is set holds: exact state, district and type, the deity as a
      case-sensitive substring, and the open flag when it is not `null`. */
  predicate PassesFilters(t: Temple, lang: Language, f: Filters)
  {
    && (f.state == "" || t.state == f.state)
    && (f.district == "" || t.district == f.district)
    && (f.deity == "" || Contains(t.deity.In(lang), f.deity))
    && (f.templeType == "" || t.templeType == f.templeType)
    && (f.isOpen.None? || t.isOpen == f.isOpen.value)
  }

  predicate WebKeeps(t: Temple, query: string, lang: Language, f: Filters)
  {
    (query == "" || MatchesText(t, lang, Lower(query))) && PassesFilters(t, lang, f)
  }

  function KeepsWeb(query: string, lang: Language, f: Filters): Temple -> bool
  {
    (t: Temple) => WebKeeps(t, query, lang, f)
  }

  function KeepsText(query: string, lang: Language): Temple -> bool
  {
    (t: Temple) => query == "" || MatchesText(t, lang, Lower(query))
  }

  function KeepsFilters(lang: Language, f: Filters): Temple -> bool
  {
    (t: Temple) => PassesFilters(t, lang, f)
  }

  /** `filteredTemples` of the web search screen. */
  function WebSearch(temples: seq<Temple>, query: string, lang: Language, f: Filters): (r: seq<Temple>)
  {
    Filter(temples, KeepsWeb(query, lang, f))
  }

  /** The result is an order-preserving subsequence of the catalog holding exactly the temples
      that match the text (when there is one) and pass every set filter. */
  lemma WebSearchFacts(temples: seq<Temple>, query: string, lang: Language, f: Filters)
    ensures var r := WebSearch(temples, query, lang, f);
      && IsSubsequence(r, temples)
      && (forall t | t in r :: t in temples && PassesFilters(t, lang, f))
      && (query != "" ==> forall t | t in r :: MatchesText(t, lang, Lower(query)))
      && (forall i | 0 <= i < |temples| ::
            temples[i] in r <==> (query == "" || MatchesText(temples[i], lang, Lower(query)))
                                 && PassesFilters(temples[i], lang, f))
  {
    FilterIsSubsequence(temples, KeepsWeb(query, lang, f));
  }

  /** Text search and filters apply independently: searching is filtering by the text, then
      by the filters. */
  lemma WebSearchConjunctive(temples: seq<Temple>, query: string, lang: Language, f: Filters)
    ensures WebSearch(temples, query, lang, f)
      == Filter(Filter(temples, KeepsText(query, lang)), KeepsFilters(lang, f))
  {
    FilterFilter(temples, KeepsText(query, lang), KeepsFilters(lang, f), KeepsWeb(query, lang, f));
  }

  /** With no query and cleared filters the whole catalog is shown, in order. */
  lemma EmptySearchShowsAll(temples: seq<Temple>, lang: Language)
    ensures WebSearch(temples, "", lang, Cleared) == temples
  {
    FilterAll(temples, KeepsWeb("", lang, Cleared));
  }

  /** The texts one temple contributes to the suggestions, in the order they are added; a
      matching state code contributes the state's full name. */
  function Candidates(t: Temple, lang: Language, q: string): (r: seq<string>)
    ensures forall s | s in r ::
      || (s == t.name.In(lang) && Contains(Lower(t.name.In(lang)), q))
      || (s == t.deity.In(lang) && Contains(Lower(t.deity.In(lang)), q))
      || (s == t.district && Contains(Lower(t.district), q))
      || (s == StateName(t.state) && Contains(Lower(t.state), q))
  {
    (if Contains(Lower(t.name.In(lang)), q) then [t.name.In(lang)] else [])
    + (if Contains(Lower(t.deity.In(lang)), q) then [t.deity.In(lang)] else [])
    + (if Contains(Lower(t.district), q) then [t.district] else [])
    + (if Contains(Lower(t.state), q) then [StateName(t.state)] else [])
  }

  /** Everything `forEach` adds to the set, in insertion order, repetitions included. */
  function AllCandidates(temples: seq<Temple>, lang: Language, q: string): seq<string>
    decreases |temples|
  {
    if |temples| == 0 then []
    else AllCandidates(temples[..|temples| - 1], lang, q) + Candidates(temples[|temples| - 1], lang, q)
  }

  /** `suggestions`: nothing for a query shorter than two characters, otherwise the first five
      distinct candidates in order of first insertion (`Array.from(set).slice(0, 5)`). */
  function Suggestions(temples: seq<Temple>, query: string, lang: Language): (r: seq<string>)
  {
    if |query| < 2 then [] else Take(Dedup(AllCandidates(temples, lang, Lower(query))), 5)
  }

  lemma {:induction false} AllCandidatesFrom(temples: seq<Temple>, lang: Language, q: string)
    ensures forall s | s in AllCandidates(temples, lang, q) ::
      exists i | 0 <= i < |temples| :: s in Candidates(temples[i], lang, q)
    decreases |temples|
  {
    if |temples| > 0 {
      var init := temples[..|temples| - 1];
      AllCandidatesFrom(init, lang, q);
      assert forall i | 0 <= i < |init| :: init[i] == temples[i];
    }
  }

  /** At most five suggestions, none repeated, each the name, deity or district of a catalog
      temple that contains the query, or the full name of a state whose code contains it;
      they come in the order the candidates were first added, and every candidate is
      suggested unless five earlier ones already fill the list. */
  lemma SuggestionsFacts(temples: seq<Temple>, query: string, lang: Language)
    ensures var r := Suggestions(temples, query, lang);
      && |r| <= 5
      && NoDuplicates(r)
      && (|query| < 2 ==> r == [])
      && forall s | s in r :: exists i | 0 <= i < |temples| :: s in Candidates(temples[i], lang, Lower(query))
    ensures var r := Suggestions(temples, query, lang); var all := AllCandidates(temples, lang, Lower(query));
      |query| >= 2 ==>
        && (forall s | s in r :: s in all)
        && (forall i, j | 0 <= i < j < |r| :: FirstIndex(all, r[i]) < FirstIndex(all, r[j]))
        && forall s | s in all && s !in r ::
             |r| == 5 && forall t | t in r :: FirstIndex(all, t) < FirstIndex(all, s)
  {
    if |query| >= 2 {
      var all := AllCandidates(temples, lang, Lower(query));
      DedupFacts(all);
      DedupOrder(all);
      AllCandidatesFrom(temples, lang, Lower(query));
      var d := Dedup(all);
      var r := Take(d, 5);
      assert forall i | 0 <= i < |r| :: r[i] == d[i];
      assert forall s | s in r :: s in d;
      SuggestionsComplete(all, d, r);
    }
  }

  /** A five-element prefix of a list in first-occurrence order leaves out only later
      candidates. */
  lemma SuggestionsComplete(all: seq<string>, d: seq<string>, r: seq<string>)
    requires forall x :: x in d <==> x in all
    requires forall i, j | 0 <= i < j < |d| :: FirstIndex(all, d[i]) < FirstIndex(all, d[j])
    requires r == Take(d, 5)
    ensures forall s | s in all && s !in r :: |r| == 5 && forall t | t in r :: FirstIndex(all, t) < FirstIndex(all, s)
  {
    forall s | s in all && s !in r
      ensures |r| == 5 && forall t | t in r :: FirstIndex(all, t) < FirstIndex(all, s)
    {
      var m :| 0 <= m < |d| && d[m] == s;
      assert m >= |r|;
      forall t | t in r ensures FirstIndex(all, t) < FirstIndex(all, s) {
        var i :| 0 <= i < |r| && r[i] == t;
        assert d[i] == t;
      }
    }
  }

  /** A temple whose state code contains the query puts the state's full name among the
      candidates, never the code itself. */
  lemma StateCodeSuggestsName(temples: seq<Temple>, lang: Language, q: string, i: nat)
    requires i < |temples| && Contains(Lower(temples[i].state), q)
    ensures StateName(temples[i].state) in Dedup(AllCandidates(temples, lang, q))
  {
    CandidatesIncluded(temples, lang, q, i);
    DedupFacts(AllCandidates(temples, lang, q));
  }

  lemma {:induction false} CandidatesIncluded(temples: seq<Temple>, lang: Language, q: string, i: nat)
    requires i < |temples|
    ensures forall s | s in Candidates(temples[i], lang, q) :: s in AllCandidates(temples, lang, q)
    decreases |temples|
  {
    var init := temples[..|temples| - 1];
    if i < |temples| - 1 {
      assert init[i] == temples[i];
      CandidatesIncluded(init, lang, q, i);
    }
  }

  /** `filteredTemples` of the mobile search: the bundled catalog, unfiltered for an empty
      query, otherwise the temples whose name, deity, district or state code contains it. */
  function MobileSearch(temples: seq<Temple>, query: string, lang: Language): (r: seq<Temple>)
    ensures query == "" ==> r == temples
  {
    if query == "" then temples else Filter(temples, t => MatchesCore(t, lang, Lower(query)))
  }

  lemma MobileSearchFacts(temples: seq<Temple>, query: string, lang: Language)
    ensures var r := MobileSearch(temples, query, lang);
      && IsSubsequence(r, temples)
      && (query != "" ==> forall i | 0 <= i < |temples| :: temples[i] in r <==> MatchesCore(temples[i], lang, Lower(query)))
  {
    if query == "" {
      FilterAll(temples, t => true);
      FilterIsSubsequence(temples, t => true);
    } else {
      FilterIsSubsequence(temples, t => MatchesCore(t, lang, Lower(query)));
    }
  }

  /** The mobile search does not look in descriptions: a temple found on the web only through
      its description is not found on mobile. */
  lemma DescriptionOnlyMatch(temples: seq<Temple>, query: string, lang: Language, i: nat)
    requires i < |temples| && query != ""
    requires Contains(Lower(temples[i].description.In(lang)), Lower(query))
    requires !MatchesCore(temples[i], lang, Lower(query))
    ensures temples[i] in WebSearch(temples, query, lang, Cleared)
    ensures temples[i] !in MobileSearch(temples, query, lang)
  {
    MobileSearchFacts(temples, query, lang);
  }
}
