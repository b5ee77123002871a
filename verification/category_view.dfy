/** The category screen (`src/components/CategoryView.tsx`): the temples of one type, their
    count, and the screen title. */
module CategoryView {
  import opened Seqs
  import opened Temples
  import Home

  /** `temples.filter(temple => temple.templeType === category)`. */
  function CategoryTemples(temples: seq<Temple>, category: string): (r: seq<Temple>)
  {
    Filter(temples, OfType(category))
  }

  /** The grid holds exactly the temples of the category, in catalog order, and the
      "temples found" count agrees with the home screen's badge for that type. */
  lemma CategoryTemplesFacts(temples: seq<Temple>, category: string)
    ensures var r := CategoryTemples(temples, category);
      && IsSubsequence(r, temples)
      && (forall t | t in r :: t.templeType == category)
      && (forall i | 0 <= i < |temples| :: temples[i] in r <==> temples[i].templeType == category)
      && |r| == Home.CategoryCount(temples, category)
  {
    FilterIsSubsequence(temples, OfType(category));
  }

  /** The empty-category card is shown exactly when no catalog temple has the type. */
  lemma EmptyCategoryCard(temples: seq<Temple>, category: string)
    ensures CategoryTemples(temples, category) == []
      <==> forall i | 0 <= i < |temples| :: temples[i].templeType != category
  {
    FilterEmpty(temples, OfType(category));
  }

  /** The English heading: the four mapped types get their display names; any other category,
      "Cave" included, is shown as its raw type string. */
  function CategoryTitle(category: string): (r: string)
    ensures category !in {"Ancient", "Hill", "River", "Modern"} ==> r == category
    ensures category in {"Ancient", "Hill", "River", "Modern"} ==> r == category + " Temples"
  {
    match category
    case "Ancient" => "Ancient Temples"
    case "Hill" => "Hill Temples"
    case "River" => "River Temples"
    case "Modern" => "Modern Temples"
    case _ => category
  }

  /** Of the five temple types only "Cave" has no display name. */
  lemma CaveTitleIsRaw()
    ensures CategoryTitle("Cave") == "Cave"
    ensures forall ty | ty in TempleTypes && ty != "Cave" :: CategoryTitle(ty) != ty
  {
  }
}
