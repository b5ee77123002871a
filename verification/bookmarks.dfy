/** The saved-temples screen (`src/components/Bookmarks.tsx`). */
module Bookmarks {
  import opened Seqs
  import opened Temples

  /** `temple => bookmarkedTemples.includes(temple.id)`. */
  function IsSaved(bookmarks: seq<string>): Temple -> bool
  {
    (t: Temple) => t.id in bookmarks
  }

  /** `temples.filter(temple => bookmarkedTemples.includes(temple.id))`. */
  function SavedTemples(temples: seq<Temple>, bookmarks: seq<string>): (r: seq<Temple>)
  {
    Filter(temples, IsSaved(bookmarks))
  }

  /** The list holds exactly the catalog temples whose id is bookmarked, in catalog order (not
      in the order they were bookmarked); a bookmarked id with no temple shows nothing. */
  lemma SavedTemplesFacts(temples: seq<Temple>, bookmarks: seq<string>)
    ensures var r := SavedTemples(temples, bookmarks);
      && IsSubsequence(r, temples)
      && (forall t | t in r :: t in temples && t.id in bookmarks)
      && (forall i | 0 <= i < |temples| :: temples[i] in r <==> temples[i].id in bookmarks)
  {
    FilterIsSubsequence(temples, IsSaved(bookmarks));
  }

  /** Only the set of bookmarked ids matters: their order and repetitions do not. */
  lemma SavedDependsOnSetOnly(temples: seq<Temple>, a: seq<string>, b: seq<string>)
    requires forall x :: x in a <==> x in b
    ensures SavedTemples(temples, a) == SavedTemples(temples, b)
  {
    FilterSame(temples, IsSaved(a), IsSaved(b));
  }

  /** The "no saved temples" panel shows exactly when no catalog temple is bookmarked. */
  lemma EmptySavedPanel(temples: seq<Temple>, bookmarks: seq<string>)
    ensures SavedTemples(temples, bookmarks) == []
      <==> forall i | 0 <= i < |temples| :: temples[i].id !in bookmarks
  {
    FilterEmpty(temples, IsSaved(bookmarks));
  }
}
