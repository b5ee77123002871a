/** The web app's root state (`src/App.tsx`): screen navigation with a bounded history, the
    language switch, bookmarks, the notification inbox and the update-prompt decision. */
module AppState {
  import opened Options
  import opened Seqs
  import opened Temples
  import opened Versions

  datatype Screen =
    | HomeScreen | SearchScreen | MapScreen | TempleScreen | BookmarksScreen | SettingsScreen
    | SubmitScreen | AuthScreen | AboutScreen | PrivacyScreen | CategoryScreen | AdminScreen

  /** `NavEntry`: a screen with the temple and category it showed. */
  datatype NavEntry = NavEntry(screen: Screen, temple: Option<Temple>, category: Option<string>)

  /** The fields of `AppState` that navigation and bookmarks touch; the signed-in user is
      reduced to an optional id. */
  datatype State = State(
    currentScreen: Screen,
    selectedTemple: Option<Temple>,
    selectedCategory: Option<string>,
    language: Language,
    bookmarks: seq<string>,
    searchQuery: string,
    user: Option<string>,
    navHistory: seq<NavEntry>)

  const MaxHistory := 20

  const Initial := State(HomeScreen, None, None, English, [], "", None, [])

  /** `category || null`: an empty category is dropped. */
  function CategoryOrNull(c: Option<string>): (r: Option<string>)
    ensures r == (if c == Some("") then None else c)
  {
    match c
    case Some(s) => if s == "" then None else c
    case None => None
  }

  /** What every reachable state satisfies: a bounded history and no empty category. */
  predicate Reachable(s: State)
  {
    && |s.navHistory| <= MaxHistory
    && s.selectedCategory != Some("")
    && forall i | 0 <= i < |s.navHistory| :: s.navHistory[i].category != Some("")
  }

  /** `navigateTo(screen, temple, category)`: the current view is pushed onto the history, of
      which only the newest 20 entries are kept. */
  function NavigateTo(s: State, screen: Screen, temple: Option<Temple>, category: Option<string>): (r: State)
    ensures |r.navHistory| <= MaxHistory
    ensures r.currentScreen == screen && r.selectedTemple == temple
    ensures r.selectedCategory == CategoryOrNull(category)
    ensures |r.navHistory| > 0
      && r.navHistory[|r.navHistory| - 1] == NavEntry(s.currentScreen, s.selectedTemple, s.selectedCategory)
    ensures |r.navHistory| == if |s.navHistory| < MaxHistory then |s.navHistory| + 1 else MaxHistory
    ensures var pushed := s.navHistory + [NavEntry(s.currentScreen, s.selectedTemple, s.selectedCategory)];
      r.navHistory == pushed[|pushed| - |r.navHistory|..]
    ensures r.language == s.language && r.bookmarks == s.bookmarks && r.user == s.user
  {
    var entry := NavEntry(s.currentScreen, s.selectedTemple, s.selectedCategory);
    s.(navHistory := TakeLast(s.navHistory + [entry], MaxHistory),
       currentScreen := screen,
       selectedTemple := temple,
       selectedCategory := CategoryOrNull(category))
  }

  /** `goBack()`: the newest entry is restored and popped; with no history the app returns
      home with nothing selected. */
  function GoBack(s: State): (r: State)
    ensures |s.navHistory| == 0 ==>
      r.currentScreen == HomeScreen && r.selectedTemple.None? && r.selectedCategory.None? && r.navHistory == []
    ensures |s.navHistory| > 0 ==>
      var last := s.navHistory[|s.navHistory| - 1];
      && r.currentScreen == last.screen && r.selectedTemple == last.temple
      && r.selectedCategory == CategoryOrNull(last.category)
      && r.navHistory + [last] == s.navHistory
    ensures r.language == s.language && r.bookmarks == s.bookmarks && r.user == s.user
  {
    if |s.navHistory| == 0 then
      s.(currentScreen := HomeScreen, selectedTemple := None, selectedCategory := None, navHistory := [])
    else
      var last := s.navHistory[|s.navHistory| - 1];
      s.(currentScreen := last.screen, selectedTemple := last.temple,
         selectedCategory := CategoryOrNull(last.category),
         navHistory := s.navHistory[..|s.navHistory| - 1])
  }

  lemma InitialReachable()
    ensures Reachable(Initial)
  {
  }

  /** Navigation keeps a state reachable. */
  lemma NavigationPreservesReachable(s: State, screen: Screen, temple: Option<Temple>, category: Option<string>)
    requires Reachable(s)
    ensures Reachable(NavigateTo(s, screen, temple, category))
    ensures Reachable(GoBack(s))
  {
    NavigateKeepsReachable(s, screen, temple, category);
    GoBackKeepsReachable(s);
  }

  lemma NavigateKeepsReachable(s: State, screen: Screen, temple: Option<Temple>, category: Option<string>)
    requires Reachable(s)
    ensures Reachable(NavigateTo(s, screen, temple, category))
  {
    var h := s.navHistory + [NavEntry(s.currentScreen, s.selectedTemple, s.selectedCategory)];
    var r := NavigateTo(s, screen, temple, category).navHistory;
    assert r == h[|h| - |r|..];
    forall i | 0 <= i < |r| ensures r[i].category != Some("") {
      assert r[i] == h[|h| - |r| + i];
    }
  }

  lemma GoBackKeepsReachable(s: State)
    requires Reachable(s)
    ensures Reachable(GoBack(s))
  {
    if |s.navHistory| > 0 {
      var g := GoBack(s).navHistory;
      forall i | 0 <= i < |g| ensures g[i].category != Some("") {
        assert g[i] == s.navHistory[i];
      }
    }
  }

  /** Going back right after navigating restores the screen, temple and category; the history
      itself comes back exactly when it had room, i.e. fewer than 20 entries. */
  lemma NavigateThenBack(s: State, screen: Screen, temple: Option<Temple>, category: Option<string>)
    requires s.selectedCategory != Some("")
    ensures var b := GoBack(NavigateTo(s, screen, temple, category));
      && b.currentScreen == s.currentScreen
      && b.selectedTemple == s.selectedTemple
      && b.selectedCategory == s.selectedCategory
      && (b.navHistory == s.navHistory <==> |s.navHistory| < MaxHistory)
  {
    var n := NavigateTo(s, screen, temple, category);
    var b := GoBack(n);
    var h := s.navHistory + [NavEntry(s.currentScreen, s.selectedTemple, s.selectedCategory)];
    if |s.navHistory| < MaxHistory {
      assert n.navHistory == h;
      assert b.navHistory == s.navHistory;
    } else {
      assert |b.navHistory| == MaxHistory - 1;
    }
  }

  /** `toggleLanguage()`. */
  function ToggleLanguage(s: State): (r: State)
    ensures r.language != s.language
    ensures r.(language := s.language) == s
  {
    s.(language := if s.language == English then Telugu else English)
  }

  /** Switching the language twice changes nothing. */
  lemma ToggleLanguageInvolution(s: State)
    ensures ToggleLanguage(ToggleLanguage(s)) == s
  {
  }

  /** `toggleBookmark(id)`: a saved id is removed (every occurrence), an unsaved one is
      appended. */
  function ToggleBookmark(bookmarks: seq<string>, id: string): (r: seq<string>)
    ensures id in r <==> id !in bookmarks
    ensures forall x | x != id :: x in r <==> x in bookmarks
    ensures id !in bookmarks ==> r == bookmarks + [id]
  {
    if id in bookmarks then Filter(bookmarks, (x: string) => x != id) else bookmarks + [id]
  }

  /** Saving and then unsaving a temple restores the list; unsaving and saving again moves
      the id to the end. */
  lemma ToggleBookmarkTwice(bookmarks: seq<string>, id: string)
    ensures id !in bookmarks ==> ToggleBookmark(ToggleBookmark(bookmarks, id), id) == bookmarks
    ensures id in bookmarks ==>
      ToggleBookmark(ToggleBookmark(bookmarks, id), id) == Filter(bookmarks, (x: string) => x != id) + [id]
  {
    if id !in bookmarks {
      var p := (x: string) => x != id;
      FilterAppend(bookmarks, [id], p);
      FilterAll(bookmarks, p);
      assert Filter([id], p) == [] by { assert [id][..0] == []; }
    }
  }

  /** `handleAuthSuccess(user)`: the user is stored and the home screen shown. */
  function AuthSuccess(s: State, user: string): (r: State)
    ensures r.user == Some(user) && r.currentScreen == HomeScreen
    ensures r.navHistory == s.navHistory && r.bookmarks == s.bookmarks
  {
    s.(user := Some(user), currentScreen := HomeScreen)
  }

  /** One inbox message; `id` comes from `crypto.randomUUID()` and is a parameter here. */
  datatype Message = Message(id: string, title: string, message: string)

  /** The broadcast payload: title and message, either possibly missing. */
  datatype Payload = Payload(title: Option<string>, message: Option<string>)

  /** The message built from a payload: `p.title || 'Message'`, `p.message || ''`. */
  function ToMessage(id: string, p: Payload): (m: Message)
    ensures m.title == (if p.title.None? || p.title == Some("") then "Message" else p.title.value)
    ensures m.message == (if p.message.None? then "" else p.message.value)
  {
    Message(id, Options.OrString(p.title, "Message"), Options.OrString(p.message, ""))
  }

  const MaxInbox := 5

  /** A new broadcast message: appended, keeping only the five newest. */
  function Receive(inbox: seq<Message>, m: Message): (r: seq<Message>)
    ensures |r| <= MaxInbox
    ensures |r| > 0 && r[|r| - 1] == m
  {
    TakeLast(inbox + [m], MaxInbox)
  }

  function ReceiveAll(inbox: seq<Message>, ms: seq<Message>): seq<Message>
    decreases |ms|
  {
    if |ms| == 0 then inbox else Receive(ReceiveAll(inbox, ms[..|ms| - 1]), ms[|ms| - 1])
  }

  /** However many messages arrive, the inbox holds exactly the five newest of everything
      received, oldest first. */
  lemma {:induction false} ReceiveAllKeepsNewest(ms: seq<Message>)
    ensures ReceiveAll([], ms) == TakeLast(ms, MaxInbox)
    decreases |ms|
  {
    if |ms| > 0 {
      var init := ms[..|ms| - 1];
      ReceiveAllKeepsNewest(init);
      TakeLastSnoc(init, ms[|ms| - 1], MaxInbox);
      assert init + [ms[|ms| - 1]] == ms;
    }
  }

  /** The newest row of `app_updates`. */
  datatype AppUpdate = AppUpdate(version: string, title: string, description: string, mandatory: bool)

  /** The launch check: the prompt opens when the published version is newer than the running
      one and it is mandatory or not the version the user skipped. */
  function ShouldShowUpdate(latest: Option<AppUpdate>, current: string, skipped: Option<string>): (show: bool)
    ensures show <==>
      && latest.Some?
      && CompareVersions(latest.value.version, current) == 1
      && (latest.value.mandatory || skipped != Some(latest.value.version))
  {
    match latest
    case None => false
    case Some(u) => CompareVersions(u.version, current) > 0 && (u.mandatory || skipped != Some(u.version))
  }

  /** A prompt means the published version is ahead at the first component where the two
      versions differ (missing components read as 0). */
  lemma PromptMeansNewerComponent(latest: Option<AppUpdate>, current: string, skipped: Option<string>)
    requires ShouldShowUpdate(latest, current, skipped)
    ensures var a, b := Parts(latest.value.version), Parts(current);
      exists k: nat :: FirstDifference(a, b, k) && Part(a, k) > Part(b, k)
  {
    var a, b := Parts(latest.value.version), Parts(current);
    CompareMeaning(a, b);
    FirstDifferenceExists(a, b, Max(|a|, |b|));
    var k: nat :| k < Max(|a|, |b|) && FirstDifference(a, b, k);
    CompareSignMeaning(a, b, k);
  }

  /** The running version is never offered again, nor is an older one. */
  lemma NoPromptForSameOrOlder(u: AppUpdate, current: string, skipped: Option<string>)
    requires CompareVersions(current, u.version) >= 0
    ensures !ShouldShowUpdate(Some(u), current, skipped)
  {
    CompareAntisymmetric(Parts(u.version), Parts(current));
  }
}
