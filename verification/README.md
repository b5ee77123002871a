# TempleSanathan core, modelled in Dafny

TempleSanathan is a temple directory for Telangana and Andhra Pradesh. It has a web app (React), a mobile app (Expo) and a set of maintenance scripts. Around its UI and store plumbing sit small, exact algorithms, and those are what this project models:

- **Daily featured temples.** The 32-bit FNV-1a hash `hashFor` (`Fnv`). A stable sort by `hashFor(day + "-" + id)`, truncated to four (`StableSort`, `Home`).
- **Home-screen lists.** The upcoming-festival list and the category badge counts (`Home`, `Calendar`).
- **Remote catalog.** The mapping of stored `temples` rows to `Temple` records, and the id-keyed merge of remote rows with the bundled catalog (`Catalog`). The bundled catalog and its tables are in `Fixture`.
- **Temple-name heuristic.** `isValidTempleName`, the eight-pattern spam check (`NameCheck`).
- **Suggestion form.** The "suggest a temple" form (`UserSubmission`).
- **Moderation.** `approve`, `reject` and `toTempleRecord` (`Moderation`).
- **Search and lists.** Web and mobile search with suggestions (`Search`), the category screen (`CategoryView`) and the saved-temples screen (`Bookmarks`).
- **Web app root state.** Navigation history, language, bookmarks, inbox and the update prompt (`AppState`). The latter rests on `compareVersions` (`Versions`).
- **Admin service.** The in-memory admin service with its auth guard, CRUD, cascade delete, toggles, bulk operations and statistics (`AdminApi`).
- **CSV import.** A quote-aware splitter and record builder (`CsvParse`). The deity and type classifiers, coordinate fallback and row filter (`CsvImport`). The de-duplicating seed loop (`Seed`).
- **Festival roll-forward.** The script that moves each festival to its next occurrence (`FestivalRoll`, `Calendar`, `Decimal`).
- **Sign-in forms.** The web and mobile sign-in forms (`Auth`).

Shared helpers:

- `Options`: JavaScript `null`/`undefined`, `??` and `||`.
- `Seqs`: `filter`, `slice`, order-preserving subsequences and de-duplication.
- `JsString`: `trim`, ASCII `toLowerCase`, `includes`, `split` and `join`.
- `Temples`: the `Temple` record.

Everything outside the core is a parameter of the model:

- **Network and store.** A store is a value. Each call to the back end is a boolean or an oracle parameter: a `Backend` record in `Moderation`, a `Store` of insert outcomes in `Seed`, a `Reply` in `Auth`, `updateFails` in `FestivalRoll`.
- **Clock.** Today's date, the day key, `Date.now()` and ISO timestamps are inputs.
- **`parseFloat`.** A parameter of type `string -> Option<real>`, where `None` stands for NaN.

## Model

| member | source | states |
|---|---|---|
| Fixture.IdsDistinct | src/data/temples.ts:57-1927 | the bundled catalog has 33 temples and their ids are pairwise distinct |
| Fixture.EntriesWellFormed | src/data/temples.ts:12-1927 | every bundled temple has state TS or AP, one of the five types, a rating from 1 to 5, and is open |
| Fixture.TablesMatchTypes | src/data/temples.ts:1983-2005 | `districts` has exactly the keys TS and AP; `templeTypes` lists exactly the five declared types, each once |
| Fixture.DistrictListNotAnInvariant | src/data/temples.ts:1983-1989 | temple "14" (line 831) lies in "Bhuvanagiri", which the Telangana district list does not contain, so district membership is not an invariant |
| Temples.StateName | src/components/Search.tsx:132 | "Telangana" exactly for the code TS, "Andhra Pradesh" for every other code |
| Fnv.HashFor | src/components/Home.tsx:58-65 | the hash is an unsigned 32-bit value |
| Fnv.ComputeHash | src/components/Home.tsx:58-65 | the per-code-unit loop (xor, `Math.imul` by 16777619, `>>> 0`) computes the hash of the whole string |
| Fnv.HashVectors | src/components/Home.tsx:59-64 | the empty string hashes to the offset basis 2166136261 and "a" to 0xE40C292C |
| Fnv.HashForAppend | src/components/Home.tsx:59-64 | hashing a concatenation continues from the state reached after its first part |
| StableSort.SortByIsStableSort | src/components/Home.tsx:66-67 | the sort is a permutation, ordered by key, and keeps the catalog order of each key's elements |
| StableSort.StableSortUnique | src/components/Home.tsx:66-67 | two stable sorts of the same input by the same key are equal, so the engine's sort is determined |
| Home.FeaturedShape | src/components/Home.tsx:66-68 | the featured list has min(4, catalog size) temples, is a sub-multiset of the catalog and is ordered by the day's hash |
| Home.FeaturedAreSmallest | src/components/Home.tsx:66-68 | no temple left out has a smaller hash than a featured one |
| Home.FeaturedDetermined | app/index.tsx:118-129 | for a fixed day key and catalog order every stable sort yields the same four temples, which makes the web and mobile copies the same function |
| Home.UpcomingFestivalsShape | src/components/Home.tsx:71-82 | at most three entries, each a festival of a catalog temple dated today or later, in non-decreasing date order |
| Home.UpcomingFestivalsComplete | src/components/Home.tsx:71-82 | the list holds min(3, number of upcoming festivals) entries, and no upcoming festival left out is dated before a listed one: they are the soonest three |
| Home.CategoryCountsSum | src/components/Home.tsx:84-114 | the four badges shown (Ancient, Hill, River, Modern; Cave removed) count, when every temple has one of the five types, every temple except the Cave ones |
| Calendar.MakeDate | scripts/update-festivals-next.ts:33-35 | `new Date(y, m, d)` gives a valid date; a day past the month's end carries into the next month, and years 0–99 mean 1900–1999 |
| Calendar.Format | scripts/update-festivals-next.ts:3-8 | `toYYYYMMDD` gives the year's digits followed by two fields of two characters, each after a '-' |
| Calendar.ParseFormat | scripts/update-festivals-next.ts:3-30 | parsing the formatted text of a four-digit-year date gives the date back |
| Calendar.FormatParse | scripts/update-festivals-next.ts:30-38 | a parseable stored text without a leading-zero year is exactly the formatting of its parse |
| Decimal.TwoDigitRoundTrip | scripts/update-festivals-next.ts:5-6 | a two-digit field read and written back with `padStart(2, '0')` is unchanged |
| FestivalRoll.NextOccurrence | scripts/update-festivals-next.ts:33-36 | the next date is valid, not before today, and in the current year or the next |
| FestivalRoll.NextOccurrenceCalendarDay | scripts/update-festivals-next.ts:33-36 | month and day survive, except that 29 February becomes 1 March in a common year |
| FestivalRoll.NextOccurrenceIsEarliest | scripts/update-festivals-next.ts:33-36 | for any day other than 29 February, no year with that day on or after today comes earlier |
| FestivalRoll.RollRow | scripts/update-festivals-next.ts:30-38 | a row is skipped iff its date does not parse; it is written only with a new text, the formatted next occurrence |
| FestivalRoll.RollForwardAll | scripts/update-festivals-next.ts:29-49 | with the script's roll or the corrected one (see Findings), the run completes iff no intended update fails, and then sends exactly the planned writes; otherwise it stops at the first failing update, after the earlier writes |
| FestivalRoll.RunUpdates | scripts/update-festivals-next.ts:29-49 | given each row's decided action, the updates go out in row order; the run completes iff no sent update fails, otherwise it stops at the first failure with exactly the earlier writes made |
| FestivalRoll.RerunWritesNothing | scripts/update-festivals-next.ts:33-38 | a second run on the same day writes again iff the festival was on 29 February and today is 1 March of a leap year |
| FestivalRoll.LeapDayRerunMovesAgain | scripts/update-festivals-next.ts:33-35 | on 2028-03-01, "2028-02-29" is moved to "2029-03-01" and a re-run moves that to "2028-03-01" |
| FestivalRoll.NextOccurrenceClamped | scripts/update-festivals-next.ts:33-36 | corrected next occurrence: same month, same day or 28 February when the leap day is missing, never before today |
| FestivalRoll.RollRowClamped | scripts/update-festivals-next.ts:30-38 | corrected row roll: skipped iff the date does not parse; written only with a new text, the formatted clamped next occurrence |
| FestivalRoll.RerunPlanEmpty | scripts/update-festivals-next.ts:29-49 | with the corrected roll, the rows a completed run leaves behind need no further write that day |
| FestivalRoll.RerunPlanAsWritten | scripts/update-festivals-next.ts:29-49 | with the script's roll, a completed run on 2028-03-01 over a festival stored as "2028-02-29" leaves "2029-03-01", and a second run that day plans to write "2028-03-01" |
| FestivalRoll.RerunClampedWritesNothing | scripts/update-festivals-next.ts:33-38 | with clamping, a second run on the same day never writes |
| NameCheck.ValidTempleNameMeaning | src/components/UserSubmission.tsx:180-193 | a name is valid iff none of the eight patterns matches the trimmed name |
| NameCheck.AnyMatches | src/components/AdminSubmissions.tsx:117-130 | the `some` loop over a pattern list reports a match iff some pattern in the list matches |
| NameCheck.CheckTempleName | src/components/AdminSubmissions.tsx:117-130 | the `some` loop over the same pattern list agrees with that definition |
| NameCheck.NoneMatchesAll | src/components/UserSubmission.tsx:192 | `!patterns.some(test)` holds iff no pattern in the list matches |
| NameCheck.BlankNamePasses | src/components/UserSubmission.tsx:192 | an empty or all-white-space name passes the heuristic |
| NameCheck.FewLettersRefused | src/components/UserSubmission.tsx:185 | a trimmed name of one to five ASCII letters is refused |
| NameCheck.ShortNameRefused | src/components/UserSubmission.tsx:189 | a trimmed name of one or two characters is refused |
| NameCheck.NonLetterStartRefused | src/components/UserSubmission.tsx:188 | a trimmed name whose first character is not an ASCII letter is refused |
| NameCheck.TestThenTempleRefused | src/components/UserSubmission.tsx:184 | "test" followed later on the same line by "temple", in any ASCII case, is refused |
| NameCheck.DigitRunOnlyAlphanumeric | src/components/UserSubmission.tsx:186 | the digit pattern fires only when the whole trimmed name is letters and digits with at least one digit |
| NameCheck.RepeatRuleNeedsU0001 | src/components/UserSubmission.tsx:187 | the "repeated pattern" rule fires only on a name holding U+0001 after two to four letters |
| NameCheck.LongWordsPass | src/components/UserSubmission.tsx:181-192 | a trimmed name of six or more characters that starts with a letter, holds no "test", no U+0001 in positions 2–4 and a character outside letters and digits, passes |
| NameCheck.TestRefused | src/components/UserSubmission.tsx:182-185 | "test" is refused |
| NameCheck.HelloRefused | src/components/UserSubmission.tsx:183-185 | "hello" is refused |
| NameCheck.KsksRefused | src/components/UserSubmission.tsx:185-187 | "ksks" is refused, by the short-letters rule |
| NameCheck.TwoCharsRefused | src/components/UserSubmission.tsx:189 | "ab" is refused |
| NameCheck.LeadingDigitRefused | src/components/UserSubmission.tsx:188 | "1Temple" is refused |
| NameCheck.DigitRunExample | src/components/UserSubmission.tsx:186 | "temple123" is refused |
| NameCheck.TirumalaAccepted | src/components/UserSubmission.tsx:181-192 | "Tirumala Venkateswara Temple" is accepted |
| NameCheck.SpacedDigitAccepted | src/components/UserSubmission.tsx:186 | "Sri Temple 2" is accepted |
| NameCheck.RepetitionAccepted | src/components/UserSubmission.tsx:187 | "ksksks" is accepted: the repeat rule does not detect repetition |
| UserSubmission.Payload | src/components/UserSubmission.tsx:223-235 | the payload carries every form field: name, deity, district, state, address, description, type, contact, morning and evening hours, features and images; no coordinates |
| UserSubmission.PayloadInjective | src/components/UserSubmission.tsx:223-235 | nothing typed is lost: two forms with the same payload are equal |
| UserSubmission.HandleSubmitOutcomes | src/components/UserSubmission.tsx:198-216 | offline, then missing required fields (untrimmed truthiness), then the heuristic; each refusal happens iff the earlier checks pass, and any refusal makes no submission |
| UserSubmission.SubmittedIsPending | lib/supabase.ts:76-91 | a stored submission is pending, holds the payload and the signed-in user's id |
| UserSubmission.SubmittedNeverSuspicious | src/components/AdminSubmissions.tsx:147 | a name that passed the form's check is never refused as suspicious by moderation |
| UserSubmission.BlankNameSubmittedThenRefused | src/components/UserSubmission.tsx:205-212 | a non-empty name of only white space passes the form and is refused by moderation as missing |
| UserSubmission.AddFeature | src/components/UserSubmission.tsx:248-256 | the trimmed feature is appended and the input cleared iff it is not blank; otherwise nothing changes |
| UserSubmission.RemoveFeature | src/components/UserSubmission.tsx:258-263 | an index in range removes one element and keeps every other; an index out of range changes nothing |
| UserSubmission.RemoveFeatureSplits | src/components/UserSubmission.tsx:261 | removing index i leaves exactly the elements before and after it, in order |
| UserSubmission.RemoveAfterAdd | src/components/UserSubmission.tsx:248-263 | removing a just-added feature restores the list |
| UserSubmission.SelectState | src/components/UserSubmission.tsx:439-443 | choosing a state sets it, clears the district and changes nothing else |
| Moderation.ToTempleRecord | src/components/AdminSubmissions.tsx:96-115 | the record keeps id, name, deity, description and contact; it is open with no rating; image_url is set iff the first image is non-empty; images and features default to []; coordinates iff a location was given; timings always carry a puja list |
| Moderation.ApproveOutcomes | src/components/AdminSubmissions.tsx:132-169 | each outcome happens iff every earlier check passes and its own fails: configuration, blank name, heuristic, query error, duplicate, district/state, then the two writes |
| Moderation.ApproveEffects | src/components/AdminSubmissions.tsx:171-178 | a refusal or failed insert writes nothing; a failed status update leaves the temple published and the submission unchanged; success appends the record and approves exactly the rows with that id, every other field and row unchanged |
| Moderation.ApproveIgnoresStatus | src/components/AdminSubmissions.tsx:132-184 | `approve` never reads the submission's status |
| Moderation.PassingChecksPublish | src/components/AdminSubmissions.tsx:171-179 | when all checks pass and both writes succeed, exactly the record is appended |
| Moderation.Reject | src/components/AdminSubmissions.tsx:186-200 | the temples table is untouched; success iff configured and the update succeeds, and then exactly the rows with that id become rejected, every other field and row unchanged |
| Moderation.EnabledMatchesApproveCheck | src/components/AdminSubmissions.tsx:295-339 | for a pending card with a real name, Approve is enabled iff `approve`'s heuristic accepts the trimmed name |
| Moderation.BlankNameEnabledButRefused | src/components/AdminSubmissions.tsx:139-144 | a white-space name enables Approve (lines 295-296) but `approve` refuses it as missing |
| Moderation.PublishedTemple | src/components/AdminSubmissions.tsx:96-115 | the published row, as the apps map it, shows the submitted name, deity, district, state (default TS), type (default Ancient) and images; it is open, rated 0, with no festivals |
| Moderation.ApprovedTempleListed | src/App.tsx:229-235 | after an approval the merged catalog contains the published temple |
| Moderation.ReapprovalRefused | src/components/AdminSubmissions.tsx:153-163 | re-approving the same data with an already trimmed name is refused as a duplicate |
| Moderation.UntrimmedNamePublishedTwice | src/components/AdminSubmissions.tsx:139-171 | a name with a trailing space is published twice |
| Moderation.ReapprovalRefusedTrimmed | src/components/AdminSubmissions.tsx:153-163 | with the trimmed name stored, every re-approval of the same data is refused |
| Moderation.ApproveTrimmedSameChecks | src/components/AdminSubmissions.tsx:139-169 | storing the trimmed name changes no outcome of `approve` |
| Moderation.PublishedSearch | src/components/AdminSubmissions.tsx:252-256 | every row for an empty query; otherwise exactly the rows whose lowercased English name contains the lowercased query, in their order and as often as they occur |
| Catalog.MapRemoteRow | app/index.tsx:79-104 | every field: name, deity and description blank when missing; district empty, state TS and type Ancient when missing or empty; coordinates from `coordinates`, then `location`, then 0; address, hours and puja list with their defaults; images via `image_url`; contact and features defaulted; festivals empty, history blank; `is_open` and `popularity` default only when missing |
| Catalog.StoredFalsyValuesKept | app/index.tsx:101-102 | a stored `is_open = false` and `popularity = 0` survive the mapping |
| Catalog.FirstCoordinate | app/index.tsx:86-87 | a coordinate comes from `coordinates`, then `location`, then 0 |
| Catalog.RowImages | app/index.tsx:98 | images are `r.images`, else `[r.image_url]` when non-empty, else [] |
| Catalog.MergeByIdFacts | app/index.tsx:110-115 | merged ids are distinct: remote ids, then local ids, each in first-occurrence order; a remote id shows the last remote row, any other id the first local temple |
| Catalog.MergeByIdKeeps | src/App.tsx:229-235 | every remote and local id appears; with distinct local ids, a local temple whose id no remote row has appears unchanged |
| Search.WebSearchFacts | src/components/Search.tsx:140-166 | an order-preserving subsequence containing a catalog temple iff it matches the text (when there is one) and passes every set filter |
| Search.WebSearchConjunctive | src/components/Search.tsx:143-161 | searching equals filtering by the text, then by the filters |
| Search.EmptySearchShowsAll | src/components/Search.tsx:143-176 | an empty query with cleared filters returns the catalog unchanged |
| Search.SelectState | src/components/Search.tsx:308 | choosing a state clears the district and keeps the other filters |
| Search.SuggestionsFacts | src/components/Search.tsx:111-137 | no suggestions for a query shorter than 2; at most five, none repeated, each a name, deity, district or state name of a matching temple; they are the first five distinct candidates in order of first appearance, and a candidate left out comes after all five |
| Search.StateCodeSuggestsName | src/components/Search.tsx:131-133 | a state-code match suggests the full state name |
| Search.MobileSearch | app/search.tsx:46-47 | an empty query returns the catalog |
| Search.MobileSearchFacts | app/search.tsx:46-58 | an order-preserving subsequence; with a query, a temple is in it iff its name, deity, district or state code contains the query |
| Search.DescriptionOnlyMatch | app/search.tsx:51-56 | a temple matched only through its description is found on the web and not on mobile |
| CategoryView.CategoryTemplesFacts | src/components/CategoryView.tsx:64 | exactly the temples of the category, in catalog order, as many as Home's badge count |
| CategoryView.EmptyCategoryCard | src/components/CategoryView.tsx:149-179 | the empty card shows iff no temple has the type |
| CategoryView.CategoryTitle | src/components/CategoryView.tsx:56-66 | the four mapped types get "<Type> Temples"; any other category shows as written |
| CategoryView.CaveTitleIsRaw | src/components/CategoryView.tsx:56-66 | of the five types only "Cave" shows as written |
| Bookmarks.SavedTemplesFacts | src/components/Bookmarks.tsx:54 | exactly the catalog temples whose id is bookmarked, in catalog order |
| Bookmarks.SavedDependsOnSetOnly | src/components/Bookmarks.tsx:54 | the order and repetition of bookmarked ids do not matter |
| Bookmarks.EmptySavedPanel | src/components/Bookmarks.tsx:139-160 | the empty panel shows iff no bookmarked id matches a catalog temple |
| AppState.NavigateTo | src/App.tsx:138-146 | the previous view is appended and only the newest 20 entries are kept; the target and selections are set |
| AppState.GoBack | src/App.tsx:148-163 | empty history gives home with nothing selected; otherwise the newest entry is restored and popped |
| AppState.NavigationPreservesReachable | src/App.tsx:138-163 | navigation keeps the history bounded and never selects an empty category |
| AppState.NavigateThenBack | src/App.tsx:141-161 | going back restores screen, temple and category; the history is restored iff it had fewer than 20 entries |
| AppState.ToggleLanguage | src/App.tsx:165-170 | the language flips and nothing else changes |
| AppState.ToggleLanguageInvolution | src/App.tsx:165-170 | toggling twice restores the state |
| AppState.ToggleBookmark | src/App.tsx:172-179 | membership of the id flips, other ids keep theirs, a new id goes to the end |
| AppState.ToggleBookmarkTwice | src/App.tsx:172-179 | saving then unsaving restores the list; unsaving then saving moves the id to the end |
| AppState.AuthSuccess | src/App.tsx:185-187 | the user is stored and home is shown, history and bookmarks untouched |
| AppState.ToMessage | src/App.tsx:244-254 | a missing or empty title reads "Message"; a missing message reads "" |
| AppState.Receive | src/App.tsx:244-254 | the inbox keeps at most five messages, the new one last |
| AppState.ReceiveAllKeepsNewest | src/App.tsx:244-254 | after any sequence of messages the inbox is exactly the five newest received |
| AppState.ShouldShowUpdate | src/App.tsx:117-121 | the prompt opens iff an update is known, it is newer, and it is mandatory or not the skipped version |
| AppState.PromptMeansNewerComponent | src/App.tsx:117-121 | when the prompt opens, at the first component where the two versions differ the latest one is larger |
| AppState.NoPromptForSameOrOlder | src/App.tsx:118 | the running version or an older one is never offered |
| Versions.CompareVersions | src/lib/updates.ts:13-25 | the result is -1, 0 or 1 |
| Versions.Parts | src/lib/updates.ts:15 | a version has one component more than it has '.' and '-' separators |
| Versions.KeepDigits | src/lib/updates.ts:15 | the kept characters are the component's digits, in order, every digit kept (as many as the component has) |
| Versions.CompareMeaning | src/lib/updates.ts:17-24 | 0 iff all components agree with missing ones as 0; otherwise the first differing component decides |
| Versions.Compare | src/lib/updates.ts:17-24 | the counted loop returns the first difference's sign, or 0 |
| Versions.CompareReflexive | src/lib/updates.ts:17-24 | every version equals itself |
| Versions.CompareAntisymmetric | src/lib/updates.ts:17-24 | swapping the arguments negates the result |
| Versions.CompareTransitive | src/lib/updates.ts:17-24 | "not newer than" is transitive |
| Versions.CompareEqualTransitive | src/lib/updates.ts:17-24 | equality is transitive, so the comparison is a total preorder |
| Versions.TrailingZero | src/lib/updates.ts:17-20 | "1.0" equals "1.0.0" |
| Versions.NewerMinor | src/lib/updates.ts:18-23 | "1.10" is newer than "1.9" |
| Versions.DigitFreeComponent | src/lib/updates.ts:15 | a component without digits reads as 0 |
| Versions.PreReleaseTagIgnored | src/lib/updates.ts:15-16 | a digit-free tag after '-' does not change the version: "1.0.0-beta" equals "1.0.0" |
| Versions.LeadingZeroIgnored | src/lib/updates.ts:15 | leading zeros do not matter: "1.01" equals "1.1" |
| AdminApi.Login | src/lib/admin-api.ts:138-177 | success iff the pair exactly matches a mock account, which then becomes the signed-in admin with that role; otherwise nothing changes |
| AdminApi.MockAccounts | src/lib/admin-api.ts:142-159 | each account signs in with its own password and role, not with the other's |
| AdminApi.Logout | src/lib/admin-api.ts:179-182 | nobody is signed in and the lists are untouched |
| AdminApi.LogoutGuards | src/lib/admin-api.ts:220-431 | after sign-out the guarded calls fail with the sign-in error |
| AdminApi.GetTemple | src/lib/admin-api.ts:194-197 | the first temple with the id; none iff no temple has it |
| AdminApi.CreateTemple | src/lib/admin-api.ts:199-215 | guarded; the new temple is appended with a generated id |
| AdminApi.OverlayTemple | src/lib/admin-api.ts:227-231 | each field the update gives replaces the old one and every other field keeps its value; id and creation time stay; the update time is now |
| AdminApi.OverlayNothing | src/lib/admin-api.ts:227-231 | an empty update only refreshes the timestamp |
| AdminApi.UpdateTemple | src/lib/admin-api.ts:217-234 | guarded; null and nothing changed iff no temple has the id; otherwise the first match is overlaid |
| AdminApi.UpdateTempleKeepsOthers | src/lib/admin-api.ts:217-234 | other temples are left as they were |
| AdminApi.DeleteTemple | src/lib/admin-api.ts:236-251 | guarded; false and nothing changed iff no temple has the id; otherwise that temple and all its festivals go |
| AdminApi.DeleteKeepsReferences | src/lib/admin-api.ts:246-248 | when every festival names an existing temple, it still does after any deletion |
| AdminApi.UpdateTempleImage | src/lib/admin-api.ts:253-267 | guarded; true iff a temple has the id, and then its image URL is set |
| AdminApi.UpdateTempleTimings | src/lib/admin-api.ts:269-284 | guarded; true iff a temple has the id, and then its timings are set |
| AdminApi.GetFestivals | src/lib/admin-api.ts:286-294 | all festivals without a temple id, else exactly that temple's, in stored order |
| AdminApi.GetFestival | src/lib/admin-api.ts:296-299 | the first festival with the id; none iff no festival has it |
| AdminApi.CreateFestivalUnchecked | src/lib/admin-api.ts:301-317 | a festival may be created for a temple that does not exist |
| AdminApi.CreateFestival | src/lib/admin-api.ts:301-317 | guarded; with an admin the festival is appended as given, with id `festival-<stamp>` and both timestamps now |
| AdminApi.CreatedFestivalListed | src/lib/admin-api.ts:286-317 | a created festival shows up last in its temple's list, and no other temple's list changes |
| AdminApi.OverlayFestival | src/lib/admin-api.ts:329-333 | each field the update gives replaces the old one and every other field keeps its value; id and creation time stay |
| AdminApi.UpdateFestival | src/lib/admin-api.ts:319-336 | guarded; null and nothing changed iff no festival has the id; temples untouched |
| AdminApi.DeleteFestival | src/lib/admin-api.ts:338-350 | guarded; true iff a festival has the id, and then exactly the first such festival is removed, the others kept in order and the temples untouched |
| AdminApi.ToggleFestivalStatus | src/lib/admin-api.ts:352-366 | guarded; true iff a festival has the id, and then only the first such festival changes: its `is_active` flips and its timestamp is now |
| AdminApi.ToggleTwice | src/lib/admin-api.ts:352-366 | toggling twice restores every festival except its timestamp |
| AdminApi.ByType | src/lib/admin-api.ts:390-393 | the keys are exactly the types present, each with a positive count |
| AdminApi.ByTypeCounts | src/lib/admin-api.ts:390-393 | each type's entry is the number of temples of that type; a type with no entry has no temples |
| AdminApi.GetStats | src/lib/admin-api.ts:374-402 | totals equal list lengths; active and upcoming counts are bounded by them |
| AdminApi.ByTypeTotal | src/lib/admin-api.ts:390-393 | the per-type counts add up to the number of temples |
| AdminApi.StatsFacts | src/lib/admin-api.ts:383-393 | the active count is the number of open temples; the upcoming count is the number of active festivals dated after today; each type maps to its number of temples, absent types have none, and the counts sum to the total |
| AdminApi.BulkUpdateTempleStatus | src/lib/admin-api.ts:405-424 | guarded; exactly the listed temples get the flag, the count returned is their number |
| AdminApi.BulkDeleteFestivals | src/lib/admin-api.ts:426-437 | guarded; the listed festivals are removed and the old length minus the new is returned |
| AdminApi.BulkDeleteCount | src/lib/admin-api.ts:426-437 | the number returned is the number of listed festivals, 0 iff none is listed |
| CsvParse.ParseLineLoop | scripts/parse-csv-temples.ts:165-180 | the character loop computes the line's fields |
| CsvParse.ScanCounts | scripts/parse-csv-temples.ts:169-179 | a quote is open iff an odd number of quotes was read; one field is finished per unquoted comma |
| CsvParse.ParseLineLength | scripts/parse-csv-temples.ts:169-180 | a line yields one more field than it has commas outside quotes |
| CsvParse.ParseLineFields | scripts/parse-csv-temples.ts:171-180 | every field is trimmed and free of quote characters |
| CsvParse.ParseLineWithoutQuotes | scripts/parse-csv-temples.ts:169-180 | on a line without quotes the fields are the comma-split pieces, trimmed |
| CsvParse.ParseJoinRoundTrip | scripts/parse-csv-temples.ts:169-180 | trimmed fields without commas or quotes, joined by commas, parse back to themselves |
| CsvParse.QuotedFieldKeepsCommas | scripts/parse-csv-temples.ts:171-173 | commas between quotes stay in the field |
| CsvParse.Record | scripts/parse-csv-temples.ts:182-185 | the keys are exactly the headers; each maps to the value at its last position, or "" when missing |
| CsvParse.ParseCsv | scripts/parse-csv-temples.ts:159-189 | one record per line after the header, in order, built from that line's fields |
| CsvImport.FirstMatching | scripts/parse-csv-temples.ts:191-246 | the first rule whose keyword occurs; none iff no rule fires |
| CsvImport.DeduceDeityFacts | scripts/parse-csv-temples.ts:191-227 | the result is "Divine Deity" iff no keyword rule fires |
| CsvImport.NarasimhaFirst | scripts/parse-csv-temples.ts:194-195 | a name mentioning narasimha, anjaneya or hanuman yields Lord Narasimha |
| CsvImport.RamachandraswamyRedundant | scripts/parse-csv-temples.ts:203 | "ramachandraswamy" always contains "rama", so it never decides |
| CsvImport.NormalizeIsCatalogueType | scripts/parse-csv-temples.ts:229-246 | the normalized type is one of the five catalogue types |
| CsvImport.NormalizeTempleTypeCases | scripts/parse-csv-temples.ts:229-246 | Hill iff hill/mountain; Cave iff cave and no hill; Ancient iff no keyword |
| CsvImport.DefaultCoordinates | scripts/parse-csv-temples.ts:248-301 | a listed district's centre, otherwise the state fallback, which for TS is Hyderabad's centre |
| CsvImport.Coordinate | scripts/parse-csv-temples.ts:337-338 | a non-zero parsed value wins; NaN or 0 gives the fallback, so the result is 0 only when the fallback is |
| CsvImport.SpaceSlashes | scripts/parse-csv-temples.ts:334 | each '/' grows by two characters and none ends the text |
| CsvImport.SpaceSlashesRoundTrip | scripts/parse-csv-temples.ts:334 | the original district can be recovered from the padded one |
| CsvImport.CsvIdInjective | scripts/parse-csv-temples.ts:328 | with one clock reading, different rows get different ids |
| CsvImport.ConvertRow | scripts/parse-csv-temples.ts:316-364 | the row's id, its classified deity and type, the type-led features, the padded district and the state; a non-empty address; the English name trimmed only when it holds both parentheses; each coordinate parsed, or the district's (else the state's) default when it does not parse or is zero; open, popularity 3, no festivals or images |
| CsvImport.ConvertRowsDistinctIds | scripts/parse-csv-temples.ts:307-367 | no two imported temples share an id |
| CsvImport.ConvertRowsShape | scripts/parse-csv-temples.ts:357-363 | every imported temple has a catalogue type, is open and rated |
| CsvImport.ConvertCsvFacts | scripts/parse-csv-temples.ts:303-370 | one temple per usable data row, at most one per data line, ids distinct |
| CsvImport.SkippedRowAbsent | scripts/parse-csv-temples.ts:309-314 | no imported temple carries a placeholder row's id |
| CsvImport.KeptRowPresent | scripts/parse-csv-temples.ts:307-366 | every other row yields the temple built from it |
| Seed.ExistingNames | scripts/seed-csv-temples.ts:30-32 | the set holds exactly the stored English names, lowercased and trimmed |
| Seed.SeedRecordRoundTrip | scripts/seed-csv-temples.ts:70-86 | reading a seeded row back gives the temple under its new id, with history and festivals dropped |
| Seed.DecideKnown | scripts/seed-csv-temples.ts:30-104 | the known names are the stored ones plus those of the inserted temples |
| Seed.DecidePrefix | scripts/seed-csv-temples.ts:39-124 | earlier decisions never change |
| Seed.DecideFates | scripts/seed-csv-temples.ts:40-98 | skipped iff the name is stored or inserted earlier; failed iff new and its insert fails |
| Seed.InsertedNamesFresh | scripts/seed-csv-temples.ts:40-104 | inserted temples have pairwise distinct names, none already stored |
| Seed.RecordsCount | scripts/seed-csv-temples.ts:89-101 | one record per inserted temple |
| Seed.FestivalRowsFacts | scripts/seed-csv-temples.ts:107-123 | every festival row is active and points at an inserted temple's id |
| Seed.SeedLoop | scripts/seed-csv-temples.ts:36-124 | the loop's counters and name set are the inserted count, skipped count and known names |
| Seed.SeedingAccounts | scripts/seed-csv-temples.ts:39-130 | every temple of the batch is inserted, skipped or failed; the inserted and skipped counters cover the whole batch iff no insert failed |
| Auth.ValidateForm | src/components/Auth.tsx:92-110 | first failure wins in order email, password, length, mismatch; none iff the form is valid |
| Auth.WebSubmit | src/components/Auth.tsx:112-152 | no call iff invalid or the admin shortcut; sign-up iff valid in sign-up mode; `onAuthSuccess` only after an accepted sign-in; an accepted call shows the account-created or welcome-back notice, a refusal the service's message, a throw the generic error |
| Auth.AfterSignUp | src/components/Auth.tsx:128-131 | after the timer: sign-in mode with empty fields |
| Auth.InputChange | src/components/Auth.tsx:154-157 | only the named field changes and the error is cleared |
| Auth.InputChangesCompose | src/components/Auth.tsx:154-157 | edits of different fields commute; a later edit of a field overrides an earlier one |
| Auth.ToggleMode | src/components/Auth.tsx:286-291 | the mode flips; fields and both messages are cleared |
| Auth.ToggleModeTwice | src/components/Auth.tsx:286-291 | toggling twice keeps the mode and leaves only a cleared page |
| Auth.SubmitAfterToggleMakesNoCall | src/components/Auth.tsx:286-291 | right after a toggle (lines 93-96), a submit makes no call and shows "email required" |
| Auth.AdminEmailIgnoresCase | src/components/Auth.tsx:135 | the shortcut ignores letter case |
| Auth.MixedCaseAdminOpensAdmin | src/components/Auth.tsx:135-138 | "Admin@RudraCore.COM" opens the admin page without calling sign-in |
| Auth.AdminEmailSignsUpNormally | src/components/Auth.tsx:122-123 | in sign-up mode the admin address is sent to sign-up |
| Auth.MobileSubmit | app/auth.tsx:73-110 | no call iff fields missing or sign-up mismatch; a sign-up success switches to sign-in with empty fields; a sign-in success goes back; a call leaves the success alert, "Sign Up Failed"/"Sign In Failed" with the service's message, or the generic error alert |
| Auth.MobileToggleMode | app/auth.tsx:209-212 | the mode flips and the fields are cleared |
| Auth.WebValidIsMobileValid | app/auth.tsx:73-84 | whatever the web form accepts the mobile one accepts; they differ exactly on passwords of 1–5 characters |
| Auth.OneCharacterPassword | app/auth.tsx:73-84 | a one-character password reaches sign-in on mobile and is refused as too short on the web |
| Auth.FormsAgreeOnLongPasswords | app/auth.tsx:73-84 | with a password of 6+ characters and no admin shortcut, both forms make the same call |

## Left out

- **Rendering and side effects.** All rendering, styling and the bilingual text tables are left out. So are the `setTimeout` delays, `localStorage`, geolocation, sharing and `window.open`. The Telugu category titles are not modelled; `CategoryView.CategoryTitle` returns the English title only.
- **Back end, the clock and `parseFloat`.** The Supabase client, Realtime channels and `getLatestAppUpdate` are reduced to parameters, as is the admin service's `delay`. The current date and `Date.now()` are parameters too, and so is `parseFloat`. One `stamp` stands for every `Date.now()` a CSV conversion makes, so all rows of one conversion share it; one `now` likewise stands for both `new Date()` calls in `createTemple` and in `createFestival`, so `created_at` and `updated_at` of one creation are equal (the id's `Date.now()` is the separate `stamp`).
- **Out-of-core files.** Geographic code, `src/version.ts` and the files outside the core are not part of this model.
- **Strings.** They are sequences of characters. Only `Fnv` converts them to UTF-16 code units. Elsewhere lengths count characters, which is the same for text in the Basic Multilingual Plane.
- **Lowercasing.** `toLowerCase` is modelled on ASCII letters only. Telugu has no case. Other non-ASCII letters, for example `İ`, are kept unchanged.
- **Festival dates.** `Calendar` reads "YYYY-MM-DD" as the local calendar day, which holds when the time zone's offset from UTC is not negative. Other date formats that `new Date` accepts are read as unparseable. A "YYYY-MM-DD" string naming a day its month does not have, such as "2023-02-29", is also read as unparseable, whereas `new Date` in V8 rolls it over into the next month (here 1 March).
- **`AdminApi.GetStats`.** The upcoming-festival count compares calendar days rather than instants.
- Versions.ComponentValue: a component is read as an exact natural number. `parseInt` returns a double, so in the source components of 2^53 or more lose precision ("1.9007199254740993" and "1.9007199254740992" compare equal there, while the model orders them) and a component of 309 digits or more reads as Infinity.
- Moderation.ILike: `ILIKE` is modelled as equality ignoring ASCII case. In the real query, a name containing `%` or `_` acts as a wildcard.
- CsvImport.Get: A missing CSV column reads as "". The script would throw on `row.district.replace` when the district column is missing.
- CsvParse.Lines: The file is split at newlines before quotes are considered, as in the script. A quoted field holding a newline is therefore not supported.
- CsvImport.DefaultCoordinates: The district table is looked up by value. Inherited object keys such as "constructor" are not modelled.
- CsvImport.ConvertRow: Coordinates are opaque reals. The addresses and the fixed description, history and timing texts are not stated in the contract.
- Seed: A failed festival insert is only logged, so the model treats festival rows as sent whatever happens. The script's environment checks, the fetch of existing names, `process.exit` and the summary printout are not modelled.
- FestivalRoll.RollForwardAll: The environment check, the fetch and the final log line are left out.
- AdminApi.CreateTemple: Ids come from a clock stamp parameter. Two creations with the same stamp would collide, as they would in the service.
- AdminApi.Login: The session token is not modelled.
- Auth: The `loading` flag is not modelled. `handleInputChange` is modelled only for the three field names the form passes. The language-dependent message texts are reduced to `FormError` values.
- Catalog.MapRemoteRow: Contact details stored as `{}` are modelled as a contact with no fields.

## Findings

| source | as written | input that shows it | evidently intended | confidence | as-written member | corrected member |
|---|---|---|---|---|---|---|
| scripts/update-festivals-next.ts:33-35 | a 29 February festival is rebuilt with `new Date(year, 1, 29)`, which in a common year overflows to 1 March, so the moved date is no longer a fixed point | today 2028-03-01, stored "2028-02-29": the first run writes "2029-03-01", a second run the same day writes "2028-03-01" | a second run on the same day writes nothing (the script's "next future occurrence") | medium, not executed | FestivalRoll.LeapDayRerunMovesAgain | FestivalRoll.RerunClampedWritesNothing |
| src/components/AdminSubmissions.tsx:139-171 | the duplicate lookup compares the trimmed name with the stored name, but the record stores the untrimmed name | two submissions named "Tirumala Venkateswara Temple " (trailing space): both are published | a re-approval of the same temple is refused as a duplicate | medium, not executed | Moderation.UntrimmedNamePublishedTwice | Moderation.ReapprovalRefusedTrimmed |
