/** The "suggest a temple" form (`src/components/UserSubmission.tsx`) and the submission
    call it makes (`submitTempleSubmission` in `lib/supabase.ts`): ordered validation, then a
    `pending` row in the submissions table. */
module UserSubmission {
  import opened Options
  import opened JsString
  import opened Temples
  import opened NameCheck
  import opened Catalog
  import opened Moderation

  datatype FormContact = FormContact(phone: string, website: string, email: string)

  datatype FormTimings = FormTimings(morning: string, evening: string)

  /** `SubmissionForm`; `state` is "TS", "AP" or "" before a choice. */
  datatype Form = Form(
    name: Bilingual,
    deity: Bilingual,
    state: string,
    district: string,
    address: Bilingual,
    description: Bilingual,
    templeType: string,
    contact: FormContact,
    timings: FormTimings,
    features: seq<string>,
    images: seq<string>)

  /** The form after `resetForm`. */
  const EmptyForm := Form(Temples.Blank, Temples.Blank, "", "", Temples.Blank, Temples.Blank, "",
                          FormContact("", "", ""), FormTimings("", ""), [], [])

  /** The payload object sent as `temple_data`. */
  function Payload(f: Form): (d: SubmissionData)
    ensures d.name == Some(f.name) && d.deity == Some(f.deity)
    ensures d.district == Some(f.district) && d.state == Some(f.state)
    ensures d.location.None?
    ensures d.address == Some(f.address) && d.description == Some(f.description)
    ensures d.templeType == Some(f.templeType)
    ensures d.contact == Some(Contact(Some(f.contact.phone), Some(f.contact.website), Some(f.contact.email)))
    ensures d.timings == Some(RemoteTimings(Some(f.timings.morning), Some(f.timings.evening), None))
    ensures d.features == Some(f.features) && d.images == Some(f.images)
  {
    SubmissionData(
      Some(f.name), Some(f.deity), Some(f.description), Some(f.district), Some(f.state),
      Some(f.templeType), Some(f.address), None,
      Some(RemoteTimings(Some(f.timings.morning), Some(f.timings.evening), None)),
      Some(f.images),
      Some(Contact(Some(f.contact.phone), Some(f.contact.website), Some(f.contact.email))),
      Some(f.features))
  }

  /** Nothing the user typed is lost: different forms send different payloads. */
  lemma PayloadInjective(f: Form, g: Form)
    requires Payload(f) == Payload(g)
    ensures f == g
  {
  }

  /** Who is signed in, and what the store answers to the insert. */
  datatype Session = Session(configured: bool, userId: Option<string>, insertOk: bool, newId: string)

  datatype SubmitOutcome =
    | Offline
    | MissingFields
    | InvalidName
    | NoBackend
    | NotSignedIn
    | SubmitFailed
    | Submitted(row: Submission)

  /** The four required fields, tested for truthiness without trimming. */
  predicate HasRequiredFields(f: Form)
  {
    f.name.english != "" && f.deity.english != "" && f.state != "" && f.district != ""
  }

  /** `submitTempleSubmission(payload)`: refused without a client or a signed-in user,
      otherwise an insert of a `pending` row stamped with the user's id. */
  function SubmitSubmission(d: SubmissionData, s: Session): SubmitOutcome
  {
    if !s.configured then NoBackend
    else if s.userId.None? || s.userId.value == "" then NotSignedIn
    else if !s.insertOk then SubmitFailed
    else Submitted(Submission(s.newId, Some(d), Pending, s.userId))
  }

  /** `handleSubmit`: offline, then the required fields, then the name heuristic; only then is
      the submission call made. */
  function HandleSubmit(f: Form, isOffline: bool, s: Session): SubmitOutcome
  {
    if isOffline then Offline
    else if !HasRequiredFields(f) then MissingFields
    else if !IsValidTempleName(f.name.english) then InvalidName
    else SubmitSubmission(Payload(f), s)
  }

  /** Each refusal happens exactly when the earlier checks pass and its own fails, and a
      submission is made exactly when all three pass and the store accepts it. */
  lemma HandleSubmitOutcomes(f: Form, isOffline: bool, s: Session)
    ensures var o := HandleSubmit(f, isOffline, s);
      && (o == Offline <==> isOffline)
      && (o == MissingFields <==> !isOffline && !HasRequiredFields(f))
      && (o == InvalidName <==> !isOffline && HasRequiredFields(f) && !IsValidTempleName(f.name.english))
      && (o.Submitted? <==>
            !isOffline && HasRequiredFields(f) && IsValidTempleName(f.name.english)
            && s.configured && s.userId.Some? && s.userId.value != "" && s.insertOk)
  {
  }

  /** A new submission is pending, carries the form as its data and the signed-in user. */
  lemma SubmittedIsPending(f: Form, isOffline: bool, s: Session)
    requires HandleSubmit(f, isOffline, s).Submitted?
    ensures var row := HandleSubmit(f, isOffline, s).row;
      row.status == Pending && row.data == Some(Payload(f)) && row.submittedBy == s.userId
      && ShowsActions(row)
  {
  }

  /** A submitted name already passed the heuristic, so moderation never flags it: the
      approval of a fresh submission is never `SuspiciousName`. */
  lemma SubmittedNeverSuspicious(f: Form, isOffline: bool, s: Session, store: Store, b: Backend)
    requires HandleSubmit(f, isOffline, s).Submitted?
    ensures !Approve(store, HandleSubmit(f, isOffline, s).row, b).outcome.SuspiciousName?
  {
    var row := HandleSubmit(f, isOffline, s).row;
    assert TempleName(DataOf(row)) == Trim(f.name.english);
    TrimIdempotent(f.name.english);
    SuspiciousOnlyIfRefused(store, row, b);
  }

  /** A non-empty name of only white space ("   ", say) satisfies the required-field check
      (it is not "") and the heuristic (a blank name matches no pattern), so it is submitted;
      `approve` later refuses it as nameless. */
  lemma BlankNameSubmittedThenRefused(f: Form, s: Session, store: Store, b: Backend)
    requires f.name.english != "" && forall i | 0 <= i < |f.name.english| :: IsWhiteSpace(f.name.english[i])
    requires f.deity.english != "" && f.state != "" && f.district != ""
    requires s.configured && s.userId.Some? && s.userId.value != "" && s.insertOk && b.configured
    ensures HandleSubmit(f, false, s).Submitted?
    ensures Approve(store, HandleSubmit(f, false, s).row, b).outcome == NameRequired
  {
    BlankNamePasses(f.name.english);
    assert HandleSubmit(f, false, s).Submitted?;
    SubmittedIsPending(f, false, s);
    BlankNameEnabledButRefused(store, HandleSubmit(f, false, s).row, b);
  }

  /** `addFeature`: the trimmed text is appended, and the input cleared, iff it is not blank. */
  function AddFeature(features: seq<string>, newFeature: string): (r: (seq<string>, string))
    ensures Trim(newFeature) != "" ==> r.0 == features + [Trim(newFeature)] && r.1 == ""
    ensures Trim(newFeature) == "" ==> r == (features, newFeature)
  {
    var t := Trim(newFeature);
    if t != "" then (features + [t], "") else (features, newFeature)
  }

  /** `removeFeature(index)`: `features.filter((_, i) => i !== index)`. */
  function RemoveFeature(features: seq<string>, index: int): (r: seq<string>)
    ensures 0 <= index < |features| ==> |r| == |features| - 1
    ensures !(0 <= index < |features|) ==> r == features
    ensures forall i | 0 <= i < |features| && i != index :: features[i] in r
    decreases |features|
  {
    if |features| == 0 then []
    else
      var init := RemoveFeature(features[..|features| - 1], index);
      assert forall i | 0 <= i < |features| - 1 :: features[..|features| - 1][i] == features[i];
      if index == |features| - 1 then init else init + [features[|features| - 1]]
  }

  /** Removing index `i` leaves the elements before it and after it, in order. */
  lemma {:induction false} RemoveFeatureSplits(features: seq<string>, index: nat)
    requires index < |features|
    ensures RemoveFeature(features, index) == features[..index] + features[index + 1..]
    decreases |features|
  {
    var n := |features|;
    var init := features[..n - 1];
    if index == n - 1 {
      assert features[..index] == init;
    } else {
      RemoveFeatureSplits(init, index);
      assert init[..index] == features[..index];
      assert init[index + 1..] + [features[n - 1]] == features[index + 1..];
    }
  }

  /** Removing a feature just added restores the list. */
  lemma RemoveAfterAdd(features: seq<string>, newFeature: string)
    requires Trim(newFeature) != ""
    ensures RemoveFeature(AddFeature(features, newFeature).0, |features|) == features
  {
    var added := AddFeature(features, newFeature).0;
    RemoveFeatureSplits(added, |features|);
    assert added[..|features|] == features;
  }

  /** Choosing a state clears the district. */
  function SelectState(f: Form, state: string): (r: Form)
    ensures r.state == state && r.district == ""
    ensures r.(state := f.state, district := f.district) == f
  {
    f.(state := state, district := "")
  }
}
