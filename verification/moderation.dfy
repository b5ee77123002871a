/** The moderation screen (`src/components/AdminSubmissions.tsx`): user submissions wait as
    `pending` rows; an administrator approves one, which runs ordered checks, publishes a
    temple row and marks the submission `approved`, or rejects it. The store is two lists of
    rows; every call into the store is an oracle outcome in `Backend`. */
module Moderation {
  import opened Options
  import opened Seqs
  import opened JsString
  import opened Temples
  import opened NameCheck
  import opened Catalog

  datatype Status = Pending | Approved | Rejected

  datatype GeoPoint = GeoPoint(latitude: real, longitude: real)

  /** `temple_data`, the submitted form as stored; any part may be missing. */
  datatype SubmissionData = SubmissionData(
    name: Option<Bilingual>,
    deity: Option<Bilingual>,
    description: Option<Bilingual>,
    district: Option<string>,
    state: Option<string>,
    templeType: Option<string>,
    address: Option<Bilingual>,
    location: Option<GeoPoint>,
    timings: Option<RemoteTimings>,
    images: Option<seq<string>>,
    contact: Option<Contact>,
    features: Option<seq<string>>)

  /** `{}`. */
  const NoData := SubmissionData(None, None, None, None, None, None, None, None, None, None, None, None)

  datatype Submission = Submission(id: string, data: Option<SubmissionData>, status: Status, submittedBy: Option<string>)

  /** The two tables the screen touches. */
  datatype Store = Store(temples: seq<RemoteRow>, submissions: seq<Submission>)

  /** What the store answers during one action: whether a client is configured, whether the
      duplicate query, the insert and the status update succeed, and the id the insert gets. */
  datatype Backend = Backend(configured: bool, queryOk: bool, insertOk: bool, updateOk: bool, newId: string)

  /** `row.temple_data || {}`. */
  function DataOf(row: Submission): SubmissionData
  {
    row.data.GetOr(NoData)
  }

  /** `toTempleRecord(d)`, with the id the insert assigns. */
  function ToTempleRecord(d: SubmissionData, id: string): (r: RemoteRow)
    ensures r.id == id && r.name == d.name && r.deity == d.deity && r.description == d.description
    ensures r.isOpen == Some(true) && r.popularity == None
    ensures r.images == Some(d.images.GetOr([]))
    ensures r.imageUrl.Some? <==> d.images.Some? && |d.images.value| > 0 && d.images.value[0] != ""
    ensures r.imageUrl.Some? ==> r.imageUrl.value == d.images.value[0]
    ensures r.features == Some(d.features.GetOr([])) && r.contactInfo == d.contact
    ensures r.coordinates.Some? <==> d.location.Some?
    ensures r.location.Some? <==> d.address.Some?
    ensures r.timings.Some? ==> r.timings.value.pujaTimings.Some?
  {
    var images := d.images.GetOr([]);
    RemoteRow(
      id,
      d.name,
      d.deity,
      d.district,
      d.state,
      if d.location.Some? then Some(Coordinates(Some(d.location.value.latitude), Some(d.location.value.longitude))) else None,
      if d.address.Some? then Some(RemoteLocation(None, None, d.address)) else None,
      d.description,
      if d.timings.Some? then
        Some(RemoteTimings(d.timings.value.morning, d.timings.value.evening, Some(d.timings.value.pujaTimings.GetOr([]))))
      else None,
      Some(images),
      if |images| > 0 && images[0] != "" then Some(images[0]) else None,
      d.contact,
      Some(d.features.GetOr([])),
      Some(true),
      None,
      d.templeType)
  }

  /** `templeData.name?.english?.trim()`, with a missing name read as "". */
  function TempleName(d: SubmissionData): string
  {
    if d.name.Some? then Trim(d.name.value.english) else ""
  }

  /** `ILIKE` with a pattern free of `%`, `_` and `\`: equality ignoring ASCII case. */
  predicate ILike(stored: string, pattern: string)
  {
    Lower(stored) == Lower(pattern)
  }

  /** The duplicate query `.ilike('name->>english', name)` finds a row. */
  predicate NameTaken(temples: seq<RemoteRow>, name: string)
  {
    exists i | 0 <= i < |temples| :: temples[i].name.Some? && ILike(temples[i].name.value.english, name)
  }

  /** A text column read with `!`: missing or empty. */
  predicate Blank(s: Option<string>)
  {
    s.None? || s.value == ""
  }

  datatype ApproveOutcome =
    | NotConfigured
    | NameRequired
    | SuspiciousName(name: string)
    | LookupFailed
    | AlreadyPublished(name: string)
    | LocationRequired
    | InsertFailed
    | StatusUpdateFailed
    | Published(name: string)

  datatype ApproveResult = ApproveResult(outcome: ApproveOutcome, store: Store)

  /** The checks of `approve`, in their order; `None` when all pass. */
  function FirstFailure(temples: seq<RemoteRow>, d: SubmissionData, b: Backend): (r: Option<ApproveOutcome>)
    ensures r.Some? ==> !r.value.Published? && !r.value.InsertFailed? && !r.value.StatusUpdateFailed?
    ensures r.Some? && r.value.SuspiciousName? ==> !IsValidTempleName(TempleName(d))
  {
    var name := TempleName(d);
    if !b.configured then Some(NotConfigured)
    else if name == "" then Some(NameRequired)
    else if !IsValidTempleName(name) then Some(SuspiciousName(name))
    else if !b.queryOk then Some(LookupFailed)
    else if NameTaken(temples, name) then Some(AlreadyPublished(name))
    else if Blank(d.district) || Blank(d.state) then Some(LocationRequired)
    else None
  }

  /** Sets the status of the submissions with id `id` (`.update({status}).eq('id', id)`). */
  function SetStatus(subs: seq<Submission>, id: string, status: Status): (r: seq<Submission>)
    ensures |r| == |subs|
    ensures forall i | 0 <= i < |subs| ::
      r[i] == if subs[i].id == id then subs[i].(status := status) else subs[i]
  {
    seq(|subs|, i requires 0 <= i < |subs| => if subs[i].id == id then subs[i].(status := status) else subs[i])
  }

  /** Insert the record, then mark the submission approved; each step can fail on its own. */
  function Publish(store: Store, row: Submission, record: RemoteRow, b: Backend): ApproveResult
  {
    if !b.insertOk then ApproveResult(InsertFailed, store)
    else
      var inserted := store.(temples := store.temples + [record]);
      if !b.updateOk then ApproveResult(StatusUpdateFailed, inserted)
      else ApproveResult(Published(TempleName(DataOf(row))),
                         inserted.(submissions := SetStatus(store.submissions, row.id, Approved)))
  }

  /** `approve(row)`. */
  function Approve(store: Store, row: Submission, b: Backend): ApproveResult
  {
    var d := DataOf(row);
    match FirstFailure(store.temples, d, b)
    case Some(failure) => ApproveResult(failure, store)
    case None => Publish(store, row, ToTempleRecord(d, b.newId), b)
  }

  /** `approve` flags a name as suspicious only when the heuristic refuses it. */
  lemma SuspiciousOnlyIfRefused(store: Store, row: Submission, b: Backend)
    ensures Approve(store, row, b).outcome.SuspiciousName? ==> !IsValidTempleName(TempleName(DataOf(row)))
  {
    var d := DataOf(row);
    var ff := FirstFailure(store.temples, d, b);
    if ff.None? {
      var p := Publish(store, row, ToTempleRecord(d, b.newId), b);
      assert Approve(store, row, b) == p;
      assert !p.outcome.SuspiciousName?;
    } else {
      assert Approve(store, row, b) == ApproveResult(ff.value, store);
    }
  }

  /** Each outcome of `approve` happens exactly when every earlier check passes and its own
      fails: blank name, then the heuristic, then the duplicate lookup, then district and
      state, then the insert, then the status update. */
  lemma ApproveOutcomes(store: Store, row: Submission, b: Backend)
    ensures var d := DataOf(row); var name := TempleName(d); var o := Approve(store, row, b).outcome;
      && (o == NotConfigured <==> !b.configured)
      && (o == NameRequired <==> b.configured && name == "")
      && (o == SuspiciousName(name) <==> b.configured && name != "" && !IsValidTempleName(name))
      && (o == LookupFailed <==> b.configured && name != "" && IsValidTempleName(name) && !b.queryOk)
      && (o == AlreadyPublished(name) <==>
            b.configured && name != "" && IsValidTempleName(name) && b.queryOk && NameTaken(store.temples, name))
      && (o == LocationRequired <==>
            b.configured && name != "" && IsValidTempleName(name) && b.queryOk && !NameTaken(store.temples, name)
            && (Blank(d.district) || Blank(d.state)))
      && (o.Published? <==>
            b.configured && name != "" && IsValidTempleName(name) && b.queryOk && !NameTaken(store.temples, name)
            && !Blank(d.district) && !Blank(d.state) && b.insertOk && b.updateOk)
    ensures var d := DataOf(row); var name := TempleName(d); var o := Approve(store, row, b).outcome;
      var pass := b.configured && name != "" && IsValidTempleName(name) && b.queryOk
        && !NameTaken(store.temples, name) && !Blank(d.district) && !Blank(d.state);
      && (o == InsertFailed <==> pass && !b.insertOk)
      && (o == StatusUpdateFailed <==> pass && b.insertOk && !b.updateOk)
  {
  }

  /** A refused approval writes nothing; a failed insert writes nothing; a failed status update
      leaves the temple published and the submission pending; a success appends exactly the
      record and marks exactly the rows with that id approved. */
  lemma ApproveEffects(store: Store, row: Submission, b: Backend)
    ensures var res := Approve(store, row, b); var record := ToTempleRecord(DataOf(row), b.newId);
      && (!res.outcome.Published? && res.outcome != StatusUpdateFailed ==> res.store == store)
      && (res.outcome == StatusUpdateFailed ==>
            res.store.temples == store.temples + [record] && res.store.submissions == store.submissions)
      && (res.outcome.Published? ==>
            res.store.temples == store.temples + [record]
            && |res.store.submissions| == |store.submissions|
            && forall i | 0 <= i < |store.submissions| ::
                 res.store.submissions[i] == (if store.submissions[i].id == row.id
                                              then store.submissions[i].(status := Approved)
                                              else store.submissions[i]))
  {
    var d := DataOf(row);
    if FirstFailure(store.temples, d, b).None? {
      assert Approve(store, row, b) == Publish(store, row, ToTempleRecord(d, b.newId), b);
    }
  }

  /** `approve` never reads the submission's status: the result is the same whatever it is. */
  lemma ApproveIgnoresStatus(store: Store, row: Submission, b: Backend, s: Status)
    ensures Approve(store, row.(status := s), b).outcome == Approve(store, row, b).outcome
  {
  }

  datatype RejectOutcome = RejectNotConfigured | RejectFailed | RejectDone

  datatype RejectResult = RejectResult(outcome: RejectOutcome, store: Store)

  /** `reject(row)`: one status update; the temples table is never touched. */
  function Reject(store: Store, row: Submission, b: Backend): (res: RejectResult)
    ensures res.store.temples == store.temples && |res.store.submissions| == |store.submissions|
    ensures res.outcome == RejectDone <==> b.configured && b.updateOk
    ensures res.outcome != RejectDone ==> res.store == store
    ensures res.outcome == RejectDone ==>
      forall i | 0 <= i < |store.submissions| ::
        res.store.submissions[i] == (if store.submissions[i].id == row.id
                                     then store.submissions[i].(status := Rejected)
                                     else store.submissions[i])
  {
    if !b.configured then RejectResult(RejectNotConfigured, store)
    else if !b.updateOk then RejectResult(RejectFailed, store)
    else RejectResult(RejectDone, store.(submissions := SetStatus(store.submissions, row.id, Rejected)))
  }

  /** `s.temple_data?.name?.english || 'Untitled Temple'`: the name the card shows and checks. */
  function DisplayName(row: Submission): string
  {
    var d := DataOf(row);
    if d.name.Some? && d.name.value.english != "" then d.name.value.english else "Untitled Temple"
  }

  /** The Approve and Reject buttons are rendered only for pending submissions. */
  predicate ShowsActions(row: Submission)
  {
    row.status == Pending
  }

  /** Approve is enabled when the heuristic accepts the displayed name. */
  predicate ApproveEnabled(row: Submission)
  {
    ShowsActions(row) && IsValidTempleName(DisplayName(row))
  }

  /** The card's check and `approve`'s own check agree on a submission with a real name: both
      run the heuristic on the same trimmed text. */
  lemma EnabledMatchesApproveCheck(row: Submission)
    requires ShowsActions(row) && DataOf(row).name.Some? && DataOf(row).name.value.english != ""
    ensures ApproveEnabled(row) <==> IsValidTempleName(TempleName(DataOf(row)))
  {
    TrimIdempotent(DataOf(row).name.value.english);
  }

  /** A pending submission whose English name is only white space gets an enabled Approve
      button (the heuristic passes a blank name), and `approve` then refuses it as nameless. */
  lemma BlankNameEnabledButRefused(store: Store, row: Submission, b: Backend)
    requires ShowsActions(row) && b.configured
    requires DataOf(row).name.Some? && DataOf(row).name.value.english != ""
    requires forall i | 0 <= i < |DataOf(row).name.value.english| :: IsWhiteSpace(DataOf(row).name.value.english[i])
    ensures ApproveEnabled(row)
    ensures Approve(store, row, b).outcome == NameRequired
  {
    var e := DataOf(row).name.value.english;
    BlankNamePasses(e);
    TrimEmptyIffAllWhiteSpace(e);
  }

  /** The temple a successful approval publishes, as the apps map the new row: the submitted
      name, deity, description, district and state, open, rated 0, with no festivals. */
  lemma PublishedTemple(d: SubmissionData, id: string)
    ensures var t := MapRemoteRow(ToTempleRecord(d, id));
      && t.id == id && t.name == d.name.GetOr(Temples.Blank) && t.deity == d.deity.GetOr(Temples.Blank)
      && t.district == OrString(d.district, "") && t.state == OrString(d.state, "TS")
      && t.templeType == OrString(d.templeType, "Ancient")
      && t.isOpen && t.popularity == 0 && t.festivals == []
      && t.images == d.images.GetOr([])
  {
  }

  /** After a successful approval the merged catalog shows the new temple, whatever the
      bundled catalog holds: the new row is the last one carrying its id. */
  lemma ApprovedTempleListed(store: Store, row: Submission, b: Backend, local: seq<Temple>)
    requires Approve(store, row, b).outcome.Published?
    ensures var rows := Approve(store, row, b).store.temples;
      MapRemoteRow(ToTempleRecord(DataOf(row), b.newId)) in MergeById(MapRows(rows), local)
  {
    var rows := Approve(store, row, b).store.temples;
    var t := MapRemoteRow(ToTempleRecord(DataOf(row), b.newId));
    var remote := MapRows(rows);
    assert remote[|remote| - 1] == t;
    assert LastWithId(remote, t.id) == Some(t);
    var r := MergeById(remote, local);
    MergeByIdFacts(remote, local);
    DedupFacts(Ids(remote) + Ids(local));
    assert t.id in Ids(remote) by { assert Ids(remote)[|remote| - 1] == t.id; }
    assert t.id in Ids(remote) + Ids(local);
    var k := IndexOf(Ids(r), t.id);
    assert r[k].id == t.id;
  }

  /** The rows of the `temples` table as `Temple`s. */
  function MapRows(rows: seq<RemoteRow>): (ts: seq<Temple>)
    ensures |ts| == |rows|
    ensures forall i | 0 <= i < |rows| :: ts[i] == MapRemoteRow(rows[i])
  {
    seq(|rows|, i requires 0 <= i < |rows| => MapRemoteRow(rows[i]))
  }

  /** A second approval of the same data is refused as a duplicate, when the submitted English
      name has no white space at its ends. */
  lemma ReapprovalRefused(store: Store, row: Submission, row2: Submission, b: Backend, b2: Backend)
    requires Approve(store, row, b).outcome.Published?
    requires DataOf(row2) == DataOf(row) && b2.configured && b2.queryOk
    requires IsTrimmed(DataOf(row).name.value.english)
    ensures Approve(Approve(store, row, b).store, row2, b2).outcome == AlreadyPublished(TempleName(DataOf(row)))
  {
    var d := DataOf(row);
    var rows := Approve(store, row, b).store.temples;
    TrimOfTrimmed(d.name.value.english);
    assert rows[|rows| - 1].name == d.name;
    assert NameTaken(rows, TempleName(d));
  }

  /** The duplicate lookup compares the trimmed name with the stored, untrimmed one: a
      submission whose English name ends in a space is published, and the same data is then
      published again. */
  lemma UntrimmedNamePublishedTwice(store: Store, row: Submission, row2: Submission, b: Backend, b2: Backend)
    requires store.temples == []
    requires DataOf(row) == DataOf(row2)
    requires DataOf(row).name == Some(Bilingual("Tirumala Venkateswara Temple ", ""))
    requires DataOf(row).district == Some("Tirupati") && DataOf(row).state == Some("AP")
    requires b.configured && b.queryOk && b.insertOk && b.updateOk
    requires b2.configured && b2.queryOk && b2.insertOk && b2.updateOk
    ensures Approve(store, row, b).outcome.Published?
    ensures Approve(Approve(store, row, b).store, row2, b2).outcome.Published?
    ensures |Approve(Approve(store, row, b).store, row2, b2).store.temples| == 2
  {
    var e := "Tirumala Venkateswara Temple ";
    var n := TrailingSpaceName();
    assert !Blank(DataOf(row).district) && !Blank(DataOf(row).state);
    TrailingSpacePublishedTwice(store, row, row2, b, b2, e);
  }

  /** Any English name that trimming shortens, and that passes every check, is published
      twice. */
  lemma TrailingSpacePublishedTwice(store: Store, row: Submission, row2: Submission, b: Backend, b2: Backend,
                                    e: string)
    requires store.temples == []
    requires DataOf(row) == DataOf(row2)
    requires DataOf(row).name == Some(Bilingual(e, ""))
    requires Trim(e) != "" && |Trim(e)| != |e| && IsValidTempleName(Trim(e))
    requires !Blank(DataOf(row).district) && !Blank(DataOf(row).state)
    requires b.configured && b.queryOk && b.insertOk && b.updateOk
    requires b2.configured && b2.queryOk && b2.insertOk && b2.updateOk
    ensures Approve(store, row, b).outcome.Published?
    ensures Approve(Approve(store, row, b).store, row2, b2).outcome.Published?
    ensures |Approve(Approve(store, row, b).store, row2, b2).store.temples| == 2
  {
    var d := DataOf(row);
    var n := Trim(e);
    assert TempleName(d) == n;
    assert !NameTaken([], n);
    ChecksPass(store.temples, d, b);
    PassingChecksPublish(store, row, b);
    var after := Approve(store, row, b).store;
    UntrimmedRowMissed(after.temples, e);
    ChecksPass(after.temples, d, b2);
    PassingChecksPublish(after, row2, b2);
  }

  /** The lookup of the trimmed name misses a lone row that stores the untrimmed one. */
  lemma UntrimmedRowMissed(rows: seq<RemoteRow>, e: string)
    requires |rows| == 1 && rows[0].name.Some? && rows[0].name.value.english == e && |Trim(e)| != |e|
    ensures !NameTaken(rows, Trim(e))
  {
    var t := Trim(e);
    var le, lt := Lower(e), Lower(t);
    assert |le| != |lt|;
    forall i | 0 <= i < |rows| ensures !(rows[i].name.Some? && ILike(rows[i].name.value.english, t)) {
      assert i == 0;
    }
  }

  /** No check fails when the backend answers, the name is present and accepted, no row has
      it, and district and state are filled in. */
  lemma ChecksPass(temples: seq<RemoteRow>, d: SubmissionData, b: Backend)
    requires b.configured && b.queryOk && TempleName(d) != "" && IsValidTempleName(TempleName(d))
    requires !NameTaken(temples, TempleName(d)) && !Blank(d.district) && !Blank(d.state)
    ensures FirstFailure(temples, d, b) == None
  {
  }

  /** When every check passes and both writes succeed, the approval publishes one row. */
  lemma PassingChecksPublish(store: Store, row: Submission, b: Backend)
    requires FirstFailure(store.temples, DataOf(row), b) == None && b.insertOk && b.updateOk
    ensures Approve(store, row, b).outcome.Published?
    ensures Approve(store, row, b).store.temples == store.temples + [ToTempleRecord(DataOf(row), b.newId)]
  {
    assert Approve(store, row, b) == Publish(store, row, ToTempleRecord(DataOf(row), b.newId), b);
  }

  /** "Tirumala Venkateswara Temple " trims to an accepted name. */
  lemma TrailingSpaceName() returns (n: string)
    ensures n == Trim("Tirumala Venkateswara Temple ") == "Tirumala Venkateswara Temple"
    ensures IsValidTempleName(n) && n != "" && |n| != |"Tirumala Venkateswara Temple "|
  {
    n := "Tirumala Venkateswara Temple";
    var e := n + " ";
    assert e == "Tirumala Venkateswara Temple ";
    assert e[0] == 'T' && !IsWhiteSpace(e[0]);
    assert TrimStart(e) == e;
    assert e[..|e| - 1] == n;
    assert n[|n| - 1] == 'e' && !IsWhiteSpace(n[|n| - 1]);
    assert TrimEnd(n) == n;
    assert TrimEnd(e) == n;
    TirumalaAccepted();
  }

  /** The record with the English name trimmed: what the duplicate lookup expects to find. */
  function TrimmedName(d: SubmissionData): (r: SubmissionData)
    ensures r.name.Some? <==> d.name.Some?
    ensures d.name.Some? ==>
      r.name.value.english == Trim(d.name.value.english) && r.name.value.telugu == d.name.value.telugu
  {
    if d.name.Some? then d.(name := Some(d.name.value.(english := Trim(d.name.value.english)))) else d
  }

  /** `approve` storing the trimmed English name. */
  function ApproveTrimmed(store: Store, row: Submission, b: Backend): ApproveResult
  {
    var d := DataOf(row);
    match FirstFailure(store.temples, d, b)
    case Some(failure) => ApproveResult(failure, store)
    case None => Publish(store, row, ToTempleRecord(TrimmedName(d), b.newId), b)
  }

  /** With the trimmed name stored, a second approval of the same data is always refused as a
      duplicate, and the checks are otherwise those of `approve`. */
  lemma ReapprovalRefusedTrimmed(store: Store, row: Submission, row2: Submission, b: Backend, b2: Backend)
    requires ApproveTrimmed(store, row, b).outcome.Published?
    requires DataOf(row2) == DataOf(row) && b2.configured && b2.queryOk
    ensures ApproveTrimmed(ApproveTrimmed(store, row, b).store, row2, b2).outcome
      == AlreadyPublished(TempleName(DataOf(row)))
  {
    var d := DataOf(row);
    var rows := ApproveTrimmed(store, row, b).store.temples;
    assert rows[|rows| - 1].name == TrimmedName(d).name;
    TrimIdempotent(d.name.value.english);
    assert NameTaken(rows, TempleName(d));
  }

  lemma ApproveTrimmedSameChecks(store: Store, row: Submission, b: Backend)
    ensures ApproveTrimmed(store, row, b).outcome == Approve(store, row, b).outcome
  {
  }

  /** The published-temple search: every row for an empty query, otherwise the rows whose
      lower-cased English name contains the lower-cased query. */
  function PublishedSearch(rows: seq<RemoteRow>, query: string): (r: seq<RemoteRow>)
    ensures query == "" ==> r == rows
    ensures forall x | x in r :: x in rows
    ensures query != "" ==> forall x | x in r :: x.name.Some? && Contains(Lower(x.name.value.english), Lower(query))
    ensures forall i | 0 <= i < |rows| && rows[i].name.Some? && Contains(Lower(rows[i].name.value.english), Lower(query)) ::
      rows[i] in r
    ensures IsSubsequence(r, rows)
    ensures query != "" ==>
      |r| == Count(rows, (x: RemoteRow) => x.name.Some? && Contains(Lower(x.name.value.english), Lower(query)))
  {
    var q := Lower(query);
    var keep := (x: RemoteRow) => q == "" || (x.name.Some? && Contains(Lower(x.name.value.english), q));
    FilterIsSubsequence(rows, keep);
    if query == "" then
      FilterAll(rows, keep);
      Filter(rows, keep)
    else
      assert |q| == |query|;
      FilterSame(rows, keep, (x: RemoteRow) => x.name.Some? && Contains(Lower(x.name.value.english), Lower(query)));
      Filter(rows, keep)
  }
}
