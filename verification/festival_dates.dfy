/** The maintenance script that moves every festival date to its next occurrence on or after
    today (`scripts/update-festivals-next.ts`). */
module FestivalRoll {
  import opened Options
  import opened Calendar
  import Decimal

  predicate IsLeapDay(d: Date)
  {
    d.month == 2 && d.day == 29
  }

  /** This year's date with the stored month and day, or next year's when this year's is
      already past; `new Date` carries a 29 February of a common year into 1 March. */
  function NextOccurrence(today: Date, original: Date): (r: Date)
    requires Valid(today) && Valid(original)
    ensures Valid(r)
    ensures !Before(r, today)
    ensures today.year >= 100 ==> r.year == today.year || r.year == today.year + 1
  {
    var thisYear := MakeDate(today.year, original.month - 1, original.day);
    if Before(thisYear, today) then MakeDate(today.year + 1, original.month - 1, original.day)
    else thisYear
  }

  /** The month and day survive, except that 29 February becomes 1 March in a common year. */
  lemma NextOccurrenceCalendarDay(today: Date, original: Date)
    requires Valid(today) && Valid(original) && today.year >= 100
    ensures var r := NextOccurrence(today, original);
      if IsLeapDay(original) && !IsLeapYear(r.year) then r.month == 3 && r.day == 1
      else r.month == original.month && r.day == original.day
  {
  }

  /** For a day other than 29 February the result is the earliest date on or after today that
      has the stored month and day. */
  lemma NextOccurrenceIsEarliest(today: Date, original: Date, y: nat)
    requires Valid(today) && Valid(original) && today.year >= 100 && !IsLeapDay(original)
    requires !Before(Date(y, original.month, original.day), today)
    ensures NextOccurrence(today, original).year <= y
  {
  }

  /** What the script does with one festival row. */
  datatype RowAction = Skip | Keep | Write(date: string)

  /** Rows whose date does not parse are skipped; a row is written only when the formatted next
      occurrence differs from the stored text. */
  function RollRow(today: Date, stored: string): (a: RowAction)
    requires Valid(today)
    ensures a.Skip? <==> ParseIsoDate(stored).None?
    ensures a.Write? ==> a.date != stored && a.date == Format(NextOccurrence(today, ParseIsoDate(stored).value))
    ensures a.Keep? ==> stored == Format(NextOccurrence(today, ParseIsoDate(stored).value))
  {
    match ParseIsoDate(stored)
    case None => Skip
    case Some(d) =>
      var next := Format(NextOccurrence(today, d));
      if next != stored then Write(next) else Keep
  }

  datatype FestivalRow = FestivalRow(id: string, date: string)
  datatype Update = Update(id: string, date: string)

  /** Which roll of a row a run uses: the script's own, or the corrected one that keeps a
      missing 29 February in February (see the README's findings). */
  datatype Variant = AsWritten | Corrected

  function RollWith(v: Variant, today: Date, stored: string): (a: RowAction)
    requires Valid(today)
    ensures a.Skip? <==> ParseIsoDate(stored).None?
    ensures a.Write? ==> a.date != stored
  {
    match v
    case AsWritten => RollRow(today, stored)
    case Corrected => RollRowClamped(today, stored)
  }

  /** What the run does with each row. */
  function Actions(v: Variant, today: Date, rows: seq<FestivalRow>): (r: seq<RowAction>)
    requires Valid(today)
    ensures |r| == |rows|
    ensures forall i | 0 <= i < |rows| :: r[i] == RollWith(v, today, rows[i].date)
  {
    seq(|rows|, i requires 0 <= i < |rows| => RollWith(v, today, rows[i].date))
  }

  /** The updates the actions call for, in row order. */
  function Writes(rows: seq<FestivalRow>, acts: seq<RowAction>): (r: seq<Update>)
    requires |acts| == |rows|
    ensures |r| <= |rows|
  {
    if |rows| == 0 then []
    else
      var n := |rows| - 1;
      Writes(rows[..n], acts[..n]) + (if acts[n].Write? then [Update(rows[n].id, acts[n].date)] else [])
  }

  /** One more row adds its update, if it is written, at the end. */
  lemma WritesSnoc(rows: seq<FestivalRow>, acts: seq<RowAction>, i: nat)
    requires |acts| == |rows| && i < |rows|
    ensures Writes(rows[..i + 1], acts[..i + 1])
      == Writes(rows[..i], acts[..i]) + (if acts[i].Write? then [Update(rows[i].id, acts[i].date)] else [])
  {
    var r, a := rows[..i + 1], acts[..i + 1];
    assert r[..i] == rows[..i] && a[..i] == acts[..i];
  }

  /** Nothing is written when no action is a write. */
  lemma {:induction false} WritesNone(rows: seq<FestivalRow>, acts: seq<RowAction>)
    requires |acts| == |rows| && forall i | 0 <= i < |acts| :: !acts[i].Write?
    ensures Writes(rows, acts) == []
    decreases |rows|
  {
    if |rows| > 0 {
      var n := |rows| - 1;
      assert forall i | 0 <= i < n :: acts[..n][i] == acts[i];
      WritesNone(rows[..n], acts[..n]);
    }
  }

  /** The writes one run intends, in row order. */
  function Plan(v: Variant, today: Date, rows: seq<FestivalRow>): (r: seq<Update>)
    requires Valid(today)
    ensures |r| <= |rows|
  {
    Writes(rows, Actions(v, today, rows))
  }

  /** A run either completes, or stops at the first update the store refuses (the script exits
      with status 1); the updates made before the failure stay in the store. */
  datatype RunResult = Completed(updates: seq<Update>) | Failed(updates: seq<Update>, failedId: string)

  predicate WriteFails(v: Variant, today: Date, rows: seq<FestivalRow>, updateFails: seq<bool>, i: nat)
    requires Valid(today) && |updateFails| == |rows| && i < |rows|
  {
    RollWith(v, today, rows[i].date).Write? && updateFails[i]
  }

  /** The loop of `main` over the rows and what it does with each: updates are sent in order
      until the store refuses one. */
  method RunUpdates(rows: seq<FestivalRow>, acts: seq<RowAction>, updateFails: seq<bool>) returns (res: RunResult)
    requires |acts| == |rows| && |updateFails| == |rows|
    ensures res.Completed? <==> forall i | 0 <= i < |rows| :: !(acts[i].Write? && updateFails[i])
    ensures res.Completed? ==> res.updates == Writes(rows, acts)
    ensures res.Failed? ==> exists k | 0 <= k < |rows| ::
      acts[k].Write? && updateFails[k] && res.failedId == rows[k].id
      && res.updates == Writes(rows[..k], acts[..k])
      && forall i | 0 <= i < k :: !(acts[i].Write? && updateFails[i])
  {
    var updates: seq<Update> := [];
    var i := 0;
    while i < |rows|
      invariant 0 <= i <= |rows|
      invariant updates == Writes(rows[..i], acts[..i])
      invariant forall j | 0 <= j < i :: !(acts[j].Write? && updateFails[j])
    {
      WritesSnoc(rows, acts, i);
      var a := acts[i];
      if a.Write? {
        if updateFails[i] {
          res := Failed(updates, rows[i].id);
          return;
        }
        updates := updates + [Update(rows[i].id, a.date)];
      }
      i := i + 1;
    }
    assert rows[..|rows|] == rows && acts[..|acts|] == acts;
    return Completed(updates);
  }

  /** The run of `main`, with the script's roll (`AsWritten`) or the corrected one;
      `updateFails[i]` says whether the store rejects the update of row `i` if one is sent. */
  method RollForwardAll(v: Variant, today: Date, rows: seq<FestivalRow>, updateFails: seq<bool>) returns (res: RunResult)
    requires Valid(today) && |updateFails| == |rows|
    ensures res.Completed? <==> forall i | 0 <= i < |rows| :: !WriteFails(v, today, rows, updateFails, i)
    ensures res.Completed? ==> res.updates == Plan(v, today, rows)
    ensures res.Failed? ==> exists k | 0 <= k < |rows| ::
      WriteFails(v, today, rows, updateFails, k) && res.failedId == rows[k].id
      && res.updates == Plan(v, today, rows[..k])
      && forall i | 0 <= i < k :: !WriteFails(v, today, rows, updateFails, i)
  {
    var acts := Actions(v, today, rows);
    FailsAreActions(v, today, rows, updateFails);
    res := RunUpdates(rows, acts, updateFails);
    if res.Failed? {
      var k :| 0 <= k < |rows| && acts[k].Write? && updateFails[k] && res.failedId == rows[k].id
        && res.updates == Writes(rows[..k], acts[..k])
        && forall i | 0 <= i < k :: !(acts[i].Write? && updateFails[i]);
      PlanPrefix(v, today, rows, k);
    }
  }

  lemma FailsAreActions(v: Variant, today: Date, rows: seq<FestivalRow>, updateFails: seq<bool>)
    requires Valid(today) && |updateFails| == |rows|
    ensures forall i | 0 <= i < |rows| ::
      WriteFails(v, today, rows, updateFails, i) == (Actions(v, today, rows)[i].Write? && updateFails[i])
  {
  }

  lemma PlanPrefix(v: Variant, today: Date, rows: seq<FestivalRow>, k: nat)
    requires Valid(today) && k <= |rows|
    ensures Plan(v, today, rows[..k]) == Writes(rows[..k], Actions(v, today, rows)[..k])
  {
    assert Actions(v, today, rows[..k]) == Actions(v, today, rows)[..k];
  }

  lemma FormatInjective(a: Date, b: Date)
    requires Valid(a) && Valid(b) && 1000 <= a.year <= 9999 && 1000 <= b.year <= 9999
    requires Format(a) == Format(b)
    ensures a == b
  {
    ParseFormat(a);
    ParseFormat(b);
  }

  /** Moving an already moved date again changes it exactly when the stored day was 29 February
      and today is 1 March of a leap year. */
  lemma NextOccurrenceTwice(today: Date, original: Date)
    requires Valid(today) && Valid(original) && today.year >= 100
    ensures var n := NextOccurrence(today, original);
      NextOccurrence(today, n) != n <==>
        IsLeapDay(original) && IsLeapYear(today.year) && today.month == 3 && today.day == 1
  {
    NextOccurrenceCalendarDay(today, original);
  }

  /** A second run on the same day writes nothing, except for a 29 February festival on
      1 March of a leap year (see the README's findings). */
  lemma RerunWritesNothing(today: Date, stored: string)
    requires Valid(today) && 1000 <= today.year <= 9998
    requires RollRow(today, stored).Write?
    ensures var again := RollRow(today, RollRow(today, stored).date);
      again.Write? <==>
        IsLeapDay(ParseIsoDate(stored).value) && IsLeapYear(today.year) && today.month == 3 && today.day == 1
  {
    var d := ParseIsoDate(stored).value;
    var n := NextOccurrence(today, d);
    ParseFormat(n);
    NextOccurrenceTwice(today, d);
    if NextOccurrence(today, n) != n {
      var m := NextOccurrence(today, n);
      if Format(m) == Format(n) {
        FormatInjective(m, n);
      }
    }
  }

  /** The case above, written out: on 1 March 2028 a festival stored as "2028-02-29" is moved to
      "2029-03-01", and a second run the same day moves it back to "2028-03-01". */
  lemma LeapDayRerunMovesAgain()
    ensures RollRow(Date(2028, 3, 1), "2028-02-29") == Write("2029-03-01")
    ensures RollRow(Date(2028, 3, 1), "2029-03-01") == Write("2028-03-01")
  {
    LeapDayFirstRun();
    LeapDaySecondRun();
  }

  lemma FormatLeapDay2028()
    ensures Format(Date(2028, 2, 29)) == "2028-02-29"
  {
    assert Decimal.NatToString(2028) == "2028";
  }

  lemma FormatMarchFirst2029()
    ensures Format(Date(2029, 3, 1)) == "2029-03-01"
  {
    assert Decimal.NatToString(2029) == "2029";
  }

  lemma FormatMarchFirst2028()
    ensures Format(Date(2028, 3, 1)) == "2028-03-01"
  {
    assert Decimal.NatToString(2028) == "2028";
  }

  lemma LeapDayFirstRun()
    ensures RollRow(Date(2028, 3, 1), "2028-02-29") == Write("2029-03-01")
  {
    var leap := Date(2028, 2, 29);
    FormatLeapDay2028();
    ParseFormat(leap);
    assert ParseIsoDate("2028-02-29") == Some(leap);
    assert NextOccurrence(Date(2028, 3, 1), leap) == Date(2029, 3, 1);
    FormatMarchFirst2029();
  }

  lemma LeapDaySecondRun()
    ensures RollRow(Date(2028, 3, 1), "2029-03-01") == Write("2028-03-01")
  {
    var first := Date(2029, 3, 1);
    FormatMarchFirst2029();
    ParseFormat(first);
    assert ParseIsoDate("2029-03-01") == Some(first);
    assert NextOccurrence(Date(2028, 3, 1), first) == Date(2028, 3, 1);
    FormatMarchFirst2028();
  }

  /** The corrected next occurrence: a 29 February that does not exist in the target year is
      kept in February as its last day instead of spilling into March. */
  function NextOccurrenceClamped(today: Date, original: Date): (r: Date)
    requires Valid(today) && Valid(original)
    ensures Valid(r) && !Before(r, today)
    ensures r.month == original.month
    ensures r.day == original.day || (IsLeapDay(original) && !IsLeapYear(r.year) && r.day == 28)
  {
    var thisYear := Date(today.year, original.month, Clamp(today.year, original));
    if Before(thisYear, today) then Date(today.year + 1, original.month, Clamp(today.year + 1, original))
    else thisYear
  }

  function Clamp(y: nat, d: Date): (day: nat)
    requires Valid(d)
    ensures 1 <= day <= DaysInMonth(y, d.month)
  {
    if d.day <= DaysInMonth(y, d.month) then d.day else DaysInMonth(y, d.month)
  }

  /** With clamping, moving an already moved date again never changes it. */
  lemma NextOccurrenceClampedTwice(today: Date, original: Date)
    requires Valid(today) && Valid(original)
    ensures var n := NextOccurrenceClamped(today, original); NextOccurrenceClamped(today, n) == n
  {
  }

  function RollRowClamped(today: Date, stored: string): (a: RowAction)
    requires Valid(today)
    ensures a.Skip? <==> ParseIsoDate(stored).None?
    ensures a.Write? ==> a.date != stored && a.date == Format(NextOccurrenceClamped(today, ParseIsoDate(stored).value))
    ensures a.Keep? ==> stored == Format(NextOccurrenceClamped(today, ParseIsoDate(stored).value))
  {
    match ParseIsoDate(stored)
    case None => Skip
    case Some(d) =>
      var next := Format(NextOccurrenceClamped(today, d));
      if next != stored then Write(next) else Keep
  }

  /** The rows as a completed run leaves them: each written row carries its new date. */
  function Rolled(v: Variant, today: Date, rows: seq<FestivalRow>): (r: seq<FestivalRow>)
    requires Valid(today)
    ensures |r| == |rows|
    ensures forall i | 0 <= i < |rows| ::
      && r[i].id == rows[i].id
      && r[i].date == (if RollWith(v, today, rows[i].date).Write? then RollWith(v, today, rows[i].date).date
                       else rows[i].date)
  {
    seq(|rows|, i requires 0 <= i < |rows| =>
      var a := RollWith(v, today, rows[i].date);
      if a.Write? then FestivalRow(rows[i].id, a.date) else rows[i])
  }

  /** After a completed corrected run, planning again on the same day finds nothing to write. */
  lemma RerunPlanEmpty(today: Date, rows: seq<FestivalRow>)
    requires Valid(today) && 1000 <= today.year <= 9998
    ensures Plan(Corrected, today, Rolled(Corrected, today, rows)) == []
  {
    var again := Rolled(Corrected, today, rows);
    var acts := Actions(Corrected, today, again);
    forall i | 0 <= i < |acts| ensures !acts[i].Write? {
      if RollRowClamped(today, rows[i].date).Write? {
        RerunClampedWritesNothing(today, rows[i].date);
      }
    }
    WritesNone(again, acts);
  }

  /** The script's own run is not idempotent: on 1 March 2028 a completed run over a festival
      stored as "2028-02-29" leaves a row that the next run that day writes again. */
  lemma RerunPlanAsWritten()
    ensures var today, rows := Date(2028, 3, 1), [FestivalRow("f", "2028-02-29")];
      && Rolled(AsWritten, today, rows) == [FestivalRow("f", "2029-03-01")]
      && Plan(AsWritten, today, Rolled(AsWritten, today, rows)) == [Update("f", "2028-03-01")]
  {
    var today, rows := Date(2028, 3, 1), [FestivalRow("f", "2028-02-29")];
    LeapDayRerunMovesAgain();
    var again := [FestivalRow("f", "2029-03-01")];
    assert Rolled(AsWritten, today, rows) == again;
    assert again[..0] == [];
  }

  /** With clamping, a second run on the same day writes nothing. */
  lemma RerunClampedWritesNothing(today: Date, stored: string)
    requires Valid(today) && 1000 <= today.year <= 9998
    requires RollRowClamped(today, stored).Write?
    ensures !RollRowClamped(today, RollRowClamped(today, stored).date).Write?
  {
    var d := ParseIsoDate(stored).value;
    var n := NextOccurrenceClamped(today, d);
    ParseFormat(n);
    NextOccurrenceClampedTwice(today, d);
  }
}
