/** Calendar dates as the festival code reads them: a year, a month 1..12 and a day.
    A stored festival date is the text "YYYY-MM-DD"; the local calendar day of `new Date(text)`
    is the written day (a non-negative UTC offset is assumed, see the README). */
module Calendar {
  import opened Options
  import opened Decimal
  import opened JsString

  datatype Date = Date(year: nat, month: nat, day: nat)

  predicate IsLeapYear(y: nat)
  {
    y % 4 == 0 && (y % 100 != 0 || y % 400 == 0)
  }

  function DaysInMonth(y: nat, m: nat): (n: nat)
    requires 1 <= m <= 12
    ensures 28 <= n <= 31
  {
    if m == 2 then (if IsLeapYear(y) then 29 else 28)
    else if m == 4 || m == 6 || m == 9 || m == 11 then 30
    else 31
  }

  predicate Valid(d: Date)
  {
    1 <= d.month <= 12 && 1 <= d.day <= DaysInMonth(d.year, d.month)
  }

  /** `new Date(year, monthIndex, day)` for a month index 0..11 and a day 1..31: years 0..99
      mean 1900..1999, and a day past the end of the month carries into the next month. */
  function MakeDate(year: nat, monthIndex: nat, day: nat): (r: Date)
    requires monthIndex < 12 && 1 <= day <= 31
    ensures Valid(r)
    ensures var y := if year <= 99 then 1900 + year else year;
      if day <= DaysInMonth(y, monthIndex + 1) then r == Date(y, monthIndex + 1, day)
      else r == Date(y, monthIndex + 2, day - DaysInMonth(y, monthIndex + 1))
  {
    var y := if year <= 99 then 1900 + year else year;
    var dim := DaysInMonth(y, monthIndex + 1);
    if day <= dim then Date(y, monthIndex + 1, day) else Date(y, monthIndex + 2, day - dim)
  }

  /** Strictly earlier on the calendar. */
  predicate Before(a: Date, b: Date)
  {
    a.year < b.year || (a.year == b.year && (a.month < b.month || (a.month == b.month && a.day < b.day)))
  }

  /** A number that orders valid dates as time does (`getTime()` at local midnight). */
  function DateKey(d: Date): int
  {
    d.year * 10000 + d.month * 100 + d.day
  }

  lemma DateKeyOrder(a: Date, b: Date)
    requires Valid(a) && Valid(b)
    ensures Before(a, b) <==> DateKey(a) < DateKey(b)
    ensures a == b <==> DateKey(a) == DateKey(b)
  {
  }

  /** `toYYYYMMDD`: the year unpadded, month and day padded to two digits, joined by '-'. */
  function Format(d: Date): (r: string)
    requires Valid(d)
    ensures |r| == |NatToString(d.year)| + 6 && r[|r| - 6] == '-' && r[|r| - 3] == '-'
  {
    NatToString(d.year) + "-" + PadStart2(NatToString(d.month)) + "-" + PadStart2(NatToString(d.day))
  }

  /** `new Date(text)` on the date-only ISO form "YYYY-MM-DD" (section 21.4.1.32 of
      ECMA-262): `None` when the text is not of that form or names no real day. */
  function ParseIsoDate(s: string): (r: Option<Date>)
    ensures r.Some? ==> Valid(r.value)
  {
    if |s| == 10 && s[4] == '-' && s[7] == '-' && AllDigits(s[..4]) && AllDigits(s[5..7]) && AllDigits(s[8..]) then
      var d := Date(DigitsValue(s[..4]), DigitsValue(s[5..7]), DigitsValue(s[8..]));
      if Valid(d) then Some(d) else None
    else None
  }

  /** Formatting a date of a four-digit year and parsing the text gives the date back. */
  lemma ParseFormat(d: Date)
    requires Valid(d) && 1000 <= d.year <= 9999
    ensures ParseIsoDate(Format(d)) == Some(d)
  {
    var ys := NatToString(d.year);
    var ms := PadStart2(NatToString(d.month));
    var ds := PadStart2(NatToString(d.day));
    DigitsValueOfNatToString(d.year);
    PaddedValue(d.month);
    PaddedValue(d.day);
    var s := Format(d);
    assert s == ys + ("-" + ms + "-" + ds);
    assert s[..4] == ys;
    assert s[5..7] == ms;
    assert s[8..] == ds;
  }

  /** A stored date text whose year has no leading zero is exactly the formatting of its
      parse, so the roll-forward rewrites a row only when the day really changes. */
  lemma FormatParse(s: string)
    requires ParseIsoDate(s).Some? && s[0] != '0'
    ensures Format(ParseIsoDate(s).value) == s
  {
    var d := ParseIsoDate(s).value;
    NatToStringOfDigitsValue(s[..4]);
    TwoDigitRoundTrip(s[5..7]);
    TwoDigitRoundTrip(s[8..]);
    assert s == s[..4] + "-" + s[5..7] + "-" + s[8..];
  }
}
