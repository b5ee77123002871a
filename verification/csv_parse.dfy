/** The CSV reader of the temple import script (`parseCSV` in `scripts/parse-csv-temples.ts`):
    lines split at '\n', fields split at commas outside double quotes, quote characters
    dropped, every field trimmed, and each row keyed by the header line. */
module CsvParse {
  import opened Seqs
  import opened JsString

  /** The loop's state after some prefix of a line: the finished fields, whether a quote is
      open, and the field being read. */
  datatype Scan = Scan(values: seq<string>, inQuotes: bool, current: string)

  const Start := Scan([], false, "")

  /** One iteration of the character loop. */
  function Step(st: Scan, c: char): (r: Scan)
    ensures c == '"' ==> r == st.(inQuotes := !st.inQuotes)
    ensures c == ',' && !st.inQuotes ==> r == Scan(st.values + [Trim(st.current)], false, "")
    ensures c != '"' && (c != ',' || st.inQuotes) ==> r == st.(current := st.current + [c])
  {
    if c == '"' then st.(inQuotes := !st.inQuotes)
    else if c == ',' && !st.inQuotes then Scan(st.values + [Trim(st.current)], st.inQuotes, "")
    else st.(current := st.current + [c])
  }

  /** The state after reading all of `line`. */
  function ScanLine(line: string): Scan
    decreases |line|
  {
    if |line| == 0 then Start else Step(ScanLine(line[..|line| - 1]), line[|line| - 1])
  }

  /** The fields of one line: the finished ones and the trimmed last one. */
  function ParseLine(line: string): (values: seq<string>)
    ensures |values| >= 1
  {
    var st := ScanLine(line);
    st.values + [Trim(st.current)]
  }

  /** The character loop as the script writes it; it computes `ParseLine`. */
  method ParseLineLoop(line: string) returns (values: seq<string>)
    ensures values == ParseLine(line)
  {
    values := [];
    var inQuotes := false;
    var current := "";
    var i := 0;
    while i < |line|
      invariant 0 <= i <= |line|
      invariant Scan(values, inQuotes, current) == ScanLine(line[..i])
    {
      assert line[..i + 1][..i] == line[..i];
      var c := line[i];
      if c == '"' {
        inQuotes := !inQuotes;
      } else if c == ',' && !inQuotes {
        values := values + [Trim(current)];
        current := "";
      } else {
        current := current + [c];
      }
      i := i + 1;
    }
    assert line[..i] == line;
    values := values + [Trim(current)];
  }

  function QuoteCount(s: string): nat
    decreases |s|
  {
    if |s| == 0 then 0 else QuoteCount(s[..|s| - 1]) + (if s[|s| - 1] == '"' then 1 else 0)
  }

  /** The commas preceded by an even number of quote characters. */
  function UnquotedCommas(s: string): nat
    decreases |s|
  {
    if |s| == 0 then 0
    else
      var init := s[..|s| - 1];
      UnquotedCommas(init) + (if s[|s| - 1] == ',' && QuoteCount(init) % 2 == 0 then 1 else 0)
  }

  /** A quote is open exactly after an odd number of quote characters, and one field is
      finished per comma outside quotes. */
  lemma {:induction false} ScanCounts(line: string)
    ensures ScanLine(line).inQuotes <==> QuoteCount(line) % 2 == 1
    ensures |ScanLine(line).values| == UnquotedCommas(line)
    decreases |line|
  {
    if |line| > 0 {
      ScanCounts(line[..|line| - 1]);
    }
  }

  /** A line yields one more field than it has commas outside quotes. */
  lemma ParseLineLength(line: string)
    ensures |ParseLine(line)| == UnquotedCommas(line) + 1
  {
    ScanCounts(line);
  }

  predicate NoQuote(s: string)
  {
    forall i | 0 <= i < |s| :: s[i] != '"'
  }

  lemma TrimKeepsNoQuote(s: string)
    requires NoQuote(s)
    ensures NoQuote(Trim(s))
  {
    TrimIsInfix(s);
    var k: nat :| k <= |s| && OccursAt(s, Trim(s), k);
    forall i | 0 <= i < |Trim(s)| ensures Trim(s)[i] != '"' {
      assert Trim(s)[i] == s[k + i];
    }
  }

  lemma {:induction false} ScanNoQuotes(line: string)
    ensures NoQuote(ScanLine(line).current)
    ensures forall i | 0 <= i < |ScanLine(line).values| :: NoQuote(ScanLine(line).values[i])
    decreases |line|
  {
    if |line| > 0 {
      var st := ScanLine(line[..|line| - 1]);
      ScanNoQuotes(line[..|line| - 1]);
      TrimKeepsNoQuote(st.current);
    }
  }

  /** Every field is trimmed and free of quote characters. */
  lemma ParseLineFields(line: string)
    ensures forall i | 0 <= i < |ParseLine(line)| :: NoQuote(ParseLine(line)[i]) && IsTrimmed(ParseLine(line)[i])
  {
    ScanNoQuotes(line);
    TrimKeepsNoQuote(ScanLine(line).current);
    var st := ScanLine(line);
    forall i | 0 <= i < |st.values| ensures IsTrimmed(st.values[i]) {
      ScanTrimmed(line);
    }
  }

  lemma {:induction false} ScanTrimmed(line: string)
    ensures forall i | 0 <= i < |ScanLine(line).values| :: IsTrimmed(ScanLine(line).values[i])
    decreases |line|
  {
    if |line| > 0 {
      ScanTrimmed(line[..|line| - 1]);
    }
  }

  function TrimAll(pieces: seq<string>): (r: seq<string>)
    ensures |r| == |pieces| && forall i | 0 <= i < |pieces| :: r[i] == Trim(pieces[i])
  {
    seq(|pieces|, i requires 0 <= i < |pieces| => Trim(pieces[i]))
  }

  lemma NoQuotePrefix(line: string)
    requires |line| > 0 && NoQuote(line)
    ensures NoQuote(line[..|line| - 1]) && line[|line| - 1] != '"'
  {
    var init := line[..|line| - 1];
    forall i | 0 <= i < |init| ensures init[i] != '"' {
      assert init[i] == line[i];
    }
  }

  /** On a line without quotes the loop is a plain split at commas. */
  lemma {:induction false} ScanWithoutQuotes(line: string)
    requires NoQuote(line)
    ensures !ScanLine(line).inQuotes
    ensures ScanLine(line).values == TrimAll(Split(line, {','})[..|Split(line, {','})| - 1])
    ensures ScanLine(line).current == Split(line, {','})[|Split(line, {','})| - 1]
    decreases |line|
  {
    if |line| > 0 {
      var init := line[..|line| - 1];
      var c := line[|line| - 1];
      NoQuotePrefix(line);
      ScanWithoutQuotes(init);
      var pieces := Split(init, {','});
      var st := ScanLine(init);
      assert ScanLine(line) == Step(st, c);
      if c == ',' {
        var next := pieces + [""];
        assert Split(line, {','}) == next;
        assert next[..|next| - 1] == pieces;
        assert Step(st, c) == Scan(st.values + [Trim(st.current)], false, "");
        assert pieces == pieces[..|pieces| - 1] + [pieces[|pieces| - 1]];
        TrimAllSnoc(pieces[..|pieces| - 1], pieces[|pieces| - 1]);
      } else {
        var next := pieces[..|pieces| - 1] + [pieces[|pieces| - 1] + [c]];
        assert Split(line, {','}) == next;
        assert next[..|next| - 1] == pieces[..|pieces| - 1];
        assert Step(st, c) == st.(current := st.current + [c]);
      }
    }
  }

  lemma TrimAllSnoc(pieces: seq<string>, p: string)
    ensures TrimAll(pieces + [p]) == TrimAll(pieces) + [Trim(p)]
  {
    var a := TrimAll(pieces + [p]);
    var b := TrimAll(pieces) + [Trim(p)];
    forall i | 0 <= i < |a| ensures a[i] == b[i] {
      if i < |pieces| {
        assert (pieces + [p])[i] == pieces[i];
      }
    }
  }

  /** Reference meaning on quote-free lines: split at every comma, then trim each piece. */
  lemma ParseLineWithoutQuotes(line: string)
    requires NoQuote(line)
    ensures ParseLine(line) == TrimAll(Split(line, {','}))
  {
    ScanWithoutQuotes(line);
    var pieces := Split(line, {','});
    assert pieces == pieces[..|pieces| - 1] + [pieces[|pieces| - 1]];
  }

  lemma {:induction false} JoinNoQuote(pieces: seq<string>)
    requires |pieces| >= 1 && forall i | 0 <= i < |pieces| :: NoQuote(pieces[i])
    ensures NoQuote(Join(pieces, ','))
    decreases |pieces|
  {
    if |pieces| > 1 {
      JoinNoQuote(pieces[..|pieces| - 1]);
    }
  }

  /** Writing trimmed fields without commas or quotes as a line and reading it back gives the
      fields. */
  lemma ParseJoinRoundTrip(fields: seq<string>)
    requires |fields| >= 1
    requires forall i | 0 <= i < |fields| :: NoQuote(fields[i]) && Avoids(fields[i], {','}) && IsTrimmed(fields[i])
    ensures ParseLine(Join(fields, ',')) == fields
  {
    JoinNoQuote(fields);
    ParseLineWithoutQuotes(Join(fields, ','));
    SplitJoin(fields, ',');
    forall i | 0 <= i < |fields| ensures Trim(fields[i]) == fields[i] {
      TrimOfTrimmed(fields[i]);
    }
  }

  lemma {:induction false} ScanInsideQuotes(v: string)
    requires NoQuote(v)
    ensures ScanLine(['"'] + v) == Scan([], true, v)
    decreases |v|
  {
    var line := ['"'] + v;
    if |v| == 0 {
      assert line == ['"'] && line[..0] == [];
      assert ScanLine(line) == Step(Start, '"');
    } else {
      var init := v[..|v| - 1];
      var c := v[|v| - 1];
      NoQuotePrefix(v);
      ScanInsideQuotes(init);
      assert line[..|line| - 1] == ['"'] + init;
      assert line[|line| - 1] == c;
      assert ScanLine(line) == Step(Scan([], true, init), c);
      assert init + [c] == v;
    }
  }

  /** Commas between quotes stay in the field: `"Hanamkonda, Warangal"` is one value. */
  lemma QuotedFieldKeepsCommas(v: string)
    requires NoQuote(v)
    ensures ParseLine(['"'] + v + ['"']) == [Trim(v)]
  {
    ScanInsideQuotes(v);
    assert (['"'] + v + ['"'])[..|v| + 1] == ['"'] + v;
  }

  /** `values[i] || ''`: a missing field reads as "". */
  function ValueAt(values: seq<string>, i: nat): string
  {
    if i < |values| then values[i] else ""
  }

  /** The position of the last occurrence of `h`. */
  function LastIndex(s: seq<string>, h: string): (i: nat)
    requires h in s
    ensures i < |s| && s[i] == h
    ensures forall j | i < j < |s| :: s[j] != h
    decreases |s|
  {
    if s[|s| - 1] == h then |s| - 1
    else
      assert h in s[..|s| - 1] by {
        var k :| 0 <= k < |s| && s[k] == h;
        assert s[..|s| - 1][k] == h;
      }
      LastIndex(s[..|s| - 1], h)
  }

  /** `headers.forEach((header, i) => row[header] = values[i] || '')`: every header is a key,
      and a header that occurs twice takes the value of its last column. */
  function Record(headers: seq<string>, values: seq<string>): (row: map<string, string>)
    ensures forall h :: h in row <==> h in headers
    ensures forall h | h in headers :: row[h] == ValueAt(values, LastIndex(headers, h))
    decreases |headers|
  {
    if |headers| == 0 then map[]
    else
      var n := |headers| - 1;
      var init := headers[..n];
      var row := Record(init, values)[headers[n] := ValueAt(values, n)];
      assert forall h | h in headers && h != headers[n] :: h in init && LastIndex(headers, h) == LastIndex(init, h);
      assert forall h | h in init :: h in headers;
      row
  }

  /** `csv.trim().split('\n')`. */
  function Lines(csv: string): (lines: seq<string>)
    ensures |lines| >= 1
  {
    Split(Trim(csv), {'\n'})
  }

  /** `lines[0].split(',').map(h => h.trim())`: the header line is split without regard to
      quotes. */
  function Headers(csv: string): seq<string>
  {
    TrimAll(Split(Lines(csv)[0], {','}))
  }

  /** The fields of each line. */
  function ParseLines(lines: seq<string>): (fields: seq<seq<string>>)
    ensures |fields| == |lines|
    ensures forall i | 0 <= i < |lines| :: fields[i] == ParseLine(lines[i])
    decreases |lines|
  {
    if |lines| == 0 then []
    else
      var init := lines[..|lines| - 1];
      var r := ParseLines(init) + [ParseLine(lines[|lines| - 1])];
      assert forall i | 0 <= i < |init| :: init[i] == lines[i];
      r
  }

  /** One record per field list, all under the same headers. */
  function Records(headers: seq<string>, fields: seq<seq<string>>): (rows: seq<map<string, string>>)
    ensures |rows| == |fields|
    ensures forall i | 0 <= i < |fields| :: rows[i] == Record(headers, fields[i])
    decreases |fields|
  {
    if |fields| == 0 then []
    else
      var init := fields[..|fields| - 1];
      var r := Records(headers, init) + [Record(headers, fields[|fields| - 1])];
      assert forall i | 0 <= i < |init| :: init[i] == fields[i];
      r
  }

  /** `parseCSV(csv)`: one record per line after the header, in order. */
  function ParseCsv(csv: string): (rows: seq<map<string, string>>)
    ensures |rows| == |Lines(csv)| - 1
    ensures forall i | 0 <= i < |rows| :: rows[i] == Record(Headers(csv), ParseLine(Lines(csv)[i + 1]))
  {
    Records(Headers(csv), ParseLines(Lines(csv)[1..]))
  }
}
