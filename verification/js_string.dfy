/** The slice of ECMAScript string semantics the application relies on: `trim`,
    `toLowerCase`, `includes` and `split`. A JavaScript string is modelled as a
    sequence of characters. */
module JsString {

  /** LineTerminator code points (section 12.3 of ECMA-262): what `.` in a regular expression does not match. */
  predicate IsLineTerminator(c: char)
  {
    c == '\n' || c == '\r' || c == '\U{2028}' || c == '\U{2029}'
  }

  /** WhiteSpace and LineTerminator code points (sections 12.2 and 12.3 of ECMA-262):
      what `trim` strips and `\s` matches. */
  predicate IsWhiteSpace(c: char)
  {
    || IsLineTerminator(c)
    || c == '\t' || c == '\U{000B}' || c == '\U{000C}' || c == ' ' || c == '\U{00A0}' || c == '\U{FEFF}'
    || c == '\U{1680}' || ('\U{2000}' <= c <= '\U{200A}') || c == '\U{202F}' || c == '\U{205F}' || c == '\U{3000}'
  }

  predicate IsAsciiLetter(c: char)
  {
    ('a' <= c <= 'z') || ('A' <= c <= 'Z')
  }

  /** `\d`: the ASCII digits. */
  predicate IsDigit(c: char)
  {
    '0' <= c <= '9'
  }

  /** No white space at either end. */
  predicate IsTrimmed(s: string)
  {
    |s| == 0 || (!IsWhiteSpace(s[0]) && !IsWhiteSpace(s[|s| - 1]))
  }

  /** The first position at or after `i` that is not white space (or `|s|`). */
  function SkipSpace(s: string, i: nat): (k: nat)
    requires i <= |s|
    ensures i <= k <= |s|
    ensures forall j | i <= j < k :: IsWhiteSpace(s[j])
    ensures k == |s| || !IsWhiteSpace(s[k])
    decreases |s| - i
  {
    if i < |s| && IsWhiteSpace(s[i]) then SkipSpace(s, i + 1) else i
  }

  /** The end of `s[..j]` once the white space before `j` is dropped. */
  function BackSpace(s: string, j: nat): (k: nat)
    requires j <= |s|
    ensures k <= j
    ensures forall i | k <= i < j :: IsWhiteSpace(s[i])
    ensures k == 0 || !IsWhiteSpace(s[k - 1])
  {
    if j > 0 && IsWhiteSpace(s[j - 1]) then BackSpace(s, j - 1) else j
  }

  function TrimStart(s: string): (r: string)
    ensures |r| <= |s| && r == s[|s| - |r|..]
    ensures |r| == 0 || !IsWhiteSpace(r[0])
    ensures forall i | 0 <= i < |s| - |r| :: IsWhiteSpace(s[i])
  {
    s[SkipSpace(s, 0)..]
  }

  function TrimEnd(s: string): (r: string)
    ensures |r| <= |s| && r == s[..|r|]
    ensures |r| == 0 || !IsWhiteSpace(r[|r| - 1])
    ensures forall i | |r| <= i < |s| :: IsWhiteSpace(s[i])
  {
    s[..BackSpace(s, |s|)]
  }

  /** `String.prototype.trim`: the infix of `s` left after removing white space at both ends. */
  function Trim(s: string): (r: string)
    ensures IsTrimmed(r)
  {
    TrimEnd(TrimStart(s))
  }

  /** What `trim` returns is an infix of its argument. */
  lemma TrimIsInfix(s: string)
    ensures Contains(s, Trim(s))
  {
    var a := TrimStart(s);
    var r := TrimEnd(a);
    assert OccursAt(s, r, |s| - |a|) by {
      assert r == s[|s| - |a|..][..|r|] == s[|s| - |a|..|s| - |a| + |r|];
    }
  }

  /** Trimming removes exactly the white space: it yields "" iff `s` is all white space. */
  lemma TrimEmptyIffAllWhiteSpace(s: string)
    ensures Trim(s) == "" <==> forall i | 0 <= i < |s| :: IsWhiteSpace(s[i])
  {
    var a := TrimStart(s);
    if |a| > 0 {
      assert a[0] == s[|s| - |a|];
    }
  }

  /** A string without white space at its ends is its own trim; in particular `trim` is idempotent. */
  lemma TrimOfTrimmed(s: string)
    requires IsTrimmed(s)
    ensures Trim(s) == s
  {
    assert SkipSpace(s, 0) == 0;
    assert TrimStart(s) == s;
    assert BackSpace(s, |s|) == |s|;
  }

  lemma TrimIdempotent(s: string)
    ensures Trim(Trim(s)) == Trim(s)
  {
    TrimOfTrimmed(Trim(s));
  }

  function LowerChar(c: char): char
  {
    if 'A' <= c <= 'Z' then (c as int + 32) as char else c
  }

  /** `String.prototype.toLowerCase`, restricted to ASCII letters (other characters are kept). */
  function Lower(s: string): (r: string)
    ensures |r| == |s|
    ensures forall i | 0 <= i < |s| :: r[i] == LowerChar(s[i])
  {
    seq(|s|, i requires 0 <= i < |s| => LowerChar(s[i]))
  }

  predicate OccursAt(s: string, sub: string, i: nat)
  {
    i + |sub| <= |s| && s[i..i + |sub|] == sub
  }

  /** `String.prototype.includes`. */
  predicate Contains(s: string, sub: string)
  {
    exists i: nat | i <= |s| :: OccursAt(s, sub, i)
  }

  lemma ContainsEmpty(s: string)
    ensures Contains(s, "")
  {
    assert OccursAt(s, "", 0);
  }

  lemma ContainsSelf(s: string)
    ensures Contains(s, s)
  {
    assert OccursAt(s, s, 0);
  }

  /** Number of characters of `s` that belong to `seps`. */
  function SepCount(s: string, seps: set<char>): nat
  {
    if |s| == 0 then 0
    else SepCount(s[..|s| - 1], seps) + (if s[|s| - 1] in seps then 1 else 0)
  }

  predicate Avoids(piece: string, seps: set<char>)
  {
    forall j | 0 <= j < |piece| :: piece[j] !in seps
  }

  /** `String.prototype.split` at every character of `seps` (a separator regular expression
      of one-character alternatives such as `/\.|-/`). */
  function Split(s: string, seps: set<char>): (r: seq<string>)
    ensures |r| == SepCount(s, seps) + 1
    ensures forall i | 0 <= i < |r| :: Avoids(r[i], seps)
  {
    if |s| == 0 then [""]
    else
      var init := Split(s[..|s| - 1], seps);
      var c := s[|s| - 1];
      if c in seps then init + [""]
      else init[..|init| - 1] + [init[|init| - 1] + [c]]
  }

  /** `Array.prototype.join` with a one-character separator. */
  function Join(pieces: seq<string>, sep: char): string
    requires |pieces| >= 1
  {
    if |pieces| == 1 then pieces[0]
    else Join(pieces[..|pieces| - 1], sep) + [sep] + pieces[|pieces| - 1]
  }

  lemma JoinLastPiece(pieces: seq<string>, sep: char, c: char)
    requires |pieces| >= 1
    ensures Join(pieces[..|pieces| - 1] + [pieces[|pieces| - 1] + [c]], sep) == Join(pieces, sep) + [c]
  {
    var p' := pieces[..|pieces| - 1] + [pieces[|pieces| - 1] + [c]];
    if |pieces| > 1 {
      assert p'[..|p'| - 1] == pieces[..|pieces| - 1];
    }
  }

  /** Splitting at one separator and joining back with it gives the original string. */
  lemma {:induction false} JoinSplit(s: string, sep: char)
    ensures Join(Split(s, {sep}), sep) == s
    decreases |s|
  {
    if |s| > 0 {
      var init := s[..|s| - 1];
      JoinSplit(init, sep);
      var pieces := Split(init, {sep});
      var c := s[|s| - 1];
      if c == sep {
        var r := pieces + [""];
        assert r[..|r| - 1] == pieces;
      } else {
        JoinLastPiece(pieces, sep, c);
      }
      assert init + [c] == s;
    }
  }

  /** Splitting after one more separator starts a new, empty piece. */
  lemma SplitSnocSep(s: string, c: char, seps: set<char>)
    requires c in seps
    ensures Split(s + [c], seps) == Split(s, seps) + [""]
  {
    assert (s + [c])[..|s|] == s;
  }

  /** Splitting after one more ordinary character extends the last piece. */
  lemma SplitSnocOther(s: string, c: char, seps: set<char>)
    requires c !in seps
    ensures var r := Split(s, seps); Split(s + [c], seps) == r[..|r| - 1] + [r[|r| - 1] + [c]]
  {
    assert (s + [c])[..|s|] == s;
  }

  /** Joining separator-free pieces and splitting again gives the pieces back. */
  lemma {:induction false} SplitJoin(pieces: seq<string>, sep: char)
    requires |pieces| >= 1
    requires forall i | 0 <= i < |pieces| :: Avoids(pieces[i], {sep})
    ensures Split(Join(pieces, sep), {sep}) == pieces
    decreases |pieces|, |pieces[|pieces| - 1]|, 1
  {
    if |pieces[|pieces| - 1]| > 0 {
      SplitJoinLastChar(pieces, sep);
    } else if |pieces| > 1 {
      SplitJoinEmptyLast(pieces, sep);
    }
  }

  lemma {:induction false} SplitJoinLastChar(pieces: seq<string>, sep: char)
    requires |pieces| >= 1 && |pieces[|pieces| - 1]| > 0
    requires forall i | 0 <= i < |pieces| :: Avoids(pieces[i], {sep})
    ensures Split(Join(pieces, sep), {sep}) == pieces
    decreases |pieces|, |pieces[|pieces| - 1]|, 0
  {
    var last := pieces[|pieces| - 1];
    var c := last[|last| - 1];
    var shorter := pieces[..|pieces| - 1] + [last[..|last| - 1]];
    assert shorter[..|shorter| - 1] == pieces[..|pieces| - 1];
    assert last[..|last| - 1] + [c] == last;
    assert shorter[..|shorter| - 1] + [shorter[|shorter| - 1] + [c]] == pieces;
    SplitJoin(shorter, sep);
    JoinLastPiece(shorter, sep, c);
    assert c !in {sep};
    var js := Join(shorter, sep);
    assert Join(pieces, sep) == js + [c];
    SplitSnocOther(js, c, {sep});
  }

  lemma {:induction false} SplitJoinEmptyLast(pieces: seq<string>, sep: char)
    requires |pieces| > 1 && pieces[|pieces| - 1] == ""
    requires forall i | 0 <= i < |pieces| :: Avoids(pieces[i], {sep})
    ensures Split(Join(pieces, sep), {sep}) == pieces
    decreases |pieces|, 0, 0
  {
    var init := pieces[..|pieces| - 1];
    SplitJoin(init, sep);
    var js := Join(init, sep);
    assert Join(pieces, sep) == js + [sep] + "";
    assert js + [sep] + "" == js + [sep];
    SplitSnocSep(js, sep, {sep});
    assert init + [""] == pieces;
  }
}
