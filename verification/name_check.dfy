/** The spam heuristic `isValidTempleName` shared, in two identical copies, by the submission
    form and the moderation screen: a name is refused when any of eight regular expressions
    matches it after `trim`. The expressions carry the `i` flag and no `u` flag, so `[a-z]`
    matches exactly the ASCII letters, `\d` the ASCII digits, `\s` white space and line
    terminators, and `.` anything but a line terminator. */
module NameCheck {
  import opened JsString

  /** The eight patterns, in the order the source lists them. */
  datatype NameRule =
    | IsTest            // /^test$/i
    | IsHello           // /^hello$/i
    | TestThenTemple    // /test.*temple/i
    | FewLetters        // /^[a-z]{1,5}$/i
    | DigitRun          // /^[a-z]*\d+[a-z]*$/i
    | LettersThenU0001  // /^[a-z]{2,4}\1+/i
    | NonLetterStart    // /^[^a-z\s]/i
    | OneOrTwoChars     // /^.{1,2}$/i

  const Rules: seq<NameRule> :=
    [IsTest, IsHello, TestThenTemple, FewLetters, DigitRun, LettersThenU0001, NonLetterStart, OneOrTwoChars]

  lemma EveryRuleListed(rule: NameRule)
    ensures rule in Rules
  {
    match rule
    case IsTest => assert Rules[0] == rule;
    case IsHello => assert Rules[1] == rule;
    case TestThenTemple => assert Rules[2] == rule;
    case FewLetters => assert Rules[3] == rule;
    case DigitRun => assert Rules[4] == rule;
    case LettersThenU0001 => assert Rules[5] == rule;
    case NonLetterStart => assert Rules[6] == rule;
    case OneOrTwoChars => assert Rules[7] == rule;
  }

  predicate LettersIn(t: string, lo: nat, hi: nat)
    requires lo <= hi <= |t|
  {
    forall k | lo <= k < hi :: IsAsciiLetter(t[k])
  }

  predicate DigitsIn(t: string, lo: nat, hi: nat)
    requires lo <= hi <= |t|
  {
    forall k | lo <= k < hi :: IsDigit(t[k])
  }

  /** No line terminator in `t[lo..hi]`, so `.` matches each of its characters. */
  predicate OnOneLine(t: string, lo: nat, hi: nat)
    requires lo <= hi <= |t|
  {
    forall k | lo <= k < hi :: !IsLineTerminator(t[k])
  }

  /** Whether a pattern finds a match in `t`. A pattern without `^` may match anywhere; `$`
      without the `m` flag matches only at the end. The `\1` of the sixth pattern refers to no
      capturing group, so by section B.1.2 of ECMA-262 it is the legacy octal escape for the
      character U+0001: the pattern does not detect repetitions. */
  predicate Matches(rule: NameRule, t: string)
  {
    match rule
    case IsTest => Lower(t) == "test"
    case IsHello => Lower(t) == "hello"
    case TestThenTemple =>
      exists i: nat, j: nat | i + 4 <= j && j + 6 <= |t| ::
        OccursAt(Lower(t), "test", i) && OccursAt(Lower(t), "temple", j) && OnOneLine(t, i + 4, j)
    case FewLetters => 1 <= |t| <= 5 && LettersIn(t, 0, |t|)
    case DigitRun =>
      exists i: nat, j: nat | i < j <= |t| :: LettersIn(t, 0, i) && DigitsIn(t, i, j) && LettersIn(t, j, |t|)
    case LettersThenU0001 =>
      exists k: nat | 2 <= k <= 4 && k < |t| :: LettersIn(t, 0, k) && t[k] == '\U{0001}'
    case NonLetterStart => |t| >= 1 && !IsAsciiLetter(t[0]) && !IsWhiteSpace(t[0])
    case OneOrTwoChars => 1 <= |t| <= 2 && OnOneLine(t, 0, |t|)
  }

  /** `!rules.some(pattern => pattern.test(t))`. */
  predicate NoneMatches(rules: seq<NameRule>, t: string)
    decreases |rules|
  {
    |rules| == 0 || (!Matches(rules[0], t) && NoneMatches(rules[1..], t))
  }

  lemma {:induction false} NoneMatchesAll(rules: seq<NameRule>, t: string)
    ensures NoneMatches(rules, t) <==> forall k | 0 <= k < |rules| :: !Matches(rules[k], t)
    decreases |rules|
  {
    if |rules| > 0 {
      NoneMatchesAll(rules[1..], t);
      assert forall k | 1 <= k < |rules| :: rules[k] == rules[1..][k - 1];
    }
  }

  /** `isValidTempleName(name)`: none of the eight patterns matches the trimmed name (see
      `ValidTempleNameMeaning`). */
  predicate IsValidTempleName(name: string)
  {
    PassesPatterns(Trim(name))
  }

  /** The heuristic accepts a name exactly when no pattern matches it after trimming. */
  lemma ValidTempleNameMeaning(name: string)
    ensures IsValidTempleName(name) <==> forall rule: NameRule :: !Matches(rule, Trim(name))
  {
  }

  function PassesPatterns(t: string): (ok: bool)
    ensures ok <==> forall rule: NameRule :: !Matches(rule, t)
  {
    NoneMatchesAll(Rules, t);
    assert forall rule: NameRule :: rule in Rules by {
      forall rule: NameRule ensures rule in Rules { EveryRuleListed(rule); }
    }
    NoneMatches(Rules, t)
  }

  /** The `some` loop over a pattern list, stopping at the first match. */
  method AnyMatches(rules: seq<NameRule>, t: string) returns (found: bool)
    ensures found <==> exists k | 0 <= k < |rules| :: Matches(rules[k], t)
  {
    var i := 0;
    while i < |rules|
      invariant 0 <= i <= |rules|
      invariant forall k | 0 <= k < i :: !Matches(rules[k], t)
    {
      if Matches(rules[i], t) {
        return true;
      }
      i := i + 1;
    }
    return false;
  }

  /** `isValidTempleName` as the source runs it: the loop over the eight patterns. */
  method CheckTempleName(name: string) returns (ok: bool)
    ensures ok <==> forall rule: NameRule :: !Matches(rule, Trim(name))
  {
    var t := Trim(name);
    var found := AnyMatches(Rules, t);
    if !found {
      NoListedRuleMatches(t);
    }
    ok := !found;
  }

  /** A text that no listed pattern matches matches no pattern at all. */
  lemma NoListedRuleMatches(t: string)
    requires forall k | 0 <= k < |Rules| :: !Matches(Rules[k], t)
    ensures forall rule: NameRule :: !Matches(rule, t)
  {
    forall rule: NameRule ensures !Matches(rule, t) { EveryRuleListed(rule); }
  }

  /** An empty or all-white-space name passes the heuristic. */
  lemma BlankNamePasses(name: string)
    requires forall i | 0 <= i < |name| :: IsWhiteSpace(name[i])
    ensures IsValidTempleName(name)
  {
    TrimEmptyIffAllWhiteSpace(name);
  }

  /** One to five ASCII letters ("test", "hello", "ksks") are refused. */
  lemma FewLettersRefused(name: string)
    requires 1 <= |Trim(name)| <= 5 && forall i | 0 <= i < |Trim(name)| :: IsAsciiLetter(Trim(name)[i])
    ensures !IsValidTempleName(name)
  {
    assert Matches(FewLetters, Trim(name));
  }

  /** Any name of one or two characters after trimming is refused. */
  lemma ShortNameRefused(name: string)
    requires 1 <= |Trim(name)| <= 2
    ensures !IsValidTempleName(name)
  {
    var t := Trim(name);
    assert OnOneLine(t, 0, |t|) by {
      forall k | 0 <= k < |t| ensures !IsLineTerminator(t[k]) {
        assert k == 0 || k == |t| - 1;
      }
    }
    assert Matches(OneOrTwoChars, t);
  }

  /** A trimmed name that does not start with an ASCII letter ("1Temple") is refused. */
  lemma NonLetterStartRefused(name: string)
    requires |Trim(name)| >= 1 && !IsAsciiLetter(Trim(name)[0])
    ensures !IsValidTempleName(name)
  {
    assert Matches(NonLetterStart, Trim(name));
  }

  /** "test" followed later on the same line by "temple", in any ASCII case, is refused. */
  lemma TestThenTempleRefused(name: string, i: nat, j: nat)
    requires i + 4 <= j && j + 6 <= |Trim(name)|
    requires OccursAt(Lower(Trim(name)), "test", i) && OccursAt(Lower(Trim(name)), "temple", j)
    requires OnOneLine(Trim(name), i + 4, j)
    ensures !IsValidTempleName(name)
  {
    assert Matches(TestThenTemple, Trim(name));
  }

  /** The digit pattern needs the whole trimmed name to be letters and digits, so a name with
      a space or any other sign ("Sri Temple 2") escapes it. */
  lemma DigitRunOnlyAlphanumeric(t: string)
    requires Matches(DigitRun, t)
    ensures exists k | 0 <= k < |t| :: IsDigit(t[k])
    ensures forall k | 0 <= k < |t| :: IsAsciiLetter(t[k]) || IsDigit(t[k])
  {
    var i: nat, j: nat :| i < j <= |t| && LettersIn(t, 0, i) && DigitsIn(t, i, j) && LettersIn(t, j, |t|);
    assert IsDigit(t[i]);
  }

  /** The sixth pattern fires only on a name holding the control character U+0001 after two to
      four letters; names made of letters, digits and spaces never trigger it. */
  lemma RepeatRuleNeedsU0001(t: string)
    requires Matches(LettersThenU0001, t)
    ensures exists k | 2 <= k <= 4 && k < |t| :: t[k] == '\U{0001}'
  {
  }

  lemma TestThenTempleNeedsTest(t: string)
    requires Matches(TestThenTemple, t)
    ensures exists i | 0 <= i && i + 4 <= |t| :: TestWordAt(t, i)
  {
    var i: nat, j: nat :| i + 4 <= j && j + 6 <= |t| && OccursAt(Lower(t), "test", i)
      && OccursAt(Lower(t), "temple", j) && OnOneLine(t, i + 4, j);
    var l := Lower(t);
    assert l[i..i + 4] == "test";
    assert l[i..i + 4][0] == l[i] && l[i..i + 4][1] == l[i + 1] && l[i..i + 4][2] == l[i + 2] && l[i..i + 4][3] == l[i + 3];
    assert TestWordAt(t, i);
  }

  /** "test", in any ASCII case, starts at position `i` of `t`. */
  predicate TestWordAt(t: string, i: nat)
    requires i + 4 <= |t|
  {
    LowerChar(t[i]) == 't' && LowerChar(t[i + 1]) == 'e' && LowerChar(t[i + 2]) == 's' && LowerChar(t[i + 3]) == 't'
  }

  /** Refused names: "test", "hello" and "ksks" as short letter runs, "ab" as too short and
      "1Temple" for its leading digit. */
  lemma TestRefused()
    ensures !IsValidTempleName("test")
  {
    TrimOfTrimmed("test");
    FewLettersRefused("test");
  }

  lemma HelloRefused()
    ensures !IsValidTempleName("hello")
  {
    TrimOfTrimmed("hello");
    FewLettersRefused("hello");
  }

  lemma KsksRefused()
    ensures !IsValidTempleName("ksks")
  {
    TrimOfTrimmed("ksks");
    FewLettersRefused("ksks");
  }

  lemma TwoCharsRefused()
    ensures !IsValidTempleName("ab")
  {
    TrimOfTrimmed("ab");
    ShortNameRefused("ab");
  }

  lemma LeadingDigitRefused()
    ensures !IsValidTempleName("1Temple")
  {
    TrimOfTrimmed("1Temple");
    NonLetterStartRefused("1Temple");
  }

  /** Letters, then digits, then letters: refused. */
  lemma DigitRunExample()
    ensures !IsValidTempleName("temple123")
  {
    var t := "temple123";
    TrimOfTrimmed(t);
    assert LettersIn(t, 0, 6) && DigitsIn(t, 6, 9) && LettersIn(t, 9, 9);
    assert Matches(DigitRun, t);
  }

  /** No "test" in any ASCII case occurs in `t`. */
  predicate NoTestWord(t: string)
  {
    forall i | 0 <= i && i + 4 <= |t| :: !TestWordAt(t, i)
  }

  /** At least six characters, a letter first, no "test", a character at `p` that is neither
      a letter nor a digit, and no U+0001 in positions 2 to 4. */
  predicate LongWords(t: string, p: nat)
  {
    && |t| >= 6 && IsAsciiLetter(t[0]) && NoTestWord(t)
    && p < |t| && !IsAsciiLetter(t[p]) && !IsDigit(t[p])
    && t[2] != '\U{0001}' && t[3] != '\U{0001}' && t[4] != '\U{0001}'
  }

  /** A trimmed name of at least six characters that starts with a letter, holds no "test",
      has a character that is neither a letter nor a digit, and has no U+0001 in positions 2
      to 4, passes. */
  lemma LongWordsPass(name: string, p: nat)
    requires LongWords(Trim(name), p)
    ensures IsValidTempleName(name)
  {
    var t := Trim(name);
    NoTestNoTemple(t);
    NoDigitRunWith(t, p);
    NotExact(t);
    NoU0001(t);
    PassesWhen(name);
  }

  lemma PassesWhen(name: string)
    requires var t := Trim(name);
      && !Matches(IsTest, t) && !Matches(IsHello, t) && !Matches(TestThenTemple, t)
      && |t| >= 6 && IsAsciiLetter(t[0]) && !Matches(DigitRun, t) && !Matches(LettersThenU0001, t)
    ensures IsValidTempleName(name)
  {
    var t := Trim(name);
    forall rule: NameRule ensures !Matches(rule, t) {
      if rule == FewLetters || rule == NonLetterStart || rule == OneOrTwoChars {
        assert |t| >= 6 && IsAsciiLetter(t[0]);
      }
    }
  }

  lemma NoTestNoTemple(t: string)
    requires NoTestWord(t)
    ensures !Matches(TestThenTemple, t)
  {
    if Matches(TestThenTemple, t) { TestThenTempleNeedsTest(t); }
  }

  lemma NoDigitRunWith(t: string, p: nat)
    requires p < |t| && !IsAsciiLetter(t[p]) && !IsDigit(t[p])
    ensures !Matches(DigitRun, t)
  {
    if Matches(DigitRun, t) { DigitRunOnlyAlphanumeric(t); }
  }

  lemma NotExact(t: string)
    requires |t| >= 6
    ensures !Matches(IsTest, t) && !Matches(IsHello, t)
  {
    assert |Lower(t)| == |t|;
  }

  lemma NoU0001(t: string)
    requires |t| >= 5 && t[2] != '\U{0001}' && t[3] != '\U{0001}' && t[4] != '\U{0001}'
    ensures !Matches(LettersThenU0001, t)
  {
  }

  /** The name of the first Andhra Pradesh temple of the catalog is accepted. */
  lemma TirumalaAccepted()
    ensures IsValidTempleName("Tirumala Venkateswara Temple")
  {
    var a := "Tirumala Venkateswara Temple";
    TrimOfTrimmed(a);
    TirumalaLongWords();
    LongWordsPass(a, 8);
  }

  lemma TirumalaLongWords()
    ensures LongWords("Tirumala Venkateswara Temple", 8)
  {
    TirumalaHasNoTest();
  }

  lemma TirumalaHasNoTest()
    ensures NoTestWord("Tirumala Venkateswara Temple")
  {
    var a := "Tirumala Venkateswara Temple";
    forall i | 0 <= i && i + 4 <= |a| ensures !TestWordAt(a, i) {
      assert LowerChar(a[i]) != 't' || LowerChar(a[i + 3]) != 't';
    }
  }

  /** A digit separated by a space escapes the digit pattern. */
  lemma SpacedDigitAccepted()
    ensures IsValidTempleName("Sri Temple 2")
  {
    var b := "Sri Temple 2";
    TrimOfTrimmed(b);
    SriTempleLongWords();
    LongWordsPass(b, 3);
  }

  lemma SriTempleLongWords()
    ensures LongWords("Sri Temple 2", 3)
  {
    SriTempleHasNoTest();
  }

  lemma SriTempleHasNoTest()
    ensures NoTestWord("Sri Temple 2")
  {
    var b := "Sri Temple 2";
    forall i | 0 <= i && i + 4 <= |b| ensures !TestWordAt(b, i) {
      assert LowerChar(b[i]) != 't' || LowerChar(b[i + 3]) != 't';
    }
  }

  /** "ksksks", the kind of repetition the sixth pattern was written for, is accepted. */
  lemma RepetitionAccepted()
    ensures IsValidTempleName("ksksks")
  {
    var c := "ksksks";
    TrimOfTrimmed(c);
    KsksksHasNoTest();
    NoTestNoTemple(c);
    KsksksHasNoDigitRun();
    NotExact(c);
    NoU0001(c);
    PassesWhen(c);
  }

  lemma KsksksHasNoTest()
    ensures NoTestWord("ksksks")
  {
    var c := "ksksks";
    forall i | 0 <= i && i + 4 <= |c| ensures !TestWordAt(c, i) {
      assert LowerChar(c[i]) != 't';
    }
  }

  lemma KsksksHasNoDigitRun()
    ensures !Matches(DigitRun, "ksksks")
  {
    var c := "ksksks";
    if Matches(DigitRun, c) {
      DigitRunOnlyAlphanumeric(c);
    }
  }
}
