/** `compareVersions` (`src/lib/updates.ts`): version strings are split at '.' and '-', each
    component is read as the number its digits spell (0 when it has none), and the component
    lists are compared lexicographically with missing components read as 0. */
module Versions {
  import opened Seqs
  import opened JsString
  import opened Decimal

  /** `p.replace(/[^0-9]/g, '')`. */
  function KeepDigits(p: string): (r: string)
    ensures AllDigits(r)
    ensures IsSubsequence(r, p)
    ensures forall i | 0 <= i < |p| && IsDigit(p[i]) :: p[i] in r
    ensures |r| == Count(p, IsDigit)
  {
    FilterIsSubsequence(p, IsDigit);
    var r := Filter(p, IsDigit);
    assert forall i | 0 <= i < |r| :: r[i] in r;
    r
  }

  /** `parseInt(digits, 10) || 0`: the value of the remaining digits, 0 when none remain. */
  function ComponentValue(p: string): nat
  {
    DigitsValue(KeepDigits(p))
  }

  /** `v.split(/\.|-/).map(...)`. */
  function Parts(v: string): (r: seq<nat>)
    ensures |r| == SepCount(v, {'.', '-'}) + 1
  {
    var pieces := Split(v, {'.', '-'});
    seq(|pieces|, i requires 0 <= i < |pieces| => ComponentValue(pieces[i]))
  }

  /** `parts[i] ?? 0`. */
  function Part(s: seq<nat>, i: nat): nat
  {
    if i < |s| then s[i] else 0
  }

  function Tail(s: seq<nat>): (r: seq<nat>)
    ensures forall j: nat :: Part(r, j) == Part(s, j + 1)
  {
    if |s| == 0 then [] else s[1..]
  }

  function Max(a: nat, b: nat): nat
  {
    if a < b then b else a
  }

  /** The loop of `compareVersions`, written as a recursion over the component lists. */
  function CompareParts(a: seq<nat>, b: seq<nat>): (r: int)
    ensures r == -1 || r == 0 || r == 1
    decreases |a| + |b|
  {
    if |a| == 0 && |b| == 0 then 0
    else if Part(a, 0) > Part(b, 0) then 1
    else if Part(a, 0) < Part(b, 0) then -1
    else CompareParts(Tail(a), Tail(b))
  }

  function CompareVersions(a: string, b: string): (r: int)
    ensures r == -1 || r == 0 || r == 1
  {
    CompareParts(Parts(a), Parts(b))
  }

  /** The first `k` components agree, reading missing ones as 0. */
  predicate AgreeUpTo(a: seq<nat>, b: seq<nat>, k: nat)
  {
    forall j | 0 <= j < k :: Part(a, j) == Part(b, j)
  }

  /** Component `k` is the first one that differs. */
  predicate FirstDifference(a: seq<nat>, b: seq<nat>, k: nat)
  {
    AgreeUpTo(a, b, k) && Part(a, k) != Part(b, k)
  }

  /** Beyond both lengths every component reads as 0. */
  lemma PartsBeyond(a: seq<nat>, b: seq<nat>, k: nat)
    requires Max(|a|, |b|) <= k
    ensures Part(a, k) == 0 && Part(b, k) == 0
  {
  }

  /** With equal first components, agreement of the tails on `k` components is agreement
      of the lists on `k + 1`. */
  lemma AgreeTail(a: seq<nat>, b: seq<nat>, k: nat)
    requires Part(a, 0) == Part(b, 0)
    ensures AgreeUpTo(Tail(a), Tail(b), k) <==> AgreeUpTo(a, b, k + 1)
  {
    if AgreeUpTo(Tail(a), Tail(b), k) {
      forall j | 0 <= j < k + 1 ensures Part(a, j) == Part(b, j) {
        if j > 0 { assert Part(Tail(a), j - 1) == Part(Tail(b), j - 1); }
      }
    }
    if AgreeUpTo(a, b, k + 1) {
      forall j | 0 <= j < k ensures Part(Tail(a), j) == Part(Tail(b), j) {
        assert Part(a, j + 1) == Part(b, j + 1);
      }
    }
  }

  /** The comparison is 0 exactly when every component agrees. */
  lemma {:induction false} CompareZeroMeaning(a: seq<nat>, b: seq<nat>)
    ensures CompareParts(a, b) == 0 <==> AgreeUpTo(a, b, Max(|a|, |b|))
    decreases |a| + |b|
  {
    if |a| == 0 && |b| == 0 {
    } else if Part(a, 0) != Part(b, 0) {
      assert !AgreeUpTo(a, b, Max(|a|, |b|));
    } else {
      CompareZeroMeaning(Tail(a), Tail(b));
      assert Max(|Tail(a)|, |Tail(b)|) + 1 == Max(|a|, |b|);
      AgreeTail(a, b, Max(|Tail(a)|, |Tail(b)|));
    }
  }

  /** At the first difference, the comparison is the sign of that difference. */
  lemma {:induction false} CompareSignMeaning(a: seq<nat>, b: seq<nat>, k: nat)
    requires FirstDifference(a, b, k)
    ensures CompareParts(a, b) == (if Part(a, k) > Part(b, k) then 1 else -1)
    decreases |a| + |b|
  {
    if |a| == 0 && |b| == 0 {
      PartsBeyond(a, b, k);
    } else if k > 0 {
      assert Part(a, 0) == Part(b, 0);
      AgreeTail(a, b, k - 1);
      assert Part(Tail(a), k - 1) == Part(a, k) && Part(Tail(b), k - 1) == Part(b, k);
      CompareSignMeaning(Tail(a), Tail(b), k - 1);
    }
  }

  /** When the first `n` components do not all agree, one of them is the first difference. */
  lemma {:induction false} FirstDifferenceExists(a: seq<nat>, b: seq<nat>, n: nat)
    requires !AgreeUpTo(a, b, n)
    ensures exists k: nat :: k < n && FirstDifference(a, b, k)
    decreases n
  {
    if AgreeUpTo(a, b, n - 1) {
      assert FirstDifference(a, b, n - 1);
    } else {
      FirstDifferenceExists(a, b, n - 1);
    }
  }

  /** The reference meaning of the comparison: 0 exactly when every component agrees, and
      otherwise the sign of the first difference. */
  lemma CompareMeaning(a: seq<nat>, b: seq<nat>)
    ensures CompareParts(a, b) == 0 <==> AgreeUpTo(a, b, Max(|a|, |b|))
    ensures forall k: nat | FirstDifference(a, b, k) ::
      CompareParts(a, b) == (if Part(a, k) > Part(b, k) then 1 else -1)
  {
    CompareZeroMeaning(a, b);
    forall k: nat | FirstDifference(a, b, k)
      ensures CompareParts(a, b) == (if Part(a, k) > Part(b, k) then 1 else -1)
    {
      CompareSignMeaning(a, b, k);
    }
  }

  /** The comparison as the source writes it, a counted loop over the longer list that
      returns at the first difference; it agrees with the recursive definition. */
  method Compare(a: seq<nat>, b: seq<nat>) returns (r: int)
    ensures r == 0 <==> AgreeUpTo(a, b, Max(|a|, |b|))
    ensures r != 0 ==> exists k: nat :: FirstDifference(a, b, k) && (r == 1 <==> Part(a, k) > Part(b, k))
    ensures r == CompareParts(a, b)
  {
    var len := Max(|a|, |b|);
    var i := 0;
    while i < len
      invariant 0 <= i <= len
      invariant AgreeUpTo(a, b, i)
    {
      var av := Part(a, i);
      var bv := Part(b, i);
      if av > bv {
        assert FirstDifference(a, b, i);
        CompareMeaning(a, b);
        return 1;
      }
      if av < bv {
        assert FirstDifference(a, b, i);
        CompareMeaning(a, b);
        return -1;
      }
      i := i + 1;
    }
    CompareMeaning(a, b);
    return 0;
  }

  /** Every version is equal to itself. */
  lemma {:induction false} CompareReflexive(a: seq<nat>)
    ensures CompareParts(a, a) == 0
  {
    CompareMeaning(a, a);
  }

  /** Swapping the arguments negates the result. */
  lemma {:induction false} CompareAntisymmetric(a: seq<nat>, b: seq<nat>)
    ensures CompareParts(a, b) == -CompareParts(b, a)
    decreases |a| + |b|
  {
    if !(|a| == 0 && |b| == 0) && Part(a, 0) == Part(b, 0) {
      CompareAntisymmetric(Tail(a), Tail(b));
    }
  }

  /** "Not newer than" is transitive. */
  lemma {:induction false} CompareTransitive(a: seq<nat>, b: seq<nat>, c: seq<nat>)
    requires CompareParts(a, b) <= 0 && CompareParts(b, c) <= 0
    ensures CompareParts(a, c) <= 0
    decreases |a| + |b| + |c|
  {
    if |a| == 0 && |c| == 0 {
    } else if |a| == 0 && |b| == 0 {
      assert Part(b, 0) <= Part(c, 0);
    } else if Part(a, 0) == Part(b, 0) && Part(b, 0) == Part(c, 0) {
      CompareTransitive(Tail(a), Tail(b), Tail(c));
    }
  }

  /** Equality of versions is transitive too, so the comparison is a total preorder. */
  lemma CompareEqualTransitive(a: seq<nat>, b: seq<nat>, c: seq<nat>)
    requires CompareParts(a, b) == 0 && CompareParts(b, c) == 0
    ensures CompareParts(a, c) == 0
  {
    CompareTransitive(a, b, c);
    CompareAntisymmetric(a, b);
    CompareAntisymmetric(b, c);
    CompareTransitive(c, b, a);
    CompareAntisymmetric(a, c);
  }

  /** Trailing zero components do not matter: "1.0" equals "1.0.0". */
  lemma TrailingZero(a: seq<nat>)
    ensures CompareParts(a, a + [0]) == 0
  {
    CompareMeaning(a, a + [0]);
    assert Max(|a|, |a + [0]|) == |a| + 1;
    forall j | 0 <= j < |a| + 1 ensures Part(a, j) == Part(a + [0], j) {
    }
  }

  /** One more character at the end of a version string: a separator starts a new empty
      component, any other character extends the last one. */
  lemma SplitSnoc(s: string, c: char)
    ensures Split(s + [c], {'.', '-'}) ==
      var init := Split(s, {'.', '-'});
      if c in {'.', '-'} then init + [""] else init[..|init| - 1] + [init[|init| - 1] + [c]]
  {
    assert (s + [c])[..|s + [c]| - 1] == s;
  }

  lemma SplitOneDot()
    ensures Split("1.", {'.', '-'}) == ["1", ""]
  {
    SplitSnoc([], '1');
    assert [] + ['1'] == "1";
    assert Split("1", {'.', '-'}) == ["1"];
    SplitSnoc("1", '.');
    assert "1" + ['.'] == "1.";
  }

  /** "1." followed by one digit splits into "1" and that digit. */
  lemma SplitOneDigit(d: char)
    requires IsDigit(d)
    ensures Split(['1', '.', d], {'.', '-'}) == ["1", [d]]
  {
    SplitOneDot();
    SplitSnoc("1.", d);
    assert "1." + [d] == ['1', '.', d];
    assert d !in {'.', '-'};
    var init: seq<string> := ["1", ""];
    assert init[..1] == ["1"] && init[1] + [d] == [d];
  }

  lemma SplitOneTen()
    ensures Split("1.10", {'.', '-'}) == ["1", "10"]
  {
    SplitOneDigit('1');
    SplitSnoc("1.1", '0');
    assert "1.1" + ['0'] == "1.10";
    assert '0' !in {'.', '-'};
    var mid: seq<string> := ["1", "1"];
    assert mid[..1] == ["1"] && mid[1] + ['0'] == "10";
  }

  /** A component of digits only keeps all of them. */
  lemma KeepAllDigits(p: string)
    requires AllDigits(p)
    ensures KeepDigits(p) == p
  {
    FilterAll(p, IsDigit);
  }

  lemma SmallComponents()
    ensures ComponentValue("1") == 1 && ComponentValue("9") == 9 && ComponentValue("10") == 10
  {
    KeepAllDigits("1");
    KeepAllDigits("9");
    KeepAllDigits("10");
    assert "10"[..1] == "1";
  }

  /** "1.10" is newer than "1.9": components compare as numbers, not as text. */
  lemma NewerMinor()
    ensures CompareVersions("1.10", "1.9") == 1
  {
    PartsOneTen();
    PartsOneNine();
    assert Part([1, 10], 1) == 10;
  }

  lemma PartsOneTen()
    ensures Parts("1.10") == [1, 10]
  {
    SplitOneTen();
    SmallComponents();
  }

  lemma PartsOneNine()
    ensures Parts("1.9") == [1, 9]
  {
    SplitOneDigit('9');
    SmallComponents();
  }

  /** A component without digits reads as 0. */
  lemma DigitFreeComponent(p: string)
    requires forall i | 0 <= i < |p| :: !IsDigit(p[i])
    ensures ComponentValue(p) == 0
  {
    FilterEmpty(p, IsDigit);
  }

  /** Text after a final separator becomes one more component. */
  lemma {:induction false} SplitAfterSeparator(v: string, c: char, t: string)
    requires c in {'.', '-'} && Avoids(t, {'.', '-'})
    ensures Split(v + [c] + t, {'.', '-'}) == Split(v, {'.', '-'}) + [t]
    decreases |t|
  {
    var seps := {'.', '-'};
    if |t| == 0 {
      assert v + [c] + t == v + [c];
      SplitSnocSep(v, c, seps);
    } else {
      var u := t[..|t| - 1];
      var d := t[|t| - 1];
      assert Avoids(u, seps);
      assert d !in seps;
      SplitAfterSeparator(v, c, u);
      var w := v + [c] + u;
      assert v + [c] + t == w + [d];
      SplitSnocOther(w, d, seps);
      var p := Split(v, seps) + [u];
      assert p[..|p| - 1] == Split(v, seps);
      assert p[|p| - 1] + [d] == t;
    }
  }

  /** A pre-release tag without digits does not change the version: "1.0.0-beta" equals
      "1.0.0", so an update to it is not offered to a user of "1.0.0". */
  lemma PreReleaseTagIgnored(v: string, tag: string)
    requires Avoids(tag, {'.', '-'}) && forall i | 0 <= i < |tag| :: !IsDigit(tag[i])
    ensures CompareVersions(v + "-" + tag, v) == 0
  {
    SplitAfterSeparator(v, '-', tag);
    DigitFreeComponent(tag);
    assert Parts(v + "-" + tag) == Parts(v) + [0];
    TrailingZero(Parts(v));
    CompareAntisymmetric(Parts(v + "-" + tag), Parts(v));
  }

  /** Leading zeros do not change a component: "01" reads as 1, so "1.01" equals "1.1". */
  lemma LeadingZeroIgnored(p: string)
    ensures ComponentValue("0" + p) == ComponentValue(p)
  {
    FilterAppend("0", p, IsDigit);
    assert Filter("0", IsDigit) == "0" by {
      assert "0"[..0] == [];
    }
    LeadingZero(KeepDigits(p));
  }
}
