/** The 32-bit FNV-1a hash the home screen uses to pick its daily featured temples.
    JavaScript strings are sequences of UTF-16 code units, `^` and `Math.imul` work on
    32-bit integers and `>>> 0` reads the result as unsigned, so the whole computation is
    arithmetic modulo 2^32, written here with `bv32`. */
module Fnv {

  const OffsetBasis: bv32 := 0x811C_9DC5   // 2166136261
  const Prime: bv32 := 0x0100_0193         // 16777619

  /** The UTF-16 code units of one character, as `charCodeAt` reads them. */
  function CharUnits(c: char): (r: seq<bv16>)
    ensures |r| == if c as int < 0x1_0000 then 1 else 2
  {
    var v := c as int;
    if v < 0x1_0000 then [v as bv16]
    else [(0xD800 + (v - 0x1_0000) / 0x400) as bv16, (0xDC00 + (v - 0x1_0000) % 0x400) as bv16]
  }

  /** The UTF-16 code units of a string; their number is the string's JavaScript `length`. */
  function CodeUnits(s: string): (r: seq<bv16>)
    ensures |r| >= |s|
  {
    if |s| == 0 then [] else CodeUnits(s[..|s| - 1]) + CharUnits(s[|s| - 1])
  }

  /** One round: xor in a code unit, then multiply by the prime. */
  function Step(h: bv32, u: bv16): bv32
  {
    (h ^ (u as bv32)) * Prime
  }

  /** The state after feeding the code units `us` to the hash, starting from `h`. */
  function Feed(h: bv32, us: seq<bv16>): bv32
  {
    if |us| == 0 then h else Step(Feed(h, us[..|us| - 1]), us[|us| - 1])
  }

  /** `hashFor(s)`. */
  function HashFor(s: string): (r: nat)
    ensures r < 0x1_0000_0000
  {
    Feed(OffsetBasis, CodeUnits(s)) as nat
  }

  /** Feeding a concatenation is feeding the two parts one after the other, so the hash of
      `day + "-" + id` continues from the state reached after the day prefix. */
  lemma {:induction false} FeedAppend(h: bv32, a: seq<bv16>, b: seq<bv16>)
    ensures Feed(h, a + b) == Feed(Feed(h, a), b)
    decreases |b|
  {
    if |b| == 0 {
      assert a + b == a;
    } else {
      assert (a + b)[..|a + b| - 1] == a + b[..|b| - 1];
      FeedAppend(h, a, b[..|b| - 1]);
    }
  }

  lemma {:induction false} CodeUnitsAppend(s: string, t: string)
    ensures CodeUnits(s + t) == CodeUnits(s) + CodeUnits(t)
    decreases |t|
  {
    if |t| > 0 {
      assert (s + t)[..|s + t| - 1] == s + t[..|t| - 1];
      CodeUnitsAppend(s, t[..|t| - 1]);
    } else {
      assert s + t == s;
    }
  }

  /** The hash of a concatenation continues from the state reached after its first part. */
  lemma HashForAppend(s: string, t: string)
    ensures HashFor(s + t) == Feed(Feed(OffsetBasis, CodeUnits(s)), CodeUnits(t)) as nat
  {
    CodeUnitsAppend(s, t);
    FeedAppend(OffsetBasis, CodeUnits(s), CodeUnits(t));
  }

  /** The loop of `hashFor`, one code unit per iteration. */
  method ComputeHash(s: string) returns (h: bv32)
    ensures h as nat == HashFor(s)
  {
    var units := CodeUnits(s);
    h := OffsetBasis;
    var i := 0;
    while i < |units|
      invariant 0 <= i <= |units|
      invariant h == Feed(OffsetBasis, units[..i])
    {
      h := Step(h, units[i]);
      assert units[..i + 1][..i] == units[..i];
      i := i + 1;
    }
    assert units[..|units|] == units;
  }

  /** Known FNV-1a values: the empty string hashes to the offset basis. */
  lemma HashVectors()
    ensures HashFor("") == 2166136261
    ensures HashFor("a") == 0xE40C_292C
  {
    assert CodeUnits("a") == [0x61];
  }
}
