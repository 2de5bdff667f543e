/** JavaScript strings as sequences of UTF-16 code units, and the code-point view of them
    that `Array.from(s)`, `for (c of s)` and `String.fromCodePoint` use. */
module Utf16 {

  /** One UTF-16 code unit; `s.length` counts these. */
  type CodeUnit = u: int | 0 <= u < 0x1_0000

  /** A JavaScript string. */
  type JsString = seq<CodeUnit>

  const MaxCodePoint := 0x10_FFFF

  predicate IsCodePoint(cp: int) {
    0 <= cp <= MaxCodePoint
  }

  predicate AllCodePoints(cps: seq<int>) {
    forall cp | cp in cps :: IsCodePoint(cp)
  }

  predicate IsHighSurrogate(u: int) {
    0xD800 <= u <= 0xDBFF
  }

  predicate IsLowSurrogate(u: int) {
    0xDC00 <= u <= 0xDFFF
  }

  /** The string opens with a well-formed surrogate pair, which is read as one code point. */
  predicate StartsWithPair(s: JsString) {
    |s| >= 2 && IsHighSurrogate(s[0]) && IsLowSurrogate(s[1])
  }

  function CombinePair(high: int, low: int): (cp: int)
    requires IsHighSurrogate(high) && IsLowSurrogate(low)
    ensures 0x1_0000 <= cp <= MaxCodePoint
  {
    0x1_0000 + (high - 0xD800) * 0x400 + (low - 0xDC00)
  }

  /** The first code point is the first unit itself, unless a pair was combined into a
      code point above U+FFFF. */
  predicate FirstUnitKept(s: JsString, cps: seq<int>) {
    s != [] && cps != [] ==> cps[0] == s[0] || cps[0] >= 0x1_0000
  }

  /** No high surrogate is followed by a low one: every such pair was combined. */
  predicate NoSplitPair(cps: seq<int>) {
    forall k | 0 <= k < |cps| - 1 :: !(IsHighSurrogate(cps[k]) && IsLowSurrogate(cps[k + 1]))
  }

  /** The code points of a string, in order: a high surrogate followed by a low surrogate is
      one code point; every other unit, a lone surrogate included, is a code point by itself. */
  function CodePoints(s: JsString): (cps: seq<int>)
    ensures |cps| <= |s|
    ensures |cps| == 0 <==> |s| == 0
    ensures AllCodePoints(cps)
    ensures FirstUnitKept(s, cps)
    ensures NoSplitPair(cps)
    decreases |s|
  {
    if s == [] then []
    else if StartsWithPair(s) then [CombinePair(s[0], s[1])] + CodePoints(s[2..])
    else [s[0]] + CodePoints(s[1..])
  }

  /** `String.fromCodePoint(cp)`: one unit below U+10000, a surrogate pair above. */
  function EncodeCodePoint(cp: int): (units: JsString)
    requires IsCodePoint(cp)
    ensures 1 <= |units| <= 2
    ensures |units| == 1 <==> cp < 0x1_0000
  {
    if cp < 0x1_0000 then [cp]
    else [0xD800 + (cp - 0x1_0000) / 0x400, 0xDC00 + (cp - 0x1_0000) % 0x400]
  }

  /** `String.fromCodePoint(...cps)`. */
  function FromCodePoints(cps: seq<int>): (s: JsString)
    requires AllCodePoints(cps)
    ensures |s| >= |cps|
  {
    if cps == [] then [] else EncodeCodePoint(cps[0]) + FromCodePoints(cps[1..])
  }

  /** The code points other than U+0000, in order. */
  function NonZero(cps: seq<int>): (r: seq<int>)
    ensures forall x | x in r :: x in cps && x != 0
    ensures forall x | x in cps && x != 0 :: x in r
  {
    if cps == [] then []
    else if cps[0] == 0 then NonZero(cps[1..])
    else [cps[0]] + NonZero(cps[1..])
  }

  /** The string with every U+0000 unit taken out. */
  function RemoveNul(s: JsString): (r: JsString)
    ensures 0 !in r
    ensures forall u | u in s && u != 0 :: u in r
  {
    if s == [] then []
    else if s[0] == 0 then RemoveNul(s[1..])
    else [s[0]] + RemoveNul(s[1..])
  }

  lemma PairRoundTrip(high: int, low: int)
    requires IsHighSurrogate(high) && IsLowSurrogate(low)
    ensures EncodeCodePoint(CombinePair(high, low)) == [high, low]
  {
  }

  /** Splitting a string into code points and re-encoding them gives the string back,
      lone surrogates included. */
  lemma {:induction false} FromCodePointsOfCodePoints(s: JsString)
    ensures FromCodePoints(CodePoints(s)) == s
    decreases |s|
  {
    if s == [] {
    } else if StartsWithPair(s) {
      PairRoundTrip(s[0], s[1]);
      FromCodePointsOfCodePoints(s[2..]);
      assert s == [s[0], s[1]] + s[2..];
    } else {
      FromCodePointsOfCodePoints(s[1..]);
      assert s == [s[0]] + s[1..];
    }
  }

  /** Dropping the U+0000 code points and re-encoding gives the string without its U+0000
      units: U+0000 is never part of a surrogate pair. */
  lemma {:induction false} FromNonZeroCodePoints(s: JsString)
    ensures FromCodePoints(NonZero(CodePoints(s))) == RemoveNul(s)
    decreases |s|
  {
    if s == [] {
    } else if StartsWithPair(s) {
      var cp := CombinePair(s[0], s[1]);
      assert CodePoints(s) == [cp] + CodePoints(s[2..]);
      assert NonZero(CodePoints(s)) == [cp] + NonZero(CodePoints(s[2..]));
      PairRoundTrip(s[0], s[1]);
      FromNonZeroCodePoints(s[2..]);
      assert RemoveNul(s) == [s[0]] + RemoveNul(s[1..]);
      assert s[1..][1..] == s[2..];
      assert RemoveNul(s[1..]) == [s[1]] + RemoveNul(s[2..]);
    } else {
      assert CodePoints(s) == [s[0]] + CodePoints(s[1..]);
      FromNonZeroCodePoints(s[1..]);
    }
  }

  /** A string has a U+0000 code point exactly when it has a U+0000 unit. */
  lemma {:induction false} NulCodePoint(s: JsString)
    ensures 0 in CodePoints(s) <==> 0 in s
    decreases |s|
  {
    if s == [] {
    } else if StartsWithPair(s) {
      NulCodePoint(s[2..]);
      assert s == [s[0], s[1]] + s[2..];
    } else {
      NulCodePoint(s[1..]);
      assert s == [s[0]] + s[1..];
    }
  }

  lemma {:induction false} RemoveNulNoop(s: JsString)
    requires 0 !in s
    ensures RemoveNul(s) == s
    decreases |s|
  {
    if s != [] {
      assert s[0] in s;
      assert forall u | u in s[1..] :: u in s;
      RemoveNulNoop(s[1..]);
      assert s == [s[0]] + s[1..];
    }
  }
}
