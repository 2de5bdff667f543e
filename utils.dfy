/** The helpers of www/utils/index.tsx: the regular-expression escaper, the host rule and the
    fixed-width code-point codec used for exact-match lookups. */
module Utils {
  import opened Wrappers
  import opened Utf16

  /** A JavaScript string literal made of ASCII characters. */
  function Ascii(s: string): (r: JsString)
    requires forall i | 0 <= i < |s| :: s[i] as int < 128
    ensures |r| == |s|
    ensures forall i | 0 <= i < |s| :: r[i] == s[i] as int
  {
    seq(|s|, i requires 0 <= i < |s| => s[i] as int)
  }

  // ---------------------------------------------------------------------------------------
  // escapeStringRegex

  /** The units the escaper guards, `. * + ? ^ $ { } ( ) | [ ] \`. */
  const Metacharacters: set<char> := {'.', '*', '+', '?', '^', '$', '{', '}', '(', ')', '|', '[', ']', '\\'}

  const Backslash: CodeUnit := '\\' as int

  predicate IsMetacharacter(u: CodeUnit) {
    u < 128 && (u as char) in Metacharacters
  }

  function MetacharacterCount(s: JsString): (n: nat)
    ensures n <= |s|
  {
    if s == [] then 0 else (if IsMetacharacter(s[0]) then 1 else 0) + MetacharacterCount(s[1..])
  }

  /** `s.replace(/[.*+?^${}()|[\]\\]/g, '\\$&')`: every metacharacter gets one backslash
      in front of it, every other unit is copied. */
  function EscapeStringRegex(s: JsString): (r: JsString)
    ensures |r| == |s| + MetacharacterCount(s)
  {
    if s == [] then []
    else (if IsMetacharacter(s[0]) then [Backslash, s[0]] else [s[0]]) + EscapeStringRegex(s[1..])
  }

  /** The text a pattern matches when the pattern consists only of literal atoms: units that
      are not metacharacters, and a backslash followed by a metacharacter. Any other pattern
      (a quantifier, a group, a class, a dangling backslash) is None. */
  function LiteralText(pattern: JsString): (r: Option<JsString>)
    ensures r.Some? ==> |r.value| <= |pattern|
  {
    if pattern == [] then Some([])
    else if pattern[0] == Backslash then
      if |pattern| >= 2 && IsMetacharacter(pattern[1]) then
        match LiteralText(pattern[2..])
        case Some(rest) => Some([pattern[1]] + rest)
        case None => None
      else None
    else if IsMetacharacter(pattern[0]) then None
    else
      match LiteralText(pattern[1..])
      case Some(rest) => Some([pattern[0]] + rest)
      case None => None
  }

  /** An escaped string is a literal pattern for exactly that string: deleting the inserted
      backslashes restores the input. */
  lemma {:induction false} EscapedIsLiteral(s: JsString)
    ensures LiteralText(EscapeStringRegex(s)) == Some(s)
  {
    if s != [] {
      EscapedIsLiteral(s[1..]);
      assert IsMetacharacter(Backslash) by { assert (Backslash as char) == '\\'; }
      var r := EscapeStringRegex(s);
      if IsMetacharacter(s[0]) {
        assert r[2..] == EscapeStringRegex(s[1..]);
      } else {
        assert r[1..] == EscapeStringRegex(s[1..]);
      }
      assert s == [s[0]] + s[1..];
    }
  }

  /** The escaper works unit by unit: escaping a concatenation escapes each part. */
  lemma {:induction false} EscapeConcat(a: JsString, b: JsString)
    ensures EscapeStringRegex(a + b) == EscapeStringRegex(a) + EscapeStringRegex(b)
  {
    if a == [] {
      assert a + b == b;
    } else {
      assert (a + b)[0] == a[0] && (a + b)[1..] == a[1..] + b;
      EscapeConcat(a[1..], b);
    }
  }

  /** A string without metacharacters is its own escape. */
  lemma {:induction false} EscapeWithoutMetacharacters(s: JsString)
    requires forall i | 0 <= i < |s| :: !IsMetacharacter(s[i])
    ensures EscapeStringRegex(s) == s
  {
    if s != [] {
      EscapeWithoutMetacharacters(s[1..]);
      assert s == [s[0]] + s[1..];
    }
  }

  // ---------------------------------------------------------------------------------------
  // getHost

  /** The part of an incoming request getHost reads: `req.headers.host`, None when the
      request carries no Host header. */
  datatype Request = Request(host: Option<JsString>)

  const Localhost: JsString := Ascii("localhost")
  const HttpScheme: JsString := Ascii("http://")
  const HttpsScheme: JsString := Ascii("https://")

  /** The TypeError `host.startsWith` throws when the header is absent. */
  const MissingHostError: string := "TypeError"

  /** `getHost(req)`: no request gives the empty string (a relative URL); a request without
      a Host header throws; a host starting with `localhost` is reached over http, every
      other host over https. */
  function GetHost(req: Option<Request>): (r: Result<JsString, string>)
    ensures r.Failure? <==> req.Some? && req.value.host.None?
    ensures r.Failure? ==> r.error == MissingHostError
    ensures r == Success([]) <==> req.None?
    ensures req.Some? && req.value.host.Some? ==>
      var host := req.value.host.value;
      && |r.value| >= |host| && r.value[|r.value| - |host|..] == host
      && (HttpsScheme <= r.value <==> !(Localhost <= host))
      && (HttpScheme <= r.value <==> Localhost <= host)
      && |r.value| == |host| + (if Localhost <= host then |HttpScheme| else |HttpsScheme|)
  {
    match req
    case None => Success([])
    case Some(Request(None)) => Failure(MissingHostError)
    case Some(Request(Some(host))) =>
      var scheme := if Localhost <= host then HttpScheme else HttpsScheme;
      assert HttpScheme[4] != HttpsScheme[4];
      Success(scheme + host)
  }

  // ---------------------------------------------------------------------------------------
  // convertStringTo8CodePoints / convertCodePointsToString

  const TooLongError: string := "TOO_LONG_ERROR"
  const TooLongMessage: string := TooLongError + ": String contains more than 8 code points."

  /** The number of slots of the fixed-width encoding. */
  const Slots := 8

  function Zeros(n: nat): (z: seq<int>)
    ensures |z| == n && forall k | 0 <= k < n :: z[k] == 0
  {
    seq(n, _ => 0)
  }

  /** `convertStringTo8CodePoints(input)`: the input's code points right-padded with zeros
      to exactly 8, or the too-long error when there are more than 8. */
  function ConvertStringTo8CodePoints(input: JsString): (r: Result<seq<int>, string>)
    ensures r.Failure? <==> |CodePoints(input)| > Slots
    ensures r.Failure? ==> TooLongError <= r.error
    ensures r.Success? ==> |r.value| == Slots
    ensures r.Success? ==> r.value[..|CodePoints(input)|] == CodePoints(input)
    ensures r.Success? ==> forall k | |CodePoints(input)| <= k < Slots :: r.value[k] == 0
  {
    var codePoints := CodePoints(input);
    if |codePoints| > Slots then Failure(TooLongMessage)
    else Success(codePoints + Zeros(Slots - |codePoints|))
  }

  /** `convertCodePointsToString(codePoints)`: `String.fromCodePoint` of the non-zero entries,
      which throws (None) when one of them is not a code point. */
  function ConvertCodePointsToString(codePoints: seq<int>): (r: Option<JsString>)
    ensures r.Some? <==> AllCodePoints(NonZero(codePoints))
  {
    var kept := NonZero(codePoints);
    if AllCodePoints(kept) then Some(FromCodePoints(kept)) else None
  }

  lemma {:induction false} NonZeroConcat(a: seq<int>, b: seq<int>)
    ensures NonZero(a + b) == NonZero(a) + NonZero(b)
  {
    if a == [] {
      assert a + b == b;
    } else {
      assert (a + b)[0] == a[0] && (a + b)[1..] == a[1..] + b;
      NonZeroConcat(a[1..], b);
    }
  }

  /** Zeros are dropped wherever they stand: a zero between two runs of entries changes
      nothing in the decoded string. */
  lemma DecodeDropsZero(a: seq<int>, b: seq<int>)
    ensures ConvertCodePointsToString(a + [0] + b) == ConvertCodePointsToString(a + b)
  {
    NonZeroConcat(a + [0], b);
    NonZeroConcat(a, [0]);
    NonZeroConcat(a, b);
    assert NonZero([0]) == [];
    assert NonZero(a + [0] + b) == NonZero(a + b);
  }

  lemma NonZeroOfZeros(n: nat)
    ensures NonZero(Zeros(n)) == []
  {
    if n > 0 {
      assert Zeros(n)[1..] == Zeros(n - 1);
      NonZeroOfZeros(n - 1);
    }
  }

  /** Encoding and decoding a string of at most 8 code points yields the string with its
      U+0000 units removed: the normalised term the page compares catalog glyphs with. */
  lemma Normalize(s: JsString)
    requires |CodePoints(s)| <= Slots
    ensures ConvertStringTo8CodePoints(s).Success?
    ensures ConvertCodePointsToString(ConvertStringTo8CodePoints(s).value) == Some(RemoveNul(s))
  {
    var cps := CodePoints(s);
    NonZeroConcat(cps, Zeros(Slots - |cps|));
    NonZeroOfZeros(Slots - |cps|);
    assert NonZero(cps + Zeros(Slots - |cps|)) == NonZero(cps);
    FromNonZeroCodePoints(s);
  }

  /** Decoding the encoding returns the original string for every string of at most 8 code
      points that contains no U+0000. */
  lemma RoundTrip(s: JsString)
    requires |CodePoints(s)| <= Slots && 0 !in CodePoints(s)
    ensures ConvertStringTo8CodePoints(s).Success?
    ensures ConvertCodePointsToString(ConvertStringTo8CodePoints(s).value) == Some(s)
  {
    Normalize(s);
    NulCodePoint(s);
    RemoveNulNoop(s);
  }
}
