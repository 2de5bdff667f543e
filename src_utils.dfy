/** The older helpers of src/utils/index.ts: the same fixed-width codec, with the encoder
    written as a loop that collects code points before checking the length. */
module SrcUtils {
  import opened Wrappers
  import opened Utf16
  import Utils

  /** The error this encoder throws; unlike the newer one it carries no TOO_LONG_ERROR tag. */
  const TooLongMessage: string := "String contains more than 8 code points."

  /** `convertStringTo8CodePoints(input)`: a `for ... of` loop pushes each code point, the
      length is checked after the whole scan, and the result is right-padded with zeros. */
  method ConvertStringTo8CodePoints(input: JsString) returns (r: Result<seq<int>, string>)
    ensures r.Failure? <==> |CodePoints(input)| > Utils.Slots
    ensures r.Failure? ==> r.error == TooLongMessage
    ensures r.Success? ==> r.value == CodePoints(input) + Utils.Zeros(Utils.Slots - |CodePoints(input)|)
  {
    var codePoints: seq<int> := [];
    var i := 0;
    while i < |input|
      invariant 0 <= i <= |input|
      invariant codePoints + CodePoints(input[i..]) == CodePoints(input)
    {
      var rest := input[i..];
      var next: int;
      var codePoint: int;
      if StartsWithPair(rest) {
        codePoint, next := CombinePair(input[i], input[i + 1]), i + 2;
        assert rest[2..] == input[next..];
      } else {
        codePoint, next := input[i], i + 1;
        assert rest[1..] == input[next..];
      }
      assert CodePoints(rest) == [codePoint] + CodePoints(input[next..]);
      assert (codePoints + [codePoint]) + CodePoints(input[next..]) == codePoints + CodePoints(rest);
      codePoints := codePoints + [codePoint];
      i := next;
    }
    if |codePoints| > Utils.Slots {
      return Failure(TooLongMessage);
    }
    return Success(codePoints + Utils.Zeros(Utils.Slots - |codePoints|));
  }

  /** `convertCodePointsToString(codePoints)`: textually the same filter-and-fromCodePoint as
      the newer helper. */
  function ConvertCodePointsToString(codePoints: seq<int>): (r: Option<JsString>)
    ensures r == Utils.ConvertCodePointsToString(codePoints)
  {
    var kept := NonZero(codePoints);
    if AllCodePoints(kept) then Some(FromCodePoints(kept)) else None
  }

  /** Decoding the padded code points returns the input for every string of at most 8 code
      points without U+0000. */
  lemma RoundTrip(input: JsString)
    requires |CodePoints(input)| <= Utils.Slots && 0 !in CodePoints(input)
    ensures ConvertCodePointsToString(CodePoints(input) + Utils.Zeros(Utils.Slots - |CodePoints(input)|)) == Some(input)
  {
    Utils.RoundTrip(input);
  }
}
