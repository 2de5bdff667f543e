/** The emoji catalog of www/constants/index.ts: the entries of emoji.json whose glyph is at
    most 8 UTF-16 code units long, in their original order. */
module Constants {
  import opened Utf16
  import Utils

  /** One record of emoji.json; `glyph` is its `char` field (a Dafny keyword). */
  datatype Entry = Entry(category: JsString, glyph: JsString, codes: JsString, name: JsString)

  /** The limit on `char.length`, counted in code units. */
  const MaxCharLength := 8

  predicate Fits(e: Entry) {
    |e.glyph| <= MaxCharLength
  }

  /** `a` is `b` with some entries left out: same order, nothing added or altered. */
  predicate IsSubsequence<T(==)>(a: seq<T>, b: seq<T>)
    decreases |b|
  {
    if a == [] then true
    else if b == [] then false
    else (a[0] == b[0] && IsSubsequence(a[1..], b[1..])) || IsSubsequence(a, b[1..])
  }

  /** `EMOJI = emoji.filter(({ char }) => char.length <= 8)`. */
  function Emoji(source: seq<Entry>): (catalog: seq<Entry>)
    ensures forall e | e in catalog :: Fits(e)
    ensures forall e | e in source && Fits(e) :: e in catalog
    ensures IsSubsequence(catalog, source)
    ensures forall e :: multiset(catalog)[e] == if Fits(e) then multiset(source)[e] else 0
  {
    if source == [] then []
    else
      assert source == [source[0]] + source[1..];
      if Fits(source[0]) then [source[0]] + Emoji(source[1..])
      else Emoji(source[1..])
  }

  /** Every catalog glyph has at most 8 code points, so the exact-match encoder never fails
      on one: a glyph of at most 8 code units cannot hold more than 8 code points. */
  lemma CatalogGlyphsEncode(source: seq<Entry>, i: nat)
    requires i < |Emoji(source)|
    ensures |CodePoints(Emoji(source)[i].glyph)| <= Utils.Slots
    ensures Utils.ConvertStringTo8CodePoints(Emoji(source)[i].glyph).Success?
  {
    assert Emoji(source)[i] in Emoji(source);
  }

  /** The filter counts code units, not code points: five astral glyphs (ten units) encode
      into the 8 slots, yet an entry with such a glyph is left out of the catalog. */
  lemma UnitsNotCodePoints()
    ensures var glyph: JsString := [0xD83D, 0xDE00, 0xD83D, 0xDE00, 0xD83D, 0xDE00, 0xD83D, 0xDE00, 0xD83D, 0xDE00];
      && |CodePoints(glyph)| == 5
      && Utils.ConvertStringTo8CodePoints(glyph).Success?
      && Emoji([Entry([], glyph, [], [])]) == []
  {
    var glyph: JsString := [0xD83D, 0xDE00, 0xD83D, 0xDE00, 0xD83D, 0xDE00, 0xD83D, 0xDE00, 0xD83D, 0xDE00];
    assert StartsWithPair(glyph[8..]);
    assert |CodePoints(glyph[8..])| == 1;
    assert StartsWithPair(glyph[6..]) && glyph[6..][2..] == glyph[8..];
    assert StartsWithPair(glyph[4..]) && glyph[4..][2..] == glyph[6..];
    assert StartsWithPair(glyph[2..]) && glyph[2..][2..] == glyph[4..];
    assert StartsWithPair(glyph) && glyph[2..] == glyph[2..];
    assert |CodePoints(glyph)| == 5;
  }
}
