/** The search endpoint of www/pages/api/search.ts: a case-insensitive, bidirectional literal
    match of the search term against each catalog entry's category, glyph and name. */
module SearchApi {
  import opened Wrappers
  import opened Utf16
  import opened Utils
  import opened Constants

  /** The canonicalisation the `i` flag applies to each code unit before comparing. */
  type Fold = CodeUnit -> CodeUnit

  function FoldString(fold: Fold, s: JsString): (r: JsString)
    ensures |r| == |s| && forall k | 0 <= k < |s| :: r[k] == fold(s[k])
  {
    seq(|s|, k requires 0 <= k < |s| => fold(s[k]))
  }

  /** `needle` occurs in `hay` starting at the first unit or later. */
  predicate Contains(hay: JsString, needle: JsString)
    decreases |hay|
  {
    (|needle| <= |hay| && hay[..|needle|] == needle) || (hay != [] && Contains(hay[1..], needle))
  }

  predicate OccursAt(hay: JsString, needle: JsString, k: int) {
    0 <= k && k + |needle| <= |hay| && hay[k..k + |needle|] == needle
  }

  /** A containment found by the recursion lies at some offset. */
  lemma {:induction false} ContainsAtSomeOffset(hay: JsString, needle: JsString)
    requires Contains(hay, needle)
    ensures exists k :: OccursAt(hay, needle, k)
    decreases |hay|
  {
    if |needle| <= |hay| && hay[..|needle|] == needle {
      assert OccursAt(hay, needle, 0);
    } else {
      ContainsAtSomeOffset(hay[1..], needle);
      var k :| OccursAt(hay[1..], needle, k);
      assert hay[k + 1..k + 1 + |needle|] == hay[1..][k..k + |needle|];
      assert OccursAt(hay, needle, k + 1);
    }
  }

  /** An occurrence at offset `k` is found by the recursion. */
  lemma {:induction false} OffsetIsContained(hay: JsString, needle: JsString, k: int)
    requires OccursAt(hay, needle, k)
    ensures Contains(hay, needle)
    decreases k
  {
    if k == 0 {
      assert hay[..|needle|] == hay[0..|needle|];
    } else {
      assert hay[1..][k - 1..k - 1 + |needle|] == hay[k..k + |needle|];
      OffsetIsContained(hay[1..], needle, k - 1);
    }
  }

  /** Contains is the textbook substring relation: some offset where the needle lies. */
  lemma ContainsIff(hay: JsString, needle: JsString)
    ensures Contains(hay, needle) <==> exists k :: OccursAt(hay, needle, k)
  {
    if Contains(hay, needle) {
      ContainsAtSomeOffset(hay, needle);
    }
    if exists k :: OccursAt(hay, needle, k) {
      var k :| OccursAt(hay, needle, k);
      OffsetIsContained(hay, needle, k);
    }
  }

  /** `subject.match(new RegExp(pattern, 'i'))` is truthy, for a pattern made of literal
      atoms: the literal text, folded, occurs in the folded subject. */
  predicate RegexMatches(fold: Fold, pattern: JsString, subject: JsString)
    requires LiteralText(pattern).Some?
  {
    Contains(FoldString(fold, subject), FoldString(fold, LiteralText(pattern).value))
  }

  /** `subject.match(new RegExp(escapeStringRegex(text), 'i'))`. */
  predicate EscapedMatches(fold: Fold, text: JsString, subject: JsString) {
    EscapedIsLiteral(text);
    RegexMatches(fold, EscapeStringRegex(text), subject)
  }

  /** The six tests of the handler, in its order: the term in the category, the glyph or the
      name, then the category, the glyph or the name in the term. */
  predicate EntryMatches(fold: Fold, term: JsString, e: Entry) {
    || EscapedMatches(fold, term, e.category)
    || EscapedMatches(fold, term, e.glyph)
    || EscapedMatches(fold, term, e.name)
    || EscapedMatches(fold, e.category, term)
    || EscapedMatches(fold, e.glyph, term)
    || EscapedMatches(fold, e.name, term)
  }

  /** Case-insensitive literal containment. */
  predicate FoldContains(fold: Fold, hay: JsString, needle: JsString) {
    Contains(FoldString(fold, hay), FoldString(fold, needle))
  }

  /** Regular-expression metacharacters are matched literally on both sides: a match is
      exactly a case-insensitive occurrence of the term in a field or of a field in the term. */
  lemma EntryMatchesIff(fold: Fold, term: JsString, e: Entry)
    ensures EntryMatches(fold, term, e) <==>
      || FoldContains(fold, e.category, term)
      || FoldContains(fold, e.glyph, term)
      || FoldContains(fold, e.name, term)
      || FoldContains(fold, term, e.category)
      || FoldContains(fold, term, e.glyph)
      || FoldContains(fold, term, e.name)
  {
    EscapedIsLiteral(term);
    EscapedIsLiteral(e.category);
    EscapedIsLiteral(e.glyph);
    EscapedIsLiteral(e.name);
  }

  predicate StrictlyIncreasing(s: seq<nat>) {
    forall i, j | 0 <= i < j < |s| :: s[i] < s[j]
  }

  /** The matching indices of `catalog[from..]`, in catalog order. */
  function SearchFrom(fold: Fold, term: JsString, catalog: seq<Entry>, from: nat): (indices: seq<nat>)
    requires from <= |catalog|
    ensures StrictlyIncreasing(indices)
    ensures forall i | i in indices :: from <= i < |catalog|
    ensures forall i | from <= i < |catalog| :: i in indices <==> EntryMatches(fold, term, catalog[i])
    decreases |catalog| - from
  {
    if from == |catalog| then []
    else
      var rest := SearchFrom(fold, term, catalog, from + 1);
      if EntryMatches(fold, term, catalog[from]) then
        assert forall j | 0 <= j < |rest| :: rest[j] in rest;
        [from] + rest
      else rest
  }

  /** `EMOJI.map((e, i) => match ? i : null).filter(i => i !== null)`: the indices of the
      matching entries, strictly increasing, every one a valid catalog index, and an index
      is there exactly when its entry matches. */
  function Search(fold: Fold, term: JsString, catalog: seq<Entry>): (indices: seq<nat>)
    ensures StrictlyIncreasing(indices)
    ensures forall i | i in indices :: i < |catalog|
    ensures forall i | 0 <= i < |catalog| :: i in indices <==> EntryMatches(fold, term, catalog[i])
  {
    SearchFrom(fold, term, catalog, 0)
  }

  /** Any term found case-insensitively inside an entry's name returns that entry. */
  lemma NameOccurrenceIsFound(fold: Fold, term: JsString, catalog: seq<Entry>, i: nat, k: nat)
    requires i < |catalog|
    requires OccursAt(FoldString(fold, catalog[i].name), FoldString(fold, term), k)
    ensures i in Search(fold, term, catalog)
  {
    ContainsIff(FoldString(fold, catalog[i].name), FoldString(fold, term));
    EntryMatchesIff(fold, term, catalog[i]);
  }

  /** The request body once parsed; `searchTerm` is None when absent. */
  datatype Body = Body(searchTerm: Option<JsString>)

  datatype Payload = Text(text: JsString) | Indices(indices: seq<nat>)

  datatype Reply = Reply(status: int, payload: Payload)

  /** The term the handler searches for: None when the body or its `searchTerm` is missing,
      or the term is empty (`!searchTerm`). */
  function TermOf(body: Option<Body>): (term: Option<JsString>)
    ensures term.Some? <==> body.Some? && body.value.searchTerm.Some? && body.value.searchTerm.value != []
    ensures term.Some? ==> term == body.value.searchTerm
  {
    match body
    case None => None
    case Some(Body(t)) => if t.Some? && t.value != [] then t else None
  }

  /** The endpoint with its module-level cache, which it writes and never reads. */
  class SearchEndpoint {
    const catalog: seq<Entry>
    const fold: Fold
    var cache: map<JsString, seq<nat>>

    constructor (source: seq<Entry>, fold: Fold)
      ensures catalog == Emoji(source) && this.fold == fold && cache == map[]
    {
      catalog := Emoji(source);
      this.fold := fold;
      cache := map[];
    }

    /** The request handler: status 400 with an empty body and nothing matched or cached for
        a missing or empty term; otherwise status 200 with the matching indices, which are
        also stored in the cache under the term. */
    method Handle(body: Option<Body>) returns (reply: Reply)
      modifies this
      ensures TermOf(body).None? ==> reply == Reply(400, Text([])) && cache == old(cache)
      ensures TermOf(body).Some? ==>
        var term := TermOf(body).value;
        && reply == Reply(200, Indices(Search(fold, term, catalog)))
        && cache == old(cache)[term := Search(fold, term, catalog)]
    {
      var term := TermOf(body);
      if term.None? {
        return Reply(400, Text([]));
      }
      var indices := Search(fold, term.value, catalog);
      cache := cache[term.value := indices];
      return Reply(200, Indices(indices));
    }
  }
}
