/** The search page of www/pages/index.js: the exact-match lookup, the flags that choose the
    list to render, the initial props, the address-bar rules, and the session that reacts to
    typing, debounce timers and search-request completions. The network and the router are
    outside: fetch results come in as method arguments, issued requests and router pushes go
    out as results. */
module Home {
  import opened Wrappers
  import opened Utf16
  import opened Utils
  import opened Constants
  import opened Hooks

  /** The debounce delay the page passes to the hook, in milliseconds. */
  const DebounceDelay := 200

  // ---------------------------------------------------------------------------------------
  // Exact match

  function FindGlyphFrom(catalog: seq<Entry>, s: JsString, from: nat): (r: Option<nat>)
    requires from <= |catalog|
    ensures r.Some? ==> from <= r.value < |catalog| && catalog[r.value].glyph == s
    ensures r.Some? ==> forall j | from <= j < r.value :: catalog[j].glyph != s
    ensures r.None? ==> forall j | from <= j < |catalog| :: catalog[j].glyph != s
    decreases |catalog| - from
  {
    if from == |catalog| then None
    else if catalog[from].glyph == s then Some(from)
    else FindGlyphFrom(catalog, s, from + 1)
  }

  /** `EMOJI.findIndex(({ char }) => char === s)`, with -1 as None. */
  function FindGlyph(catalog: seq<Entry>, s: JsString): (r: Option<nat>)
    ensures r.Some? ==> r.value < |catalog| && catalog[r.value].glyph == s
    ensures r.Some? ==> forall j | 0 <= j < r.value :: catalog[j].glyph != s
    ensures r.None? ==> forall j | 0 <= j < |catalog| :: catalog[j].glyph != s
  {
    FindGlyphFrom(catalog, s, 0)
  }

  /** `exactMatchIndex`: the term is encoded into 8 slots and decoded again (which drops its
      U+0000 units); any failure, or no glyph equal to the result, gives null. Otherwise it
      is the first catalog index whose glyph equals the normalised term. */
  function ExactMatchIndex(catalog: seq<Entry>, searchTerm: JsString): (r: Option<nat>)
    ensures r.None? <==>
      |CodePoints(searchTerm)| > Slots || forall j | 0 <= j < |catalog| :: catalog[j].glyph != RemoveNul(searchTerm)
    ensures r.Some? ==> r.value < |catalog| && catalog[r.value].glyph == RemoveNul(searchTerm)
    ensures r.Some? ==> forall j | 0 <= j < r.value :: catalog[j].glyph != RemoveNul(searchTerm)
  {
    match ConvertStringTo8CodePoints(searchTerm)
    case Failure(_) => None
    case Success(codePoints) =>
      Normalize(searchTerm);
      match ConvertCodePointsToString(codePoints)
      case None => None
      case Some(normalized) => FindGlyph(catalog, normalized)
  }

  /** Every catalog glyph without U+0000 is found by typing it: the lookup returns the first
      entry with that glyph. */
  lemma TypingAGlyphFindsIt(source: seq<Entry>, i: nat)
    requires i < |Emoji(source)| && 0 !in Emoji(source)[i].glyph
    ensures ExactMatchIndex(Emoji(source), Emoji(source)[i].glyph).Some?
    ensures ExactMatchIndex(Emoji(source), Emoji(source)[i].glyph).value <= i
  {
    CatalogGlyphsEncode(source, i);
    RemoveNulNoop(Emoji(source)[i].glyph);
  }

  /** `{exactMatchIndex && <p>Exact Match</p>}` as written: the index is used as a truth
      value, so a match at index 0 shows no banner. */
  function ExactMatchBannerShown(exactMatchIndex: Option<nat>): (shown: bool)
    ensures shown <==> exactMatchIndex.Some? && exactMatchIndex.value != 0
  {
    exactMatchIndex.Some? && exactMatchIndex.value != 0
  }

  /** The banner as evidently intended: shown whenever there is an exact match. */
  function ExactMatchBannerIntended(exactMatchIndex: Option<nat>): (shown: bool)
    ensures shown <==> exactMatchIndex != None
  {
    exactMatchIndex.Some?
  }

  /** The catalog's first entry is an exact match for its own glyph, yet the banner as
      written stays hidden; the intended banner shows. */
  lemma BannerHiddenAtIndexZero(source: seq<Entry>)
    requires |Emoji(source)| > 0 && 0 !in Emoji(source)[0].glyph
    ensures ExactMatchIndex(Emoji(source), Emoji(source)[0].glyph) == Some(0)
    ensures !ExactMatchBannerShown(ExactMatchIndex(Emoji(source), Emoji(source)[0].glyph))
    ensures ExactMatchBannerIntended(ExactMatchIndex(Emoji(source), Emoji(source)[0].glyph))
  {
    TypingAGlyphFindsIt(source, 0);
  }

  // ---------------------------------------------------------------------------------------
  // Flags and the list to render

  function AllIndices(n: nat): (r: seq<nat>)
    ensures |r| == n && forall i | 0 <= i < n :: r[i] == i
  {
    seq(n, i requires 0 <= i < n => i)
  }

  /** `loading`: a debounced term is set but its results are not in yet. */
  predicate Loading(debounced: JsString, searchIndices: Option<Results>) {
    debounced != [] && searchIndices.None?
  }

  /** `noResults`: the state is truthy and its `length` is 0. */
  predicate NoResults(searchIndices: Option<Results>) {
    searchIndices.Some? && Truthy(searchIndices.value) && Length(searchIndices.value) == Some(0)
  }

  /** `listToRender = loading ? [] : searchIndices || indices`. */
  function ListToRender(debounced: JsString, searchIndices: Option<Results>, indices: seq<nat>): (list: Results)
    ensures Loading(debounced, searchIndices) ==> list == Found([])
    ensures !Loading(debounced, searchIndices) && searchIndices.Some? && Truthy(searchIndices.value) ==>
      list == searchIndices.value
    ensures searchIndices.Some? && !Truthy(searchIndices.value) ==> list == Found(indices)
    ensures searchIndices.None? && debounced == [] ==> list == Found(indices)
  {
    if Loading(debounced, searchIndices) then Found([])
    else if searchIndices.Some? && Truthy(searchIndices.value) then searchIndices.value
    else Found(indices)
  }

  /** "Searching..." and "No Results" never show together. "Searching..." comes with an
      empty list, and "No Results" shows exactly when the state is truthy and the list
      handed to the view reports length 0. */
  lemma FlagsAgree(debounced: JsString, searchIndices: Option<Results>, indices: seq<nat>)
    ensures !(Loading(debounced, searchIndices) && NoResults(searchIndices))
    ensures Loading(debounced, searchIndices) ==> ListToRender(debounced, searchIndices, indices) == Found([])
    ensures NoResults(searchIndices) <==>
      && searchIndices.Some? && Truthy(searchIndices.value)
      && Length(ListToRender(debounced, searchIndices, indices)) == Some(0)
  {
  }

  // ---------------------------------------------------------------------------------------
  // Address-bar state and initial props

  /** `router.query`: the `search` parameter, the `position` parameter as `Number.parseInt`
      reads it (None for a missing or unparsable one), and every other parameter. */
  datatype Query = Query(search: Option<JsString>, position: Option<int>, rest: map<JsString, JsString>)

  /** The props `getInitialProps` hands to the page. */
  datatype Props = Props(
    indices: seq<nat>,
    initialSearch: Option<JsString>,
    initialSearchIndices: Option<seq<nat>>,
    initialPosition: Option<int>)

  /** `query.search || null`: an empty `search` counts as none. */
  function InitialSearch(query: Query): (r: Option<JsString>)
    ensures r.Some? <==> query.search.Some? && query.search.value != []
    ensures r.Some? ==> r == query.search
  {
    if query.search.Some? && query.search.value != [] then query.search else None
  }

  /** The initial position is kept only if it is an integer strictly between 0 and the length
      of the list shown first (the initial results when there is an initial search, the whole
      catalog otherwise). */
  function InitialPosition(position: Option<int>, initialSearchIndices: Option<seq<nat>>, indices: seq<nat>): (r: Option<int>)
    ensures r.Some? <==> position.Some? && 0 < position.value < |initialSearchIndices.GetOr(indices)|
    ensures r.Some? ==> r == position
  {
    if position.Some? && 0 < position.value < |initialSearchIndices.GetOr(indices)| then position else None
  }

  /** What the page may assume of its props. */
  predicate WellFormedProps(props: Props, catalogSize: nat) {
    && props.indices == AllIndices(catalogSize)
    && props.initialSearch != Some([])
    && (props.initialSearch.None? <==> props.initialSearchIndices.None?)
    && (props.initialPosition.Some? ==>
          0 < props.initialPosition.value < |props.initialSearchIndices.GetOr(props.indices)|)
  }

  /** `getInitialProps`: `fetched` is the outcome of the server-side search for the initial
      term (None: the request failed, and so does `getInitialProps`). */
  function GetInitialProps(catalogSize: nat, query: Query, fetched: Option<seq<nat>>): (props: Option<Props>)
    ensures props.Some? <==> InitialSearch(query).None? || fetched.Some?
    ensures props.Some? ==> WellFormedProps(props.value, catalogSize)
    ensures props.Some? ==> props.value.initialSearch == InitialSearch(query)
    ensures props.Some? ==> props.value.initialSearchIndices == (if InitialSearch(query).None? then None else fetched)
    ensures props.Some? ==>
      props.value.initialPosition == InitialPosition(query.position, props.value.initialSearchIndices, props.value.indices)
  {
    var indices := AllIndices(catalogSize);
    var initialSearch := InitialSearch(query);
    if initialSearch.Some? && fetched.None? then None
    else
      var initialSearchIndices := if initialSearch.None? then None else fetched;
      Some(Props(indices, initialSearch, initialSearchIndices,
                 InitialPosition(query.position, initialSearchIndices, indices)))
  }

  /** The effect that pins the debounced term to the address bar: remove `search` when the
      term is empty and `search` is present, set it when the term is non-empty and differs,
      push nothing otherwise. Other parameters are kept. */
  function SearchPush(query: Query, debounced: JsString): (push: Option<Query>)
    ensures debounced == [] ==> (push.Some? <==> query.search.Some?)
    ensures debounced != [] ==> (push.Some? <==> query.search != Some(debounced))
    ensures push.Some? ==> push.value.position == query.position && push.value.rest == query.rest
    ensures push.Some? ==> push.value.search == (if debounced == [] then None else Some(debounced))
    ensures push.Some? ==> InitialSearch(push.value) == (if debounced == [] then None else Some(debounced))
  {
    if debounced == [] then
      if query.search.Some? then Some(query.(search := None)) else None
    else if query.search != Some(debounced) then Some(query.(search := Some(debounced)))
    else None
  }

  /** Pushing is guarded by a change check: once pushed, the same term pushes nothing more,
      so the effect cannot loop. */
  lemma {:induction false} SearchPushSettles(query: Query, debounced: JsString)
    ensures SearchPush(SearchPush(query, debounced).GetOr(query), debounced).None?
  {
  }

  /** `onItemsRendered`: each time the list reports its first visible row, the `position`
      parameter is removed when that row is row 0 and set to it otherwise, without comparing
      with its current value; other parameters are kept. */
  function PositionPush(query: Query, visibleStartIndex: nat): (pushed: Query)
    ensures pushed.search == query.search && pushed.rest == query.rest
    ensures pushed.position.Some? <==> visibleStartIndex != 0
    ensures pushed.position.Some? ==> pushed.position.value == visibleStartIndex
  {
    if visibleStartIndex == 0 then query.(position := None) else query.(position := Some(visibleStartIndex))
  }

  /** A pushed address reloads into the same state: its search term becomes the initial
      search, and a position inside the list shown first becomes the initial position. */
  lemma AddressRoundTrip(query: Query, debounced: JsString, visibleStartIndex: nat, fetched: seq<nat>, catalogSize: nat)
    requires debounced != [] && SearchPush(query, debounced).Some?
    requires visibleStartIndex < |fetched|
    ensures var q := PositionPush(SearchPush(query, debounced).value, visibleStartIndex);
      var props := GetInitialProps(catalogSize, q, Some(fetched));
      && props.Some?
      && props.value.initialSearch == Some(debounced)
      && props.value.initialSearchIndices == Some(fetched)
      && props.value.initialPosition == (if visibleStartIndex == 0 then None else Some(visibleStartIndex))
  {
  }

  // ---------------------------------------------------------------------------------------
  // The result cache, a plain object

  /** The JavaScript value the page holds as `searchIndices` once a term is resolved: an
      array of catalog indices, or one of the values a term naming an `Object.prototype`
      member leads to (see `ObjectPrototype`): a fresh empty object, the prototype object, a
      string or a boolean; `TypeError` stands for a state update that throws, which React
      rethrows while rendering the page. */
  datatype Results =
    | Found(indices: seq<nat>)
    | EmptyObject
    | PrototypeObject
    | Text(text: JsString)
    | Boolean(b: bool)
    | TypeError

  /** What `cache[term]` reads: an array stored on the cache, or the member of that name the
      cache inherits from `Object.prototype`. */
  datatype CacheValue = Stored(indices: seq<nat>) | Inherited(name: JsString)

  /** The members of `Object.prototype`, each with the state `setSearchIndices` leaves when it
      is handed that member while the state is null. React calls a function argument as an
      updater, on the current state and with `this` undefined: `Object(null)` makes a fresh
      empty object, `toString` gives "[object Undefined]", `isPrototypeOf(null)` is false
      because null is no object, and every other method converts its undefined `this` to an
      object and throws. `__proto__` reads the prototype object, not a function, which is
      stored as it is. */
  const ObjectPrototype: map<JsString, Results> := map[
    Ascii("constructor") := EmptyObject,
    Ascii("__proto__") := PrototypeObject,
    Ascii("__defineGetter__") := TypeError,
    Ascii("__defineSetter__") := TypeError,
    Ascii("__lookupGetter__") := TypeError,
    Ascii("__lookupSetter__") := TypeError,
    Ascii("hasOwnProperty") := TypeError,
    Ascii("isPrototypeOf") := Boolean(false),
    Ascii("propertyIsEnumerable") := TypeError,
    Ascii("toLocaleString") := TypeError,
    Ascii("toString") := Text(Ascii("[object Undefined]")),
    Ascii("valueOf") := TypeError]

  /** `value.length`, None where it is undefined. */
  function Length(value: Results): (n: Option<nat>)
    ensures value.Found? ==> n == Some(|value.indices|)
    ensures value.Text? ==> n == Some(|value.text|)
  {
    match value
    case Found(indices) => Some(|indices|)
    case Text(text) => Some(|text|)
    case _ => None
  }

  /** JavaScript truthiness: arrays and objects are true, a string when it is not empty, a
      boolean as itself. A thrown update counts as true, so that it is carried through to
      what is rendered. */
  predicate Truthy(value: Results) {
    match value
    case Text(text) => text != []
    case Boolean(b) => b
    case _ => true
  }

  /** Results fetched as an array, or none. */
  function AsResults(indices: Option<seq<nat>>): (r: Option<Results>)
    ensures r.Some? <==> indices.Some?
    ensures r.Some? ==> r.value == Found(indices.value)
  {
    if indices.Some? then Some(Found(indices.value)) else None
  }

  /** `cache[term]` as the page reads it, when the value is truthy: the cache is a plain
      object, so a term never stored still hits when it names an inherited member. */
  function CacheLookup(cache: map<JsString, seq<nat>>, term: JsString): (r: Option<CacheValue>)
    ensures r.Some? <==> term in cache || term in ObjectPrototype
    ensures term in cache ==> r == Some(Stored(cache[term]))
    ensures term !in cache && r.Some? ==> r.value == Inherited(term) && term in ObjectPrototype
  {
    if term in cache then Some(Stored(cache[term]))
    else if term in ObjectPrototype then Some(Inherited(term))
    else None
  }

  /** `setSearchIndices(cache[term])` while the state is null: a stored array becomes the
      state, and an inherited member leaves the state `ObjectPrototype` gives for it. */
  function Updated(value: CacheValue): (r: Results)
    requires value.Inherited? ==> value.name in ObjectPrototype
    ensures value.Stored? ==> r == Found(value.indices)
    ensures value.Inherited? ==> r == ObjectPrototype[value.name]
  {
    match value
    case Stored(indices) => Found(indices)
    case Inherited(name) => ObjectPrototype[name]
  }

  /** The lookup as evidently intended (an own-property check): a hit only for a stored term. */
  function OwnCacheLookup(cache: map<JsString, seq<nat>>, term: JsString): (r: Option<seq<nat>>)
    ensures r.Some? <==> term in cache
    ensures r.Some? ==> r.value == cache[term]
  {
    if term in cache then Some(cache[term]) else None
  }

  /** With the intended lookup, results stored under a term are read back, and every other
      term answers as before: a term never stored misses. */
  lemma OwnCacheRoundTrip(cache: map<JsString, seq<nat>>, term: JsString, other: JsString, indices: seq<nat>)
    requires other != term
    ensures OwnCacheLookup(cache[term := indices], term) == Some(indices)
    ensures OwnCacheLookup(cache[term := indices], other) == OwnCacheLookup(cache, other)
    ensures OwnCacheLookup(map[], term).None?
  {
  }

  /** With nothing cached, the page's lookup hits for inherited member names, which the
      intended lookup misses. `constructor` leaves an empty object, which has no `length`:
      neither "No Results" nor a row shows. `toString` leaves the string "[object Undefined]",
      which is not empty, so "No Results" does not show either. `isPrototypeOf` leaves false,
      so the whole catalog is listed. `valueOf` throws. */
  lemma InheritedNameHitsEmptyCache(indices: seq<nat>)
    ensures CacheLookup(map[], Ascii("constructor")) == Some(Inherited(Ascii("constructor")))
    ensures OwnCacheLookup(map[], Ascii("constructor")).None?
    ensures Updated(Inherited(Ascii("constructor"))) == EmptyObject
    ensures !NoResults(Some(EmptyObject))
    ensures Length(ListToRender(Ascii("constructor"), Some(EmptyObject), indices)).None?
    ensures Updated(Inherited(Ascii("toString"))) == Text(Ascii("[object Undefined]"))
    ensures !NoResults(Some(Text(Ascii("[object Undefined]"))))
    ensures Updated(Inherited(Ascii("isPrototypeOf"))) == Boolean(false)
    ensures ListToRender(Ascii("isPrototypeOf"), Some(Boolean(false)), indices) == Found(indices)
    ensures Updated(Inherited(Ascii("valueOf"))) == TypeError
  {
  }

  // ---------------------------------------------------------------------------------------
  // The session

  /** A search request in flight: its term, and the `stale` flag of the effect that sent it. */
  datatype Fetch = Fetch(term: JsString, stale: bool)

  function MarkStale(requests: map<nat, Fetch>): (r: map<nat, Fetch>)
    ensures r.Keys == requests.Keys
    ensures forall id | id in r :: r[id] == requests[id].(stale := true)
  {
    map id | id in requests :: requests[id].(stale := true)
  }

  class Session {
    const catalog: seq<Entry>
    const props: Props
    /** The `useDefaultedDebounce(searchTerm, 200, '')` hook. */
    const debounce: Debouncer<JsString>

    /** The raw input. */
    var searchTerm: JsString
    /** The debounced term the search effect last ran for. */
    var debounced: JsString
    var searchIndices: Option<Results>
    var searchError: bool
    /** The module-level result cache: the entries stored on it, per term. */
    var cache: map<JsString, seq<nat>>
    /** Requests sent and not yet completed, by handle. */
    var requests: map<nat, Fetch>
    var nextRequest: nat
    /** The router's current query. */
    var query: Query

    /** The search-effect state: at most one request is not stale, and it is for the
        current debounced term; with no debounced term there are no results. */
    ghost predicate EffectInvariant()
      reads this
    {
      && WellFormedProps(props, |catalog|)
      && (forall id | id in requests :: id < nextRequest)
      && (forall id | id in requests && !requests[id].stale :: requests[id].term == debounced && debounced != [])
      && (forall id1, id2 | id1 in requests && id2 in requests && !requests[id1].stale && !requests[id2].stale :: id1 == id2)
      && (debounced == [] ==> searchIndices.None?)
    }

    /** The hook is driven by the raw input with the page's delay and an empty default, so
        its output is either empty (the user is typing) or the raw input (settled). */
    ghost predicate HookInvariant()
      reads this, debounce
    {
      && debounce.Valid()
      && debounce.value == searchTerm && debounce.delay == DebounceDelay && debounce.defaultValue == []
      && (debounce.output == [] || debounce.output == searchTerm)
    }

    ghost predicate Valid()
      reads this, debounce
    {
      EffectInvariant() && HookInvariant() && debounced == debounce.output
    }

    /** Mounting the page with its initial props: the raw and the debounced term start at the
        initial search, its results are shown, and the address-bar effect runs once. */
    constructor (catalog: seq<Entry>, props: Props, query: Query)
      requires WellFormedProps(props, |catalog|)
      ensures Valid() && fresh(debounce)
      ensures this.catalog == catalog && this.props == props
      ensures searchTerm == props.initialSearch.GetOr([]) && debounced == searchTerm
      ensures searchIndices == AsResults(props.initialSearchIndices) && !searchError
      ensures cache == map[] && requests == map[]
      ensures this.query == SearchPush(query, searchTerm).GetOr(query)
    {
      this.catalog := catalog;
      this.props := props;
      var term := props.initialSearch.GetOr([]);
      debounce := new Debouncer(term, DebounceDelay, []);
      searchTerm := term;
      debounced := term;
      searchIndices := AsResults(props.initialSearchIndices);
      searchError := false;
      cache := map[];
      requests := map[];
      nextRequest := 0;
      this.query := SearchPush(query, term).GetOr(query);
    }

    /** The list handed to the windowed view. With no debounced term it is the whole
        catalog, never an empty result; "No Results" shows only over a list of length 0. */
    function Rendered(): (list: Results)
      reads this, debounce
      requires Valid()
      ensures debounced == [] ==> list == Found(props.indices)
      ensures Loading(debounced, searchIndices) ==> list == Found([])
      ensures NoResults(searchIndices) ==> Length(list) == Some(0)
    {
      ListToRender(debounced, searchIndices, props.indices)
    }

    /** The cleanup of the search effect for a non-empty term: its request goes stale, the
        results are cleared and so is the error flag. */
    method Cleanup()
      modifies this
      ensures requests == MarkStale(old(requests)) && searchIndices == None && !searchError
      ensures searchTerm == old(searchTerm) && debounced == old(debounced) && cache == old(cache)
      ensures nextRequest == old(nextRequest) && query == old(query)
    {
      requests := MarkStale(requests);
      searchIndices := None;
      searchError := false;
    }

    /** The body of the search effect for a non-empty term, which runs while the state is
        null (the term has just left '' or the cleanup cleared it): the initial search and
        terms the cache lookup hits (inherited member names included) are resolved without a
        request; any other term sends one. */
    method Resolve(term: JsString) returns (issued: Option<nat>)
      requires term != [] && searchIndices.None?
      modifies this
      ensures Some(term) == props.initialSearch ==>
        searchIndices == AsResults(props.initialSearchIndices) && issued == None && requests == old(requests)
      ensures Some(term) != props.initialSearch && CacheLookup(cache, term).Some? ==>
        searchIndices == Some(Updated(CacheLookup(cache, term).value)) && issued == None && requests == old(requests)
      ensures Some(term) != props.initialSearch && CacheLookup(cache, term).None? ==>
        && searchIndices == old(searchIndices)
        && issued == Some(old(nextRequest))
        && requests == old(requests)[old(nextRequest) := Fetch(term, false)]
      ensures nextRequest == if issued.Some? then old(nextRequest) + 1 else old(nextRequest)
      ensures searchTerm == old(searchTerm) && debounced == old(debounced) && cache == old(cache)
      ensures searchError == old(searchError) && query == old(query)
    {
      if Some(term) == props.initialSearch {
        searchIndices := AsResults(props.initialSearchIndices);
        issued := None;
      } else if CacheLookup(cache, term).Some? {
        searchIndices := Some(Updated(CacheLookup(cache, term).value));
        issued := None;
      } else {
        issued := Some(nextRequest);
        requests := requests[nextRequest := Fetch(term, false)];
        nextRequest := nextRequest + 1;
      }
    }

    /** After the hook's output moved, the effects that depend on the debounced term run:
        the old term's cleanup, the new term's search effect and the address-bar effect. */
    method Settle() returns (issued: Option<nat>, pushed: Option<Query>)
      requires EffectInvariant() && HookInvariant()
      modifies this
      ensures Valid()
      ensures searchTerm == old(searchTerm) && debounced == debounce.output
      ensures old(debounced) == debounce.output ==>
        && issued == None && pushed == None
        && searchIndices == old(searchIndices) && searchError == old(searchError)
        && requests == old(requests) && cache == old(cache) && query == old(query)
      ensures old(debounced) != debounce.output ==>
        && pushed == SearchPush(old(query), debounced)
        && query == pushed.GetOr(old(query))
        && cache == old(cache)
      ensures old(debounced) != debounce.output && debounced == [] ==>
        && issued == None && searchIndices == None && !searchError
        && requests == MarkStale(old(requests))
      ensures old(debounced) != debounce.output && old(debounced) == [] ==>
        && searchError == old(searchError)
        && (Some(debounced) == props.initialSearch ==>
              searchIndices == AsResults(props.initialSearchIndices) && issued == None && requests == old(requests))
        && (Some(debounced) != props.initialSearch && CacheLookup(old(cache), debounced).Some? ==>
              searchIndices == Some(Updated(CacheLookup(old(cache), debounced).value))
              && issued == None && requests == old(requests))
        && (Some(debounced) != props.initialSearch && CacheLookup(old(cache), debounced).None? ==>
              && searchIndices == old(searchIndices)
              && issued == Some(old(nextRequest))
              && requests == old(requests)[old(nextRequest) := Fetch(debounced, false)])
    {
      issued, pushed := None, None;
      var term := debounce.output;
      if term == debounced {
        return;
      }
      if debounced != [] {
        Cleanup();
      }
      debounced := term;
      if term != [] {
        issued := Resolve(term);
      }
      pushed := SearchPush(query, term);
      query := pushed.GetOr(query);
    }

    /** The user edits the input to `text`. The hook clears its timer, resets the debounced
        term to '' and schedules a timer for `text`; a previous non-empty debounced term is
        left: its request goes stale and results and error are cleared. */
    method Type(text: JsString) returns (issued: Option<nat>, pushed: Option<Query>)
      requires Valid()
      modifies this, debounce
      ensures Valid()
      ensures searchTerm == text && issued == None
      ensures text != old(searchTerm) ==>
        && debounced == []
        && debounce.pending == Some(Timer(old(debounce.nextId), text))
        && pushed == (if old(debounced) == [] then None else SearchPush(old(query), []))
        && query == pushed.GetOr(old(query))
        && cache == old(cache)
        && (old(debounced) != [] ==> searchIndices == None && !searchError && requests == MarkStale(old(requests)))
        && (old(debounced) == [] ==> searchIndices == old(searchIndices) && searchError == old(searchError) && requests == old(requests))
      ensures text == old(searchTerm) ==>
        && pushed == None && debounced == old(debounced) && searchIndices == old(searchIndices)
        && searchError == old(searchError) && requests == old(requests) && cache == old(cache)
        && query == old(query) && debounce.pending == old(debounce.pending)
    {
      if text == searchTerm {
        return None, None;
      }
      searchTerm := text;
      debounce.Change(text, DebounceDelay, []);
      issued, pushed := Settle();
    }

    /** The callback of debounce timer `id` runs. Only the pending timer does anything: the
        debounced term becomes the raw input, which is resolved from the initial search or
        the cache lookup when it can be, and otherwise sends one request. */
    method TimerFires(id: nat) returns (issued: Option<nat>, pushed: Option<Query>)
      requires Valid()
      modifies this, debounce
      ensures Valid()
      ensures searchTerm == old(searchTerm) && cache == old(cache)
      ensures old(debounce.pending) != Some(Timer(id, searchTerm)) || old(debounced) == searchTerm ==>
        && issued == None && pushed == None && debounced == old(debounced)
        && searchIndices == old(searchIndices) && searchError == old(searchError)
        && requests == old(requests) && query == old(query)
      ensures old(debounce.pending) == Some(Timer(id, searchTerm)) && old(debounced) != searchTerm ==>
        && old(debounced) == [] && debounced == searchTerm && debounce.pending == None
        && pushed == SearchPush(old(query), searchTerm)
        && query == pushed.GetOr(old(query))
        && searchError == old(searchError)
        && (Some(searchTerm) == props.initialSearch || CacheLookup(cache, searchTerm).Some? ==>
              issued == None && requests == old(requests))
        && (Some(searchTerm) == props.initialSearch ==> searchIndices == AsResults(props.initialSearchIndices))
        && (Some(searchTerm) != props.initialSearch && CacheLookup(cache, searchTerm).Some? ==>
              searchIndices == Some(Updated(CacheLookup(cache, searchTerm).value)))
        && (Some(searchTerm) != props.initialSearch && CacheLookup(cache, searchTerm).None? ==>
              && issued == Some(old(nextRequest)) && searchIndices == old(searchIndices)
              && Loading(debounced, searchIndices)
              && requests == old(requests)[old(nextRequest) := Fetch(searchTerm, false)])
    {
      debounce.Fire(id);
      issued, pushed := Settle();
    }

    /** Request `id` completes with `outcome` (None: it failed). Results are cached under the
        request's term whether or not it went stale, and shown only if it did not; a failure
        sets the error flag even for a stale request and leaves the cache alone. A handle that
        is not in flight changes nothing. */
    method Complete(id: nat, outcome: Option<seq<nat>>)
      requires Valid()
      modifies this
      ensures Valid()
      ensures searchTerm == old(searchTerm) && debounced == old(debounced) && query == old(query)
      ensures id !in old(requests) ==>
        requests == old(requests) && cache == old(cache)
        && searchIndices == old(searchIndices) && searchError == old(searchError)
      ensures id in old(requests) ==> requests == old(requests) - {id}
      ensures id in old(requests) && outcome.Some? ==>
        && cache == old(cache)[old(requests)[id].term := outcome.value]
        && searchError == old(searchError)
        && searchIndices == (if old(requests)[id].stale then old(searchIndices) else AsResults(outcome))
      ensures id in old(requests) && outcome.None? ==>
        cache == old(cache) && searchError && searchIndices == old(searchIndices)
    {
      if id !in requests {
        return;
      }
      var request := requests[id];
      requests := requests - {id};
      match outcome
      case Some(indices) =>
        cache := cache[request.term := indices];
        if !request.stale {
          searchIndices := Some(Found(indices));
        }
      case None =>
        searchError := true;
    }

    /** The windowed list reports its first visible row; the position parameter is pushed. */
    method ItemsRendered(visibleStartIndex: nat) returns (pushed: Query)
      requires Valid()
      modifies this
      ensures Valid()
      ensures pushed == PositionPush(old(query), visibleStartIndex) && query == pushed
      ensures searchTerm == old(searchTerm) && debounced == old(debounced) && searchIndices == old(searchIndices)
      ensures requests == old(requests) && cache == old(cache) && searchError == old(searchError)
    {
      pushed := PositionPush(query, visibleStartIndex);
      query := pushed;
    }
  }
}

module HomeScenarios {
  import opened Wrappers
  import opened Utf16
  import opened Utils
  import opened Constants
  import opened Home

  /** Searching `a`, then `b` before `a`'s results arrive: `b`'s results are shown, and when
      `a`'s results come in late they are cached under `a` but do not replace them. */
  method LateResultIsIgnored(catalog: seq<Entry>, props: Props, query: Query,
                             a: JsString, b: JsString, forA: seq<nat>, forB: seq<nat>)
    returns (shown: Option<Results>, cached: map<JsString, seq<nat>>)
    requires WellFormedProps(props, |catalog|) && props.initialSearch.None?
    requires a != [] && b != [] && a != b && a !in ObjectPrototype && b !in ObjectPrototype
    ensures shown == Some(Found(forB))
    ensures cached == map[b := forB, a := forA]
  {
    var session := new Session(catalog, props, query);
    var _, _ := session.Type(a);
    var sentA, _ := session.TimerFires(session.debounce.nextId - 1);
    var _, _ := session.Type(b);
    var sentB, _ := session.TimerFires(session.debounce.nextId - 1);
    session.Complete(sentB.value, Some(forB));
    session.Complete(sentA.value, Some(forA));
    shown, cached := session.searchIndices, session.cache;
  }

  /** Searching `a` and clearing the input before its request fails: the page is idle and
      shows the whole catalog, yet the late failure still raises the error flag. */
  method StaleFailureRaisesError(catalog: seq<Entry>, props: Props, query: Query, a: JsString)
    returns (error: bool, list: Results)
    requires WellFormedProps(props, |catalog|) && props.initialSearch.None?
    requires a != [] && a !in ObjectPrototype
    ensures error
    ensures list == Found(props.indices)
  {
    var session := new Session(catalog, props, query);
    var _, _ := session.Type(a);
    var sentA, _ := session.TimerFires(session.debounce.nextId - 1);
    var _, _ := session.Type([]);
    session.Complete(sentA.value, None);
    error, list := session.searchError, session.Rendered();
  }

  /** Typing `constructor` on a fresh page: the cache lookup hits the inherited `Object`
      function, so no request is sent; React calls it on the null state, and the empty
      object it returns, not a list, is handed to the view. */
  method InheritedTermSendsNoRequest(catalog: seq<Entry>, props: Props, query: Query)
    returns (issued: Option<nat>, list: Results)
    requires WellFormedProps(props, |catalog|) && props.initialSearch.None?
    ensures issued.None?
    ensures list == EmptyObject
  {
    var session := new Session(catalog, props, query);
    var term := Ascii("constructor");
    var _, _ := session.Type(term);
    var pushed;
    issued, pushed := session.TimerFires(session.debounce.nextId - 1);
    list := session.Rendered();
  }
}
