# Emoji search, modelled in Dafny

This project models the search pipeline of the Unibergers emoji browser:

- the fixed-width code-point codec and the regular-expression escaper of `www/utils`, with the older loop-based codec of `src/utils`;
- the catalog filter of `www/constants`;
- the search endpoint `www/pages/api/search.ts`;
- the `useDefaultedDebounce` hook;
- the search logic of the page `www/pages/index.js`.

JavaScript strings are sequences of UTF-16 code units (`Utf16.JsString`). Code points are read the way `Array.from` and `for … of` read them: a surrogate pair is one code point, and a lone surrogate is a code point by itself. `String.fromCodePoint` is modelled by `Utf16.FromCodePoints`. This keeps the catalog's `char.length <= 8`, which counts code units, distinct from the encoder's limit of 8 code points.

Case-insensitive matching is a literal substring test over folded strings. The fold is a function parameter (`SearchApi.Fold`) standing for the canonicalisation that the `i` flag applies to each unit. A regular expression is modelled only when it is made of literal atoms (`Utils.LiteralText`). The model proves that every escaped string is such a pattern, for exactly that string.

The hook is a class, `Hooks.Debouncer`. Its events are `Change` (a render with new inputs) and `Fire(id)` (a timer callback). A cleared timer's callback does nothing.

The page is a class, `Home.Session`. Its events are:

- `Type`: the user edits the input;
- `TimerFires`: a debounce timer fires;
- `Complete`: a search request completes, or fails;
- `ItemsRendered`: the windowed list reports its first visible row.

Fetches are abstract. The page's events return the handle of any request they send, and `Complete` takes its outcome as an argument. Router pushes are returned as results, and `router.query` is kept as a field.

The older codec in `src/utils/index.ts` collects code points with a loop (lines 3-5), modelled by the method `SrcUtils.ConvertStringTo8CodePoints`. Its decoder (line 15) is the same `filter` followed by `String.fromCodePoint` as `www/utils/index.tsx:37`, and `SrcUtils.ConvertCodePointsToString` is proved equal to it.

The page's cache is a plain object (`www/pages/index.js:138`), so reading `cache[term]` also finds the members every object inherits from `Object.prototype`. That value is handed to the React state setter `setSearchIndices` (line 180), and React calls a function argument as an updater on the current state, which is null at that point. The page's state is therefore `Home.Results`. It is an array of indices (`Found`), or one of the values those calls produce: an empty object, a string, `false`, the prototype object itself (for `__proto__`, which is not a function), or a `TypeError` thrown by the update. `Home.ObjectPrototype` gives the outcome for each inherited name.

Some behaviour is modelled as written, even where it looks unintended:

- The match is bidirectional. An entry matches when the term occurs in its category, glyph or name, or when one of those occurs in the term. So an entry whose category, glyph or name is empty matches every term.
- The exact-match banner treats the index as a truth value. See "## Findings".
- A term that names an `Object.prototype` member, such as `constructor`, is a cache hit and sends no request. See "## Findings".
- A request that fails sets the error flag even after it has gone stale (`HomeScenarios.StaleFailureRaisesError`).
- Every time the list reports its first visible row, the `position` parameter is pushed without comparing it to the current value.
- The exact match is not removed from the rendered list.
- The result cache is never evicted. The endpoint writes its cache but never reads it.

The catalog field `char` is named `glyph`, because `char` is a Dafny keyword.

## Model

| member | source | states |
|---|---|---|
| `Utf16.CodePoints` | www/utils/index.tsx:25 | The code points of a string, in order. Each is a valid code point. There are never more than the string's code units, and none only for the empty string. The first code point is the first unit unless a pair was combined into one above U+FFFF, and no high surrogate is left followed by a low one: every pair is combined. |
| `Utf16.FromCodePointsOfCodePoints` | www/utils/index.tsx:31-37 | Passing a string's code points to `String.fromCodePoint` gives back the string. This includes lone surrogates. |
| `Utf16.FromNonZeroCodePoints` | www/utils/index.tsx:37 | Dropping the zero code points and re-encoding gives the string with its U+0000 units removed. |
| `Utf16.NulCodePoint` | www/utils/index.tsx:25 | A string has a U+0000 code point if and only if it has a U+0000 code unit. |
| `Utils.EscapeStringRegex` | www/utils/index.tsx:3-5 | The escaped length is the input length plus the number of metacharacters. |
| `Utils.EscapedIsLiteral` | www/utils/index.tsx:3-5 | An escaped string reads as a literal pattern for exactly the input. Non-metacharacters are kept in order, and each of the 14 metacharacters has exactly one backslash before it. Deleting those backslashes restores the input. |
| `Utils.EscapeConcat` | www/utils/index.tsx:4 | The replacement is global and unit by unit: escaping a concatenation escapes each part. |
| `Utils.EscapeWithoutMetacharacters` | www/utils/index.tsx:4 | A string without metacharacters is left unchanged. |
| `Utils.GetHost` | www/utils/index.tsx:10-22 | The result is `''` exactly when there is no request, and a `TypeError` exactly when the request has no Host header. Otherwise it ends with the host, it starts with `http://` exactly when the host starts with `localhost` (`https://` otherwise), and its length is the host's plus that scheme's: the scheme is prefixed and nothing else is added. |
| `Utils.ConvertStringTo8CodePoints` | www/utils/index.tsx:24-34 | Fails with a `TOO_LONG_ERROR`-prefixed message exactly when there are more than 8 code points. Otherwise returns exactly 8 numbers: the input's code points in order, then zeros. |
| `Utils.ConvertCodePointsToString` | www/utils/index.tsx:36-38 | Fails (`RangeError`) exactly when a non-zero entry is not a code point. |
| `Utils.DecodeDropsZero` | www/utils/index.tsx:36-38 | A zero entry in any position does not change the decoded string. |
| `Utils.Normalize` | www/utils/index.tsx:24-38 | For up to 8 code points, decoding the encoding gives the input with its U+0000 units removed. |
| `Utils.RoundTrip` | www/utils/index.tsx:24-38 | Decoding the encoding returns the input, for every string of at most 8 code points without U+0000. |
| `SrcUtils.ConvertStringTo8CodePoints` | src/utils/index.ts:1-12 | The loop collects every code point in order and checks the length after the full scan. It fails (untagged message) exactly when there are more than 8 code points. Otherwise the result is the code points padded with zeros to 8. |
| `SrcUtils.ConvertCodePointsToString` | src/utils/index.ts:14-16 | Equal to the newer decoder for every input. |
| `SrcUtils.RoundTrip` | src/utils/index.ts:1-16 | Decoding the loop encoder's output returns the input, for strings of at most 8 code points without U+0000. |
| `Constants.Emoji` | www/constants/index.ts:3 | Every kept entry's glyph has at most 8 code units. Every source entry with at most 8 units is kept. The catalog is a subsequence of the source, and each entry occurs in it exactly as often as in the source when it fits, and never otherwise: duplicates are kept. |
| `Constants.CatalogGlyphsEncode` | www/constants/index.ts:3 | Every catalog glyph has at most 8 code points, so the exact-match encoder never fails on one. |
| `Constants.UnitsNotCodePoints` | www/constants/index.ts:3 | The filter counts units: a glyph of five astral code points encodes into the 8 slots, yet its entry is dropped. |
| `SearchApi.FoldString` | www/pages/api/search.ts:16 | Folding maps each unit and keeps the length. |
| `SearchApi.ContainsAtSomeOffset` | www/pages/api/search.ts:24-29 | A containment found by the matcher's recursion lies at some offset. |
| `SearchApi.OffsetIsContained` | www/pages/api/search.ts:24-29 | An occurrence at any offset is found by the matcher's recursion. |
| `SearchApi.ContainsIff` | www/pages/api/search.ts:24-29 | The matcher's containment holds exactly when the needle occurs at some offset. |
| `SearchApi.EntryMatchesIff` | www/pages/api/search.ts:16-29 | Because both sides are escaped, metacharacters match literally. An entry matches exactly when the folded term occurs in its folded category, glyph or name, or one of those occurs in the folded term. |
| `SearchApi.SearchFrom` | www/pages/api/search.ts:22-32 | From a given index on: strictly increasing indices, exactly the matching ones. |
| `SearchApi.Search` | www/pages/api/search.ts:22-32 | The returned indices are strictly increasing (catalog order, no duplicates). Each is a valid catalog index. Index i is present exactly when entry i matches. |
| `SearchApi.NameOccurrenceIsFound` | www/pages/api/search.ts:26 | Any term that occurs case-insensitively in an entry's name returns that entry's index. |
| `SearchApi.TermOf` | www/pages/api/search.ts:9-12 | A term is searched only when the body and its `searchTerm` are present and non-empty. |
| `SearchApi.SearchEndpoint.constructor` | www/pages/api/search.ts:4-6 | The endpoint serves the filtered catalog, and its cache starts empty. |
| `SearchApi.SearchEndpoint.Handle` | www/pages/api/search.ts:8-37 | A missing or empty term gives status 400 with an empty body and leaves the cache alone. Otherwise the reply is status 200 with the matching indices, and the cache maps the term to them. |
| `Hooks.Debouncer.constructor` | www/hooks/index.ts:4-11 | Before any timer fires, the output is the initial input, not the default. One timer is scheduled. |
| `Hooks.Debouncer.Change` | www/hooks/index.ts:7-20 | Any change of value, delay or default clears the pending timer. It resets the output to the previously captured default and schedules exactly one fresh timer for the new value. Unchanged inputs do nothing. |
| `Hooks.Debouncer.Fire` | www/hooks/index.ts:9-17 | Only the pending timer has an effect. The output becomes the value it was scheduled with, which is the current input. A cleared timer changes nothing. |
| `Hooks.TypeTwice` | www/hooks/index.ts:13-15 | A value replaced before its delay elapses never becomes the output. The output stays at the default until the last value's timer fires. |
| `Home.FindGlyphFrom` | www/pages/index.js:156 | From a given index on, the first entry whose glyph is the string, or none. |
| `Home.FindGlyph` | www/pages/index.js:156-159 | The smallest index whose glyph equals the string, or none when no glyph does. |
| `Home.ExactMatchIndex` | www/pages/index.js:153-163 | Null exactly when the term has more than 8 code points or no glyph equals the normalised term. Otherwise it is the smallest index with that glyph. |
| `Home.TypingAGlyphFindsIt` | www/pages/index.js:153-163 | Typing a catalog glyph without U+0000 gives an exact match at or before that entry. |
| `Home.ExactMatchBannerShown` | www/pages/index.js:275 | As written, the banner shows exactly for a non-null, non-zero index. |
| `Home.ExactMatchBannerIntended` | www/pages/index.js:275 | Corrected: the banner shows exactly when there is an exact match. |
| `Home.BannerHiddenAtIndexZero` | www/pages/index.js:275 | The first catalog entry is an exact match for its own glyph, yet the banner as written is hidden, while the corrected one shows. |
| `Home.AllIndices` | www/pages/index.js:356 | `indices` is 0 … n−1. |
| `Home.ListToRender` | www/pages/index.js:170-172 | While loading, the list is empty. Otherwise it is the state when that is truthy (any array, even an empty one, or a non-array value from an inherited hit), and the full list when the state is null or falsy. |
| `Home.FlagsAgree` | www/pages/index.js:170-172 | "Searching..." and "No Results" never show together. "Searching..." comes with an empty list, and "No Results" shows exactly when the state is truthy and the list handed to the view reports length 0. |
| `Home.InitialSearch` | www/pages/index.js:358 | An empty `search` parameter counts as none. |
| `Home.InitialPosition` | www/pages/index.js:361-364 | The position is kept exactly when it is an integer p with 0 < p < the length of the active list (the initial results, or else all indices). Otherwise it is null. |
| `Home.GetInitialProps` | www/pages/index.js:353-367 | Fails only when the initial search request fails. Otherwise the initial results are exactly the fetched ones when there is an initial search and null otherwise, and the initial position is the query's position when it is valid for the list shown first. The props are well formed: the indices are 0 … n−1. |
| `Home.SearchPush` | www/pages/index.js:210-236 | With an empty term, removes `search` exactly when it is present. With a non-empty term, sets `search` to the term exactly when it differs. Otherwise it pushes nothing, and other parameters are kept. |
| `Home.SearchPushSettles` | www/pages/index.js:213-235 | After a push, the same term pushes nothing more, so the effect cannot loop. |
| `Home.PositionPush` | www/pages/index.js:285-305 | Each time the list reports its first visible row, removes `position` when that row is 0 and sets it to that row otherwise. There is no change check. |
| `Home.AddressRoundTrip` | www/pages/index.js:353-364 | An address the page pushed reloads into the same initial search, results and position. |
| `Home.MarkStale` | www/pages/index.js:194-195 | The cleanup marks every request in flight stale and keeps the set of requests. |
| `Home.CacheLookup` | www/pages/index.js:179-180 | As written: `cache[term]` hits exactly when the term was stored or names an `Object.prototype` member. A stored entry comes first; otherwise the hit is the inherited member of that name. |
| `Home.Updated` | www/pages/index.js:180 | `setSearchIndices(cache[term])` on the null state: a stored array becomes the state, and an inherited member leaves the outcome of calling it as an updater (or itself, for `__proto__`). |
| `Home.OwnCacheLookup` | www/pages/index.js:179-180 | Corrected: the lookup hits exactly for a stored term and yields what was stored. |
| `Home.OwnCacheRoundTrip` | www/pages/index.js:179-184 | With the corrected lookup, results stored under a term are read back, every other term answers as before, and an empty cache misses every term. |
| `Home.InheritedNameHitsEmptyCache` | www/pages/index.js:170-180 | With nothing stored, the page's lookup hits for `constructor`, which the corrected lookup misses. The state becomes an empty object with no `length`, so neither "No Results" nor a row shows. `toString` leaves a non-empty string, so no "No Results" either. `isPrototypeOf` leaves `false`, so the whole catalog is listed. `valueOf` throws. |
| `Home.Session.constructor` | www/pages/index.js:148-166 | The raw and debounced terms start at the initial search, and its results are shown. The cache and the set of requests start empty. The address-bar effect runs once. |
| `Home.Session.Rendered` | www/pages/index.js:170-172 | With no debounced term, the whole catalog is rendered, never an empty result. While loading, nothing is rendered. "No Results" shows only over a list whose `length` is 0. |
| `Home.Session.Cleanup` | www/pages/index.js:194-198 | Leaving a non-empty debounced term marks its request stale and clears the results and the error flag. |
| `Home.Session.Resolve` | www/pages/index.js:176-192 | Runs on the null state. A term equal to the initial search, or one the cache lookup hits (a stored term, or an inherited member name), is resolved with no request, and the state becomes what `setSearchIndices` makes of the hit. Any other term sends exactly one fresh request and leaves the results alone. |
| `Home.Session.Settle` | www/pages/index.js:174-236 | When the debounced term moves, the cleanup, search and address-bar effects run, and the invariants are kept: at most one request is not stale, and it is for the current debounced term. Nothing happens otherwise. |
| `Home.Session.Type` | www/pages/index.js:263-265 | An edit leaves the debounced term at `''` and schedules a single timer for the new text. It never sends a request, and it clears the results of a previous non-empty term. An edit that keeps the text changes nothing: results, error, cache, requests, address and timer stay. |
| `Home.Session.TimerFires` | www/pages/index.js:150-192 | Only the pending timer moves the debounced term, from `''` to the raw input, and no timer is pending afterwards. That input is resolved from the initial search or the cache lookup when possible; otherwise it sends one request and the page is loading. Any other timer changes nothing. |
| `Home.Session.Complete` | www/pages/index.js:182-191 | Results are cached under the request's term even when stale, and shown only when not stale. A failure sets the error flag even when stale, and leaves the cache unchanged. |
| `Home.Session.ItemsRendered` | www/pages/index.js:285-305 | Pushes the position for the first visible row and changes nothing else. |
| `HomeScenarios.LateResultIsIgnored` | www/pages/index.js:177-187 | When the results for a superseded term arrive late, they are cached but do not replace the newer results (for terms the cache lookup misses). |
| `HomeScenarios.StaleFailureRaisesError` | www/pages/index.js:189-191 | A failure of a stale request raises the error flag while the idle page shows the whole catalog. |
| `HomeScenarios.InheritedTermSendsNoRequest` | www/pages/index.js:176-180 | Typing `constructor` on a fresh page sends no request. React calls the inherited `Object` function on the null state, and the empty object it returns, not a list, is handed to the view. |

## Left out

- HTTP: `fetch` in `getSearchResults` (www/pages/index.js:18-29) is not modelled. The outcome of a request is an argument: the indices, or None when the response is not ok or the request fails. The request body's JSON parsing (www/pages/api/search.ts:10) is also left out; the parsed body is the input.
- The endpoint accepts only a string or missing `searchTerm`. Other JSON values are left out.
- `Number.parseInt` of the `position` parameter is not modelled. The parameter is taken as an already parsed optional integer.
- Router pushes are modelled as immediate updates of `router.query`. Their asynchrony is not modelled, and neither is the `router` object as an effect dependency.
- The `react-window` list is left out: `scrollToItem` (www/pages/index.js:203-207), `itemKey` and row rendering. Only the first visible row it reports is modelled.
- The random hand emoji (www/pages/index.js:245-253) depends on `Math.random` and is left out.
- Case folding is a parameter, not Unicode's tables. Regular expressions other than literal patterns are outside the model.
- The timers' wall-clock delay is carried in the debouncer's state but not interpreted; firing is an explicit event. Unmounting, the final cleanup, is not modelled.
- `String.fromCodePoint` is modelled as failing only on values outside 0..0x10FFFF. JavaScript's non-integer values and its limit on the number of arguments do not arise over `int`.
- The page's module-level cache is shared by every page instance in one browser session. Here it belongs to one `Home.Session`.
- `Home.Session.Rendered`: when an inherited hit leaves a value that is not an array, the model hands that value to the view but does not model what `react-window` then does with it. For an empty object, `itemCount` is undefined. For the string "[object Undefined]", `itemKey` reads `EMOJI['['].codes` at www/pages/index.js:284 and throws. For a `TypeError`, the thrown update is only marked, not the failed render it causes.
- `Home.ObjectPrototype` lists the standard members of `Object.prototype`. Members added to it by other scripts are not modelled.
- `SearchApi.SearchEndpoint.Handle`: the endpoint's cache is a plain object too, and storing under the term `__proto__` replaces its prototype instead of adding an entry. The model stores an ordinary entry; the endpoint never reads its cache, so no reply differs.
- Presentation (styled JSX, `Card`, `Layout`, `Emoji` components, document and app shells), the theme colour math and the build configuration are left out.
- The contents of `emoji.json` are not validated; the catalog is any sequence of entries.

## Findings

| source | as written | input that shows it | evidently intended | confidence | as-written member | corrected member |
|---|---|---|---|---|---|---|
| www/pages/index.js:275 | `{exactMatchIndex && <p>Exact Match</p>}` uses the index as a truth value | typing the glyph of catalog entry 0 gives `exactMatchIndex === 0`: no banner, and React renders the stray `0` as a text node | show the banner whenever `exactMatchIndex !== null` | high (not executed) | `Home.ExactMatchBannerShown`, shown by `Home.BannerHiddenAtIndexZero` | `Home.ExactMatchBannerIntended` |
| www/pages/index.js:179 | `cache[debouncedSearchTerm]` reads a plain object (line 138), so it is truthy for the names of `Object.prototype` members | typing `constructor` sends no request, and `setSearchIndices` calls the `Object` function on the null state: the state becomes an empty object, and no results, no "No Results" and no request follow. Typing `valueOf` makes the state update throw a `TypeError` while rendering. Typing `toString` leaves the string "[object Undefined]", whose first row reads `EMOJI['['].codes` (line 284) | a lookup of own entries only (`Object.create(null)`, `hasOwnProperty` or a `Map`), so that such a term is searched | high (not executed) | `Home.CacheLookup`, shown by `Home.InheritedNameHitsEmptyCache` and `HomeScenarios.InheritedTermSendsNoRequest` | `Home.OwnCacheLookup`, with `Home.OwnCacheRoundTrip` |
