# Pokédex viewer core, modelled in Dafny

`script.js` is a browser Pokédex. It loads entries of the PokéAPI catalogue twenty at a time and shows them as cards. It filters them by a search box or by a type selector, and it opens a detail view with a Portuguese description. This project models the part of the script that is not DOM or network glue:

- the module-level state (`currentPage`, `allPokemon`, `filteredPokemon`, `isLoading`) and the display of the "load more" button;
- the handlers that change that state: `loadPokemon`, `loadMorePokemon`, `handleSearch`, `handleTypeFilter`, `handleSurprise` and `renderFilteredPokemon`;
- the pure helpers behind what is displayed: the padded number, the capitalised name, the type and stat labels, and the description choice.

Modules:

- `Seqs` (`seqs.dfy`):
  - an `Option` type;
  - the order-preserving sub-sequence relation;
  - `Array.prototype.filter` as `Filter`;
  - dropping the `null` results of a batch as `Present`.
- `Text` (`text.dfy`):
  - `toLowerCase`, `trim` and `includes`;
  - the decimal form of an id;
  - `padStart`;
  - the "first letter in upper case" display of a name.
- `Translations` (`translations.dfy`): the type and stat label tables and their `table[code] || code` fallback.
- `Catalog` (`catalog.dfy`): the entry as the viewer uses it, and the description shown in the detail view.
- `Pokedex` (`pokedex.dfy`):
  - the page ranges;
  - the search and type filters;
  - the visibility rule of the "load more" button;
  - class `App`, which holds the state. Its methods are the handlers.

`loadPokemon` is an `async` function that suspends at `await Promise.all(...)`, so it is modelled in two halves:

- `App.StartLoad` is the part before the `await`. It checks the guard, sets the flag and issues the fetches.
- `App.FinishLoad` is the part after the `await`. It appends the results, resets the filter, updates the button, and clears the flag in the `finally` block.
- `App.LoadPokemon` runs both halves with nothing in between.

The field `inFlight` records the id range of a load that is suspended. Handlers called between the two halves show what the guard does. The network is an input: `fetch(id)`, or a sequence of results, stands for what `fetchPokemon(id)` settles to, with `None` in place of `null`.

Two behaviours of the code are modelled as they are:

- **"Load more" can show and hide by different rules.** After a page load, the button follows `endId < 1010` (`script.js:109-113`). After a search or a type filter, it follows `currentPage * 20 < 1010` (`script.js:325`). The lemma `LoadMoreRulesAgree` shows that the two rules agree for the page just loaded. They can still disagree after a "load more" that the guard refused. In that case `currentPage` has moved on although its ids were never loaded.
- **Search does not find the padded number on a card.** A card shows the number padded to three digits, such as "#007". Search compares the term with the id's plain decimal digits (`pokemon.id.toString()`), so typing "007" finds entry 7 only through a name that contains "007". `PaddedNumberMatchesOnlyNames` states this.

## Model

| member | source | states |
|---|---|---|
| Seqs.Filter | script.js:288-291 | `Array.prototype.filter`: the result is an order-preserving sub-sequence of the input and holds each kept value exactly as often as the input does, and no other value |
| Seqs.FilterKeepsAll | script.js:288-291 | when every element passes, the filter returns the whole list |
| Seqs.FilterKeepsNone | script.js:288-291 | when no element passes, the filter returns the empty list |
| Seqs.Present | script.js:102 | `pokemonData.filter(p => p !== null)`: no longer than the batch; the kept values appear in the batch in the same order |
| Seqs.PresentLength | script.js:102 | each `null` result shortens the batch by exactly one |
| Seqs.PresentCounts | script.js:102 | every non-null result is kept exactly as often as it occurs |
| Seqs.PresentAllSucceeded | script.js:102 | a batch with no `null` is kept whole |
| Text.CaseRoundTrip | script.js:159 | upper-casing a letter and lower-casing it again gives the letter back; the two conversions agree on non-letters |
| Text.ToLower | script.js:280 | same length; no capital is left; non-capitals are kept; each capital becomes the small letter it came from |
| Text.ToLowerUnchanged | script.js:289 | a string without capitals is its own lower case |
| Text.ToLowerIdempotent | script.js:280 | a fact about the model, not something the script does: `ToLower` is idempotent |
| Text.IsWhitespace | script.js:280 | the characters `trim()` removes: space, tab and line breaks among them, and no ASCII letter or digit |
| Text.TrimStart | script.js:280 | never longer than the input; everything removed is white space; the result does not start with white space |
| Text.TrimEnd | script.js:280 | never longer than the input; everything removed is white space; the result does not end with white space |
| Text.TrimStartIsSuffix | script.js:280 | what trimStart keeps is a suffix of the input |
| Text.TrimEndIsPrefix | script.js:280 | what trimEnd keeps is a prefix of the input |
| Text.Trim | script.js:280 | `trim()` is empty exactly when the input is all white space; otherwise it neither starts nor ends with white space |
| Text.TrimIsInfix | script.js:280 | what `trim()` keeps is one contiguous piece of the input, and everything before and after that piece is white space |
| Text.TrimUnchanged | script.js:280 | a string with no white space at either end is its own trim |
| Text.TrimIdempotent | script.js:280 | a fact about the model, not something the script does: `Trim` is idempotent |
| Text.Contains | script.js:289-290 | `includes`: the empty term is always included, and an included term is no longer than the string |
| Text.ContainsIffOccurs | script.js:289-290 | `includes` is true exactly when the term occurs at some index of the string |
| Text.ContainsNeedsFirstChar | script.js:289-290 | a non-empty term can only be included in a string that contains its first character |
| Text.DigitChar | script.js:160 | the character for a digit value is a decimal digit |
| Text.DecimalString | script.js:160 | `String(id)`: non-empty, all decimal digits, no leading zero except for 0 itself, one digit exactly for ids below 10 |
| Text.DecimalStringRoundTrip | script.js:160 | reading the decimal string back gives the id |
| Text.Zeros | script.js:160 | a run of k `'0'` characters |
| Text.LeadingZerosIgnored | script.js:160 | zeros put in front of a digit string do not change its value |
| Text.PadStart | script.js:160 | `padStart(width, fill)`: the input itself when already `width` long; otherwise exactly `width` long, ending with the input, fill characters in front |
| Text.PadWithZeros | script.js:160 | padding with `'0'` is a run of zeros followed by the input |
| Text.PaddedIdValue | script.js:160 | the padded id is all digits and reads back as the id |
| Text.PaddedId | script.js:160 | `String(id).padStart(3, '0')`: at least three characters, all digits, reads back as the id, and is the plain decimal id once that has three or more digits |
| Text.Capitalize | script.js:159 | `charAt(0).toUpperCase() + slice(1)`: same length; the first character is no longer a small letter and equals the original ignoring case; the rest is untouched |
| Text.CapitalizeIdempotent | script.js:159 | a fact about the model, not something the script does: `Capitalize` is idempotent |
| Text.CapitalizeSameLowerCase | script.js:159 | the capitalised name equals the name ignoring case |
| Text.CapitalizeLowerRoundTrip | script.js:205 | a fact about the model, not something the script does: lower-casing the capitalised form of a name without capitals gives the name back |
| Translations.LabelOr | script.js:171 | `table[code] \|\| code`: the label when the table has a non-empty one; otherwise (no entry, or an empty label) the code itself; empty only for the empty code |
| Translations.LabelOrIdempotent | script.js:272 | a fact about the model, not something the script does: when no label of the table is a code, looking up a label again gives it back |
| Translations.StatCodesStartLower | script.js:264-271 | every stat code starts with a small letter |
| Translations.StatLabelsStartOtherwise | script.js:264-271 | no stat label is empty or starts with a small letter |
| Translations.StatLabelsAreNotCodes | script.js:264-271 | the stat table's labels are never codes |
| Translations.TypeCodesStartLower | script.js:21-40 | every type code starts with a small letter |
| Translations.TypeLabelsStartOtherwise | script.js:21-40 | no type label is empty or starts with a small letter (`'Á'` included) |
| Translations.TypeLabelsAreNotCodes | script.js:21-40 | the type table's labels are never codes |
| Translations.TranslateStatName | script.js:263-273 | each of the six stat codes gives its exact Portuguese label; any other name is returned unchanged |
| Translations.TranslateStatNameIdempotent | script.js:263-273 | a fact about the model, not something the script does: translating a stat label again gives it back |
| Translations.TranslateStatNameInjective | script.js:264-271 | a fact about the table: two different stats never share a label, so the detail view's stat rows are distinguishable |
| Translations.TranslateType | script.js:171 | a known type gives its table label, which differs from the code; an unknown type is shown as it is |
| Translations.TranslateTypeIdempotent | script.js:171 | a fact about the model, not something the script does: translating a type label again gives it back |
| Catalog.FirstInLanguage | script.js:189-191 | `find` on the language: the index of the first entry in that language, or none exactly when no entry is in it |
| Catalog.ReplaceFormFeeds | script.js:193 | `replace(/\f/g, ' ')`: same length; every form feed becomes a space; every other character stays in place; no form feed is left |
| Catalog.ReplaceFormFeedsIdempotent | script.js:193 | a fact about the model, not something the script does: `ReplaceFormFeeds` is idempotent |
| Catalog.ReplaceFormFeedsUnchanged | script.js:193 | a text with no form feed is shown exactly as it is |
| Catalog.Description | script.js:186-195 | the placeholder when the species entries are missing or none is in `'pt'`; otherwise the first `'pt'` text with its form feeds replaced; never contains a form feed |
| Pokedex.PageRange | script.js:94-95 | `startId..endId`: at most 20 ids, none above 1010, starting at 1 or later, and a full 20 exactly when `page * 20 <= 1010` |
| Pokedex.PageOfRoundTrip | script.js:94-95 | every id from 1 to 1010 belongs to the range of exactly one page |
| Pokedex.PagesDisjoint | script.js:94-95 | a later page starts after an earlier page ends, so no id is fetched by two pages |
| Pokedex.PageRangeGrows | script.js:94-95 | the next page ends no earlier, starts after this one ends, and starts right after it unless this page already reached 1010 |
| Pokedex.LoadMoreRulesAgree | script.js:109-113 | right after a page load, `endId < 1010` holds exactly when `currentPage * 20 < 1010` |
| Pokedex.RequestedIds | script.js:97-99 | the loop issues one fetch per id of the range, in increasing order, and only those ids |
| Pokedex.Fetches | script.js:101 | `Promise.all` yields one result per requested id |
| Pokedex.LowerKeepsEnds | script.js:280 | lower-casing does not put white space at either end |
| Pokedex.SearchTerm | script.js:280 | `trim().toLowerCase()`: empty exactly when the input is all white space, otherwise free of white space at both ends, and without capitals |
| Pokedex.SearchTermIdempotent | script.js:280 | a fact about the model, not something the script does: a normalised term is its own search term |
| Pokedex.DigitsSearchTerm | script.js:280 | a string of digits is its own search term |
| Pokedex.MatchesSearch | script.js:289-290 | the empty term matches every entry, and a matching term is no longer than the lower-cased name or the decimal id |
| Pokedex.MatchesSearchIffOccurs | script.js:289-290 | an entry matches exactly when the term occurs at some index of its lower-cased name or of its decimal id |
| Pokedex.SearchResults | script.js:281-291 | the whole list for the empty term; otherwise exactly the entries whose lower-cased name or decimal id includes the term, each as often as in the list, in list order |
| Pokedex.SearchFindsId | script.js:288-291 | searching for a loaded entry's id finds that entry |
| Pokedex.PaddedNumberMatchesOnlyNames | script.js:288-291 | for an id below 100, searching its padded number can only match through the name, and never matches a name without `'0'` |
| Pokedex.HasType | script.js:310 | `types.some(type => type.type.name === t)`: some position of the entry's type list holds t |
| Pokedex.TypeResults | script.js:306-311 | the whole list for the empty selection; otherwise exactly the entries having that type, each as often as in the list, in list order |
| Pokedex.UnknownTypeGivesNothing | script.js:309-311 | a type no loaded entry has gives an empty list |
| Pokedex.CommonTypeKeepsAll | script.js:309-311 | a type every loaded entry has keeps the whole list |
| Pokedex.LoadMoreAfterFilter | script.js:322-326 | the button is shown exactly when the filter left nothing out and the current page ends before 1010 |
| Pokedex.LoadMoreAfterFilterMeaning | script.js:322-326 | a filter that leaves entries out hides the button; a filter that keeps all shows it exactly when the current page ends before 1010 |
| Seqs.SubsequenceShorter | script.js:322 | a filtered list different from the full list is strictly shorter |
| Pokedex.PresentOfAnswers | script.js:97-102 | the entries kept from a batch answering the ids in turn are in increasing id order, within the requested ids |
| Pokedex.AscendingAppend | script.js:104 | appending entries with higher ids keeps the list in id order |
| Pokedex.App.constructor | script.js:2-6 | page 1, both lists empty, not loading, nothing requested |
| Pokedex.App.StartLoad | script.js:87-99 | refused with nothing changed while a load is in flight; otherwise raises the flag and requests exactly the current page's ids, in order; keeps the id order invariant |
| Pokedex.App.FinishLoad | script.js:101-121 | appends the non-null results, resets the filter to everything loaded, sets the button by `endId < 1010` (left as it was when rendering throws), shows the error on a throw, and clears the flag; keeps the list in id order when each answer is the entry for its id |
| Pokedex.App.LoadPokemon | script.js:86-122 | with the flag up, nothing changes; otherwise the loaded list grows by the current page's non-null results, the filter resets, the button follows the page end, and the flag ends down |
| Pokedex.App.LoadMore | script.js:329-332 | the page number always advances by one, and the load starts only when none is in flight; a refused load on a page ending before 1010 leaves the new current page unrequested (`NoGap` broken) |
| Pokedex.App.LoadMoreWhenIdle | script.js:329-332 | with the guard in front of the increment, nothing changes while a load is in flight, and `NoGap` (every id up to the current page's end requested) is kept |
| Pokedex.App.RenderFiltered | script.js:316-326 | when drawing a card throws (`renderFails`), the exception leaves before the button update and the button keeps its display; otherwise the button is hidden while the filter leaves entries out, and shown while `currentPage * 20 < 1010` when it does not |
| Pokedex.App.Search | script.js:279-294 | the filtered list becomes the search results of the normalised input over everything loaded, even when drawing then throws; the button then keeps its display, and otherwise follows the filter rule |
| Pokedex.App.FilterByType | script.js:303-315 | the filtered list becomes the type results over everything loaded, even when drawing then throws; the button then keeps its display, and otherwise follows the filter rule |
| Pokedex.App.Surprise | script.js:296-301 | nothing on an empty list; otherwise some loaded entry |
| Pokedex.FirstPageScenario | script.js:86-122 | loading page 1 with every fetch succeeding gives 20 entries, all shown, with the button shown |
| Pokedex.SkippedPageScenario | script.js:329-332 | with page 1 loaded, a click that starts page 2 and a second click while page 2 loads, each made while the button is shown, make the next click ask for 61..80; by then ids 41..60 have not been requested and every other id up to 80 has |
| Pokedex.GuardedLoadMoreScenario | script.js:329-332 | the same clicks with the guard first make the next click ask for 41..60, with every id up to 60 requested |

## Findings

| source | as written | input that shows it | evidently intended | confidence | as-written member | corrected member |
|---|---|---|---|---|---|---|
| script.js:329-332 | `currentPage++` runs before the `isLoading` guard of `loadPokemon`, so a "load more" during a load uses up a page number without fetching it | with page 1 loaded, click "load more" (page 2 starts loading), click it again while page 2 loads (refused, page 3 used up), then click once more after page 2 arrives: that load asks for ids 61..80, and ids 41..60 are never requested | the guard, meant to stop duplicate triggers, should also stop the page from advancing | medium, not executed | Pokedex.App.LoadMore | Pokedex.App.LoadMoreWhenIdle |

The as-written clause is `App.LoadMore`'s last `ensures`: a refused load, on a page that ends before 1010, breaks `NoGap`. `SkippedPageScenario` shows the click sequence, each click made while the button is shown. `App.LoadMoreWhenIdle` keeps `NoGap`, and `GuardedLoadMoreScenario` shows the same clicks fetching 41..60. `App.LoadMore` remains the model of the script, because the page it ships behaves that way.

## Left out

- `fetchPokemon` (`script.js:124-143`): the two dependent HTTP requests, JSON decoding and `response.ok` are not part of this model. Each fetch is an input value, `None` for `null`.
- The concurrency of `Promise.all`: fetches are issued together, but the state changes only after all of them settle. The model therefore sees the batch as one sequence of results in id order.
- Handlers that run while a load is suspended are modelled by calling `App` methods between `App.StartLoad` and `App.FinishLoad`. No other interleaving exists in the single-threaded event loop.
- DOM work is left out: card and modal HTML, `showLoading`/`hideLoading`, event wiring, closing the modal and the timer of `showError`. The loading indicator follows `isLoading` exactly.
- Pokedex.App.FinishLoad: an exception inside the `try` after the push, such as `renderPokemon` failing on malformed data, is the input `renderFails`. The model does not capture which card failed or what was drawn before the failure.
- Pokedex.App.Surprise: `Math.random` is a free choice of index. The model states that some loaded entry is picked, not how uniformly.
- `showPokemonDetails` is left out except for the description choice, the name and the stat and type labels. Height and weight scaling, stat bar widths, abilities and sprites are not part of this model.
- Text.ToLower: converts only ASCII letters. JavaScript's `toLowerCase` also maps non-ASCII capitals, and a user can type them into the search box. For example, U+212A KELVIN SIGN becomes `'k'`, so in the script that term matches every name containing `'k'`, while in the model it matches none. `Pokedex.SearchTerm`, `Pokedex.MatchesSearch` and `Pokedex.SearchResults` inherit this gap for non-ASCII input.
- Text.Capitalize: upper-cases only an ASCII first letter. JavaScript's `toUpperCase` can also change a non-ASCII letter, or lengthen it (`'ß'` becomes `"SS"`).
- Strings are sequences of Unicode scalar values, not UTF-16 code units, so `charAt(0)` on a character outside the Basic Multilingual Plane is not modelled.
- Translations.LabelOr: a lookup by a key inherited from `Object.prototype`, such as `"constructor"`, returns a function in JavaScript. The model treats such a key as absent. Translations.TranslateStatName and Translations.TranslateType use LabelOr and inherit this gap.
- Pokedex.App.FinishLoad: the id order invariant is stated only when the API answers each id with the entry of that id. The model does not check the API's answers.
- Pokedex.App.constructor: the button's display before the first load comes from the page's markup and style sheet, so it is a parameter.
