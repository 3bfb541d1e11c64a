# Quote generator: the quote collection

A model of the quote collection behind the quote generator page
(`dom-manipulation/script.js`). The page keeps a module-level array of
`{text, category}` quotes, seeded with four entries. It fills a category
drop-down with the distinct categories, shows a random quote of the selected
category, and lets the user add a quote after trimming both fields.

- `option.dfy` (`Wrappers`): the `Option` type for "a quote, or the
  no-quotes message".
- `text.dfy` (`Text`): `String.prototype.trim` over the ECMAScript whitespace
  and line-terminator code points (`IsSpace`).
- `sequences.dfy` (`Sequences`): the sequence facts behind
  `[...new Set(xs)]`: duplicates removed, first occurrences kept in order.
- `quotes.dfy` (`Quotes`): the `Quote` record, the seed quotes
  (`SeedQuotes`, the array literal of lines 2-7), the category list, the
  category filter and the random pick.
- `quote_store.dfy` (`QuoteStore`): the mutable `quotes` array as a class, with
  the `addQuote` handler as a method that pushes onto it. Its invariant is
  that every stored quote has non-empty text and category with no surrounding
  whitespace.

The page's functions read the module-level array directly. Here the category
list and the filter are functions of the quote sequence, which is the `quotes`
field of a `Store`. `Math.random()` becomes a `real` parameter in `[0, 1)`.

## Model

| member | source | states |
|---|---|---|
| `Text.Trim` | dom-manipulation/script.js:53-54 | the result is the infix of the input left after removing whitespace at both ends; it neither starts nor ends with whitespace, and it is empty exactly when the input is all whitespace |
| `Text.TrimFixed` | dom-manipulation/script.js:53-54 | a string with no whitespace at either end is unchanged by trimming |
| `Text.TrimIdempotent` | dom-manipulation/script.js:53-54 | trimming twice gives the same as trimming once |
| `Sequences.Distinct` | dom-manipulation/script.js:19 | spreading a `Set` built from a sequence gives no duplicates, exactly the sequence's elements, in order of first occurrence |
| `Sequences.DistinctUnique` | dom-manipulation/script.js:19 | those three properties determine the result: any sequence that has them equals `Distinct` |
| `Quotes.Categories` | dom-manipulation/script.js:19 | the drop-down categories have no duplicates, a string is listed iff some quote has that category, and they follow each category's first appearance |
| `Quotes.SeedCategories` | dom-manipulation/script.js:2-7 | for the seed quotes the categories are Motivation, Life, Education |
| `Quotes.CategoriesAppend` | dom-manipulation/script.js:61-69 | after a push the re-derived list is the old list, followed by the new category if it was not already listed |
| `Quotes.CategoryOf` | dom-manipulation/script.js:19 | `quotes.map(q => q.category)`: one entry per quote, in order, each that quote's category |
| `Quotes.Filter` | dom-manipulation/script.js:33-35 | every filtered quote is in the collection and has the selected category, and every quote of that category is in the result |
| `Quotes.FilterCounts` | dom-manipulation/script.js:33-35 | each quote of the selected category is kept as often as it occurs in the collection; every other quote is dropped |
| `Quotes.FilterKeepsOrder` | dom-manipulation/script.js:33-35 | the filtered quotes keep their relative order: they form a subsequence of the collection |
| `Quotes.FilterAppend` | dom-manipulation/script.js:33-35 | filtering a collection with one quote pushed gives the old result, followed by the new quote when it matches |
| `Quotes.FilterEmptyIffNotListed` | dom-manipulation/script.js:37-40 | the "no quotes" branch is taken exactly for a category that is not in the category list |
| `Quotes.PickIndex` | dom-manipulation/script.js:42 | `Math.floor(random * n)` for `random` in `[0, 1)` and `n > 0` is an index in `[0, n)`, the floor of `random * n` |
| `Quotes.PickIndexReachesAll` | dom-manipulation/script.js:42 | every index in `[0, n)` is picked for some value of `random` |
| `Quotes.ShowRandomQuote` | dom-manipulation/script.js:30-43 | nothing is shown exactly when no quote has the selected category; otherwise the shown quote is in the collection and has that category |
| `Quotes.ShowRandomQuoteReachesAll` | dom-manipulation/script.js:42-43 | every quote of the selected category can be the one shown |
| `QuoteStore.SeedWellFormed` | dom-manipulation/script.js:2-7 | every seed quote has non-empty text and category with no surrounding whitespace |
| `QuoteStore.TrimmedWellFormed` | dom-manipulation/script.js:53-64 | a quote built from two inputs that trim to non-empty strings is well formed |
| `QuoteStore.WellFormedCategoriesNonEmpty` | dom-manipulation/script.js:19 | a collection of well-formed quotes never yields an empty category option |
| `QuoteStore.Store.constructor` | dom-manipulation/script.js:2-7 | the collection starts as the four seed quotes and satisfies the store invariant |
| `QuoteStore.Store.AddQuote` | dom-manipulation/script.js:52-64 | the add succeeds iff both trimmed inputs are non-empty; on failure the collection is unchanged; on success it is the old collection with the trimmed quote pushed at the end; the invariant is kept |
| `QuoteStore.AddedQuoteIsListed` | dom-manipulation/script.js:61-69 | after a successful add the re-populated list contains the new category, and that category's filtered quotes end with the new quote |

## Left out

- DOM access (element lookups, `innerHTML`, option elements, the rendered `"…"` paragraph, clearing the input fields): page plumbing with no logic to state. The shown quote is returned as a value instead.
- `alert` messages and the click listeners: browser calls; a refused add is the `false` result of `AddQuote`, and the "no quotes" message is `None`.
- The `forEach` that turns the category list into `<option>` elements: it only feeds the DOM; the list itself is `Quotes.Categories`.
- `Math.random`: its value is a parameter. The distribution is not modelled, and `Math.floor(Math.random() * n)` is computed over exact reals, so floating-point rounding of the product is not modelled.
- `Text.Trim` works on Unicode scalar values, while JavaScript strings are UTF-16 code units. All whitespace code points lie in the Basic Multilingual Plane, so the two agree on well-formed strings; lone surrogates cannot be represented.
- The reading of the input fields and the selected category: they become the parameters of `AddQuote` and `ShowRandomQuote`.
- Remote synchronisation, storage persistence and conflict handling do not occur in this script and are not modelled.
