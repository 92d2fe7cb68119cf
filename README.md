# IndexDisplay filter effect, modelled in Dafny

The `IndexDisplay` component of the follow-up client viewer loads an array of
client records from a JSON document and shows some of them as cards. A
`useEffect` recomputes the shown records, `filteredData`, whenever the
records, the month selector or the search box change. It starts from all
loaded records. When a month is selected, it keeps the records whose `start`
date falls in that month: `getMonth()` (0 for January) must equal
`parseInt(month)`. When the search text is non-empty, it then keeps the
records with some field value whose string form, lower-cased, includes the
lower-cased search text. The page shows "Displaying N results", where N is
the length of the result.

This project models that computation and proves what it guarantees.

- `js_values.dfy` (module `JsValues`) models the JavaScript behaviour the
  effect relies on, for values a JSON document can hold. That is `String(val)`,
  ASCII `toLowerCase`, `includes` and `parseInt` without a radix. NaN is
  `None` of an `Option`.
- `filtering.dfy` (module `Filtering`) models `Array.prototype.filter` as a
  pure function. It proves that `filter` is a selection: it keeps the elements
  at strictly increasing positions, and exactly the positions the callback
  accepts. It also proves that filters compose, commute and are idempotent.
- `index_display.dfy` (module `IndexDisplay`) models the two predicates, the
  two stages and the effect body. The body is the method `FilterEffect`, which
  mirrors the staged reassignment of `newData`. The lemmas state the
  properties of the displayed result.

A record is a `map<string, Value>`. `new Date(v).getMonth()` depends on the
runtime's date parser and time zone. It is therefore a parameter of type
`Value -> Option<int>`. A record without a `start` field gives NaN, as
`new Date(undefined)` does. The month selector offers `"8"` (September) and
`"9"` (October). `month` is the string value of the `<select>`; the model
accepts any string and, like the effect, converts it with `parseInt` before
comparing it with `getMonth()`.

## Model

| member | source | states |
|---|---|---|
| `IndexDisplay.StartMonth` | src/components/IndexDisplay.jsx:34 | `new Date(item.start).getMonth()`: a record without `start` gives NaN, and when `getMonth` stays in 0..11 so does the result |
| `IndexDisplay.MonthMatches` | src/components/IndexDisplay.jsx:34 | The month callback holds iff `parseInt(month)` is a number and the record's start month equals it; NaN on either side equals nothing |
| `IndexDisplay.SearchMatches` | src/components/IndexDisplay.jsx:39-43 | The search callback holds iff some field value, stringified and lower-cased, is some prefix, then the lower-cased search text, then some suffix; a record with no fields never matches |
| `IndexDisplay.MonthStage` | src/components/IndexDisplay.jsx:32-36 | With no month, the records are unchanged; otherwise a record is in the result iff it is loaded and its start month equals `parseInt(month)` |
| `IndexDisplay.SearchStage` | src/components/IndexDisplay.jsx:38-44 | With no search text, the records are unchanged; otherwise a record is in the result iff it is in the input and the search callback holds for it |
| `IndexDisplay.FilteredData` | src/components/IndexDisplay.jsx:30-44 | The month stage followed by the search stage returns at most `data.length` records, each loaded and passing every active filter |
| `IndexDisplay.FilterEffect` | src/components/IndexDisplay.jsx:29-47 | The staged reassignment of `newData` (month stage if `month` is non-empty, then search stage if `search` is non-empty) yields exactly one `filter` of `data` by "passes every active filter" |
| `IndexDisplay.PipelineIsOneFilter` | src/components/IndexDisplay.jsx:30-44 | Month stage followed by search stage equals a single filter of `data` by the conjunction of the active predicates |
| `IndexDisplay.PipelineSelects` | src/components/IndexDisplay.jsx:30-44 | The result lists the records of `data` at strictly increasing positions, and those positions are exactly the ones whose record passes every active filter. So nothing is added, reordered or duplicated, and duplicates in `data` are kept as separate entries |
| `IndexDisplay.PipelineMembership` | src/components/IndexDisplay.jsx:32-44 | A record is displayed iff it is in `data` and satisfies every active predicate (both directions) |
| `IndexDisplay.NoFilterShowsAll` | src/components/IndexDisplay.jsx:30-46 | With empty `month` and empty `search`, `filteredData` equals `data` |
| `IndexDisplay.MonthKeptInMonth` | src/components/IndexDisplay.jsx:32-35 | With a month selected, every displayed record has a parseable `start` whose month equals `parseInt(month)` |
| `IndexDisplay.MonthKeepsMonth` | src/components/IndexDisplay.jsx:32-44 | With a month selected, a loaded record whose `start` month equals `parseInt(month)` is displayed iff the search is empty or matches it |
| `IndexDisplay.UnparsableStartExcluded` | src/components/IndexDisplay.jsx:34 | With a month selected, a record whose `start` is missing or does not parse (NaN month) is never displayed |
| `IndexDisplay.NaNMonthShowsNothing` | src/components/IndexDisplay.jsx:34 | A non-empty month string that `parseInt` reads as NaN displays no record |
| `IndexDisplay.OutOfRangeMonthShowsNothing` | src/components/IndexDisplay.jsx:34 | A month that parses to a number outside 0..11 displays no record, because `getMonth` never returns one |
| `IndexDisplay.SearchKeepsMatches` | src/components/IndexDisplay.jsx:38-43 | With search text, a record is displayed iff it survived the month stage and some field value, stringified and lower-cased, includes the lower-cased text |
| `IndexDisplay.SearchFindsFieldText` | src/components/IndexDisplay.jsx:39-43 | Searching for the whole string form of one field value of a record, in any letter case, matches that record |
| `IndexDisplay.SearchDropsEmptyRecord` | src/components/IndexDisplay.jsx:40 | With search text, a record with no fields is never displayed (`some` of no values is false) |
| `IndexDisplay.SearchIgnoresCase` | src/components/IndexDisplay.jsx:41 | Two search texts with the same lower-cased form display the same records |
| `IndexDisplay.SearchLowerCased` | src/components/IndexDisplay.jsx:41 | Searching for the lower-cased text displays the same records as the original text |
| `IndexDisplay.StagesCommute` | src/components/IndexDisplay.jsx:32-44 | Applying the search stage before the month stage gives the same result |
| `IndexDisplay.PipelineIdempotent` | src/components/IndexDisplay.jsx:29-47 | Re-running the effect on its own output with the same `month` and `search` returns that output |
| `IndexDisplay.DisplayedCount` | src/components/IndexDisplay.jsx:69 | The displayed count equals the number of records passing every active filter, and is at most `data.length` |
| `Filtering.Filter` | src/components/IndexDisplay.jsx:33-43 | `filter` returns at most as many elements as it is given, and each returned element is accepted by the callback |
| `Filtering.FilterSelects` | src/components/IndexDisplay.jsx:33-43 | `filter` returns the elements at strictly increasing positions, and exactly at the positions whose element the callback accepts |
| `Filtering.FilterMembership` | src/components/IndexDisplay.jsx:33-43 | An element is in the result of `filter` iff it is in the input and the callback accepts it |
| `Filtering.FilterKeepsAll` | src/components/IndexDisplay.jsx:33-43 | `filter` returns its input unchanged iff the callback accepts every element |
| `Filtering.FilterAgreeing` | src/components/IndexDisplay.jsx:33-43 | Two callbacks that agree on every element give the same `filter` result |
| `Filtering.FilterFilter` | src/components/IndexDisplay.jsx:33-43 | Two `filter` calls in a row equal one `filter` by the conjunction of the callbacks |
| `Filtering.FilterCommutes` | src/components/IndexDisplay.jsx:33-43 | The order of two `filter` calls does not change the result |
| `Filtering.FilterIdempotent` | src/components/IndexDisplay.jsx:33-43 | Filtering a second time with the same callback changes nothing |
| `JsValues.IntToString` | src/components/IndexDisplay.jsx:41 | `String(n)` of an integer starts with `-` iff `n` is negative, and the rest is decimal digits |
| `JsValues.Stringify` | src/components/IndexDisplay.jsx:41 | `String(val)` of a JSON value is empty only when the value is a string or an array |
| `JsValues.JoinItems` | src/components/IndexDisplay.jsx:41 | `String` of an array joins its elements with commas, so the text has at least as many characters as there are commas, one fewer than the elements |
| `JsValues.NatToDecimal` | src/components/IndexDisplay.jsx:41 | `String(n)` of a natural number is a non-empty string of decimal digits with no leading zero |
| `JsValues.ParseIntOfString` | src/components/IndexDisplay.jsx:34 | `parseInt(String(n))` is `n` for every integer `n` |
| `JsValues.DigitsValueOfDecimal` | src/components/IndexDisplay.jsx:34 | The decimal numeral the model's `String` writes for `n` has the value `n` (JavaScript agrees up to 2^53; see "## Left out") |
| `JsValues.ParseInt` | src/components/IndexDisplay.jsx:34 | `parseInt` is NaN exactly when, after leading white space and an optional sign, no digit follows (both directions); a negative result comes only from a leading `-` |
| `JsValues.TrimStart` | src/components/IndexDisplay.jsx:34 | The white space `parseInt` skips: the result is a suffix of the string, everything dropped before it is white space, and it does not start with white space |
| `JsValues.DigitPrefix` | src/components/IndexDisplay.jsx:34 | The digits `parseInt` reads are the longest all-digit prefix of the string |
| `JsValues.LowerIdempotent` | src/components/IndexDisplay.jsx:41 | Lower-casing an already lower-cased string changes nothing |
| `JsValues.LowerSpec` | src/components/IndexDisplay.jsx:41 | Lower-casing keeps the length, turns each upper-case ASCII letter into the letter 32 code points later, leaves no upper-case ASCII letter, and keeps every other character |
| `JsValues.Lower` | src/components/IndexDisplay.jsx:41 | `toLowerCase` keeps the length and leaves no upper-case ASCII letter |
| `JsValues.Includes` | src/components/IndexDisplay.jsx:41 | `includes` of a needle longer than the text is false, and the empty needle is included in every text |
| `JsValues.IncludesSelf` | src/components/IndexDisplay.jsx:41 | Every string includes itself |
| `JsValues.IncludesIffSplit` | src/components/IndexDisplay.jsx:41 | `hay.includes(needle)` holds iff `hay` is some prefix, then `needle`, then some suffix |

## Left out

- Loading the data (`fetchData`, `axios.get`, the array check of the section, `console.error`): network I/O. The model takes `data` as an input sequence.
- IndexDisplay.Record: every element of the loaded array is taken to be a JSON object. The source checks only that the section is an array. A `null` element makes the effect throw a `TypeError` once a month or a search text is set (`item.start`, `Object.values(item)`). A primitive element (a string is searched character by character) is not modelled.
- React reactivity (`useState`, the dependency lists of both `useEffect`s, re-render scheduling). `setFilteredData` is modelled as the out-parameter of `FilterEffect`.
- The JSX: the `<select>` options, the search input, the result cards, `toLocaleDateString` and the "Not Available" fallback. These are rendering only.
- `new Date(v).getMonth()`: date parsing and the local time zone belong to the runtime. They are the function parameter `dateMonth`. The lemma `OutOfRangeMonthShowsNothing` assumes only that this function returns 0..11 or NaN.
- JsValues.Value: JSON numbers are integers. Fractional numbers, and the exponent form `String` uses when the magnitude is 10^21 or more, are not modelled. Integers of magnitude above 2^53 are rounded by `JSON.parse`, and `String` then writes the rounded double's shortest round-trip digits (`String(2**60)` is `"1152921504606847000"`); the model writes the exact integer, so `Stringify`, `IntToString` and `DigitsValueOfDecimal` match JavaScript only up to 2^53.
- JsValues.Lower: lower-cases the ASCII letters only, not the full Unicode mapping of `toLowerCase`.
- JsValues.ParseInt: decimal only. The `0x` prefix, which makes `parseInt` read hexadecimal, is not modelled. The select offers only `""`, `"8"` and `"9"`.
- The join with a service collection, the equality, age-range and date-range filters, and search over a derived `service` field: `src/components/IndexDisplay.jsx` has no code for them.
