# The `/data` resource of the form-filling backend, in Dafny

The backend serves one resource, `/data`, over a document store of records
with a `name`, an `address` and a `phone`:

- `GET /data?page=…` answers one page of five records together with
  `totalPages` and `currentPage`. The page number is `parseInt(page, 10) || 1`,
  and the query is `skip((page - 1) * 5).limit(5)`.
- `POST /data` rejects a body missing any of the three fields with a 400.
  Otherwise it stores one new record and answers 201.

The model replaces the store with an immutable `seq<Record>` in insertion
order. Each handler is a pure function of that sequence:

- `wrappers.dfy`: `Option`, for absent values and for NaN.
- `js_parse_int.dfy` (module `JsParseInt`): JavaScript's `parseInt(s, 10)` on
  strings. It strips leading ECMAScript white space, reads an optional sign,
  then reads the longest run of decimal digits. The module also has a decimal
  formatter, `IntToString`, which serves as the parser's inverse.
- `pagination.dfy` (module `Pagination`): the store's `skip` and `limit`, the
  page size 5, ceiling division for `totalPages`, and how the pages tile the
  collection.
- `data_api.dfy` (module `DataApi`): `Record`, the response shapes with their
  status codes, `PageParam` (`parseInt(…) || 1`), `ListPage`/`List` for
  GET /data and `Create` for POST /data, plus the properties that relate them.

`parseInt(…) || 1` maps only NaN and 0 to 1 and keeps a negative page.
A negative page then gives a negative `skip`. The store refuses that,
and the handler's `catch` answers 500 with "Error fetching data". `ListPage`
models this as `FetchFailed`, so it stays total; it has no precondition
`page >= 1`.

## Model

| member | source | states |
|---|---|---|
| JsParseInt.ParseIntOfFormatted | backend/index.js:46 | `parseInt` reads back any integer written in decimal, with any leading white space and any trailing text that does not start with a digit (" -12px" gives -12). |
| JsParseInt.ParseIntRoundTrip | backend/index.js:46 | `parseInt` of the decimal numeral of `i` is `i`, for negative `i` too. |
| JsParseInt.ParseIntWithoutDigitsIsNaN | backend/index.js:46 | A string that contains no decimal digit parses to NaN. |
| JsParseInt.ParseInt | backend/index.js:46 | `parseInt(s, 10)`: a number is read only when the text holds a digit, and a negative one only when it holds a `-`. `ParseIntOfSignedDigits` and `ParseIntOfNoDigitRun` fix the result on every string. |
| JsParseInt.ParseIntOfSignedDigits | backend/index.js:46 | White space, then an optional `+` or `-`, then a digit run of value `n`, then text that does not start with a digit, parses to `n`, or to `-n` after `-`. Leading zeros are allowed ("007" gives 7, "+5" gives 5, "-0" gives 0, which stands for JavaScript's `-0`). |
| JsParseInt.ParseIntOfNoDigitRun | backend/index.js:46 | White space followed by text that starts with neither a digit nor a sign and a digit ("abc1", "+-5", "") parses to NaN. With `ParseIntOfSignedDigits` this covers every string, because `TrimStart` splits any string into such white space and such text. |
| JsParseInt.TrimStart | backend/index.js:46 | Leading-white-space removal keeps a suffix of the input, drops only white space, and stops at the first non-white-space character. |
| JsParseInt.DigitPrefix | backend/index.js:46 | The digit run that `parseInt` reads is a prefix of the input, is all digits, and is maximal. |
| JsParseInt.NatDigits | backend/index.js:46 | The decimal numeral of `n` is non-empty, all digits, has no leading zero, and its digit value is `n`. |
| DataApi.ParseQuery | backend/index.js:46 | `parseInt(req.query.page, 10)`: an absent value (`undefined`) is NaN, and a number comes only from a present value that holds a digit. |
| DataApi.PageParam | backend/index.js:46 | The page is never 0. It is 1 exactly when the parse gives NaN, 0 or 1. Any other parsed integer is kept unchanged. |
| DataApi.PageParamOfSignedDigits | backend/index.js:46 | A `page` value holding an optional sign and a digit run of value `n` selects page `n`, or `-n` after `-`. A run of value 0 selects page 1 under either sign ("0", "-0", "000"). |
| DataApi.PageParamOfNoDigitRun | backend/index.js:46 | A `page` value whose first non-white-space text is neither a digit nor a sign and a digit ("abc1", "-x") selects page 1. |
| DataApi.PageParamOfNumeral | backend/index.js:46 | A decimal `page` value selects that page, and 0 selects page 1. Negative values are kept, not clamped. |
| DataApi.NonNumericPageIsFirstPage | backend/index.js:46 | A `page` value with no digit lists exactly what an absent one does, and both list page 1. |
| DataApi.PageParamFallbackExamples | backend/index.js:46 | An absent page, "abc" and "0" all give page 1. |
| DataApi.PageParamNegativeExample | backend/index.js:46 | "-2" gives page -2, not 1. |
| DataApi.NegativePageFails | backend/index.js:45-64 | A negative page reaches the store as a negative skip, and the answer is the 500 "Error fetching data". |
| Pagination.TotalPages | backend/index.js:57 | `totalPages` is the least page count whose pages hold every record, and it is 0 exactly when the store is empty. |
| Pagination.Offset | backend/index.js:51 | The skip `(page - 1) * 5` is non-negative exactly when `page >= 1`. |
| Pagination.Skip | backend/index.js:51 | `skip(n)` keeps `max(0, len - n)` records, and the i-th of them is the store's record `n + i`. |
| Pagination.Limit | backend/index.js:52 | `limit(n)` keeps the first `min(n, len)` records; a limit of 0 keeps all. |
| Pagination.Page | backend/index.js:50-52 | A page holds at most 5 records, exactly `min(5, max(0, len - offset))` of them. They are the store's slice from `min(offset, len)` to `min(offset + 5, len)`. |
| Pagination.PageNonEmptyIff | backend/index.js:50-57 | A page has records if and only if its number is at most `totalPages`. |
| Pagination.EarlierPagesAreFull | backend/index.js:50-57 | Every page before the last one holds exactly 5 records. |
| Pagination.PagesArePrefix | backend/index.js:50-52 | Pages 1..k concatenated are the first `min(5k, len)` records. |
| Pagination.PagesTileStore | backend/index.js:50-57 | Pages 1..`totalPages` concatenated are the whole store, in order. |
| Pagination.AppendChangesOnlyLastPage | backend/index.js:50-52 | Appending a record leaves every page unchanged except the one it lands on. |
| Pagination.AppendLandsOnLastPage | backend/index.js:50-52 | An appended record is the last record of page `ceil((len + 1) / 5)`. |
| DataApi.ListPage | backend/index.js:45-64 | For `page >= 1` the answer is a 200 whose `data` is the store's slice for that page (at most 5 records), whose `totalPages` is `ceil(len / 5)`, and whose `currentPage` is `page`. For a lower page the answer is the 500 "Error fetching data". |
| DataApi.List | backend/index.js:45-64 | GET /data answers 200 exactly when the `page` value is NaN or parses to a number of at least 0, and 500 when it parses to a negative number. A listed page has `currentPage >= 1` and `totalPages = ceil(len / 5)`. Without a `page` value the first five records are listed. `NonNumericPageIsFirstPage`, `NegativePageFails` and `CreateThenList` relate it to the parse and to POST. |
| DataApi.PagePastTheEndIsEmpty | backend/index.js:55-59 | A page beyond `totalPages` still answers 200, with empty `data` and `currentPage` echoing the request. |
| DataApi.ListedDataNonEmptyIff | backend/index.js:50-57 | A listed page's `data` is non-empty if and only if the page is within its `totalPages`. |
| DataApi.ListedDataIsPages | backend/index.js:50-52 | The `data` of listed pages 1..k, concatenated, are the store's pages 1..k. |
| DataApi.ListingTilesStore | backend/index.js:50-57 | Every listed page's `data` is that page of the store, and the `data` of the listed pages 1..`totalPages`, concatenated, is the whole store in order. |
| DataApi.Create | backend/index.js:70-86 | The request is rejected (400, "All fields are required.") exactly when `name`, `address` or `phone` is absent (`undefined`) or `""`, the two falsy values a string field can hold, and a rejection leaves the store as it was. Otherwise the store grows by one record carrying those three fields, after the untouched earlier records. |
| DataApi.RejectedCreateKeepsListing | backend/index.js:73-74 | After a rejected POST, every GET answers as it did before. |
| DataApi.CreateChangesOnlyLastPage | backend/index.js:77-81 | After an accepted POST, the new record is the last entry of the last page, and every other page's `data` is unchanged. |
| DataApi.CreateThenList | backend/index.js:77-81 | On a store of fewer than 5 records, after an accepted POST the default listing shows the whole new store, and the created record is its last entry. |

## Left out

- Express wiring is not modelled: app setup, body parsing, CORS origins, the 404 fallback route and `listen` (backend/index.js:1-15, 88-96). It holds no logic of its own.
- Startup is not modelled: `dotenv`, the `MONGO_URI` check, `mongoose.connect` and `process.exit` (backend/index.js:17-28). These are process control and I/O.
- The schema (backend/index.js:30-37) is reduced to `Record`. The store's `_id`, `createdAt` and `updatedAt` are omitted. The schema's `required` validators never fire, because the handler has already rejected missing or empty fields.
- The store is an insertion-ordered sequence. `find()` without a sort is taken to return insertion order, and `countDocuments()` is taken to be the sequence's length.
- DataApi.Create: a failing `save()` (the 500 of backend/index.js:82-85) is not modelled, because it is a foreign exception from the store. Every accepted POST is therefore an append.
- DataApi.ListPage: the only store failure modelled is the refusal of a negative skip. Other failures of `find()` or `countDocuments()` (backend/index.js:60-63) are foreign exceptions and are left out.
- Requests are modelled as atomic, one after another. Interleavings of concurrent async handlers are left out.
- Pagination.TotalPages: `Math.ceil(totalData / 5)` uses floating-point division. It is modelled as exact integer ceiling division, which agrees with the float result for any count below 2^53.
- JsParseInt.ParseInt: the result is an exact integer. JavaScript rounds a long digit run to the nearest double, so numerals beyond 2^53 may differ. The same applies to the float product `(page - 1) * 5`.
- The query parser can turn `page` into an array or an object (`?page=1&page=2`, `?page[a]=1`). Only an absent value or a single string is modelled.
- Non-string body fields (numbers, booleans, objects) are out of scope. A field is either absent or a string, and the empty string counts as missing.
