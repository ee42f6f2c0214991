# fellowship-app: the book endpoint and the search page

This project models the two pieces of logic of a small Laravel and React demo
that lists the books of a "Lord of the Rings" catalogue.

- **The book endpoint** (`BookController::index`, module `BookController` in
  `book_controller.dfy`). It calls the-one-api.dev, keeps only the `name`
  field of every record in `docs` and answers 200 with that list. A non-2xx
  upstream reply gets 500 with the fixed message `Failed to fetch books`. An
  exception gets 500 with the exception's own message. The upstream call is
  an input value `Upstream = Thrown(message) | Reply(status, body)`, and the
  JSON response is an output value `JsonResponse(status, payload)`. Records
  are maps from field names to JSON scalars, so "only `name` is kept" is a
  statement about map keys.
- **The search page** (`Search.jsx`, module `Search` in `search.dfy`). The
  page's state cells (`books`, `filteredBooks`, `searchTerm`, `loading`,
  `error`) are the fields of class `SearchPage`. The filter effect is the pure
  function `FilterBooks`: a case-insensitive substring filter that keeps the
  original order. `fetchBooks` is the method `FetchBooks`, which takes the
  fetch outcome as its argument. The result label is `CountLabel`.
  `SearchPage.Consistent()` says that the filter effect has run since `books`
  or `searchTerm` last changed. The constructor, `SetSearchTerm`,
  `ClearSearch` and `CompleteFetch` all re-establish it.
- `wrappers.dfy` holds `Option` (an absent or null JSON value) and `Result`
  (a value, or the message of the exception that ended the computation).

Modelling choices:

- A record in `docs` without a `name` field goes down the exception path.
  PHP raises an undefined-key warning at line 29, Laravel turns it into an
  ErrorException, and line 37 catches it. The response is then 500 with
  `Undefined array key "name"`. No test of the repository covers this case;
  the model follows what the code does rather than omitting the field.
- `successful()` and `response.ok` are both taken as `200 <= status < 300`.
- `docs` is absent, null, or held in a body that is not JSON: all three give
  `Envelope(None)`. `$response->json()['docs'] ?? []` maps each of them to
  the empty list.
- Lowercasing maps only the ASCII letters `A`–`Z`. `includes` is the
  recursive predicate `Contains`. `ContainsAt` proves it equal to "occurs at
  some position".

## Model

| member | source | states |
|---|---|---|
| `BookController.Index` | app/Http/Controllers/BookController.php:20-42 | The status is always 200 or 500. It is 200 exactly when the upstream replied 2xx and every record has a name. An exception gives 500 with its message verbatim. A non-2xx reply gives 500 with "Failed to fetch books", whatever its body. A 2xx reply without `docs` gives 200 and an empty list. A 2xx reply with a nameless record gives 500 with the undefined-key message. On 200 the list has one object per record, in the same order, each with the single key `name` carrying that record's name. |
| `BookController.ProjectBook` | app/Http/Controllers/BookController.php:28-30 | The `array_map` closure turns a record that has a `name` into an object whose only key is `name`, with the record's value for it. |
| `BookController.ProjectAll` | app/Http/Controllers/BookController.php:28-30 | The projection succeeds exactly when every record has a `name`, and otherwise fails with the undefined-key message. On success it has the same length as `docs`. Its i-th object has keys {`name`} only, with the value of `docs[i]["name"]`. |
| `BookController.ProjectAllAppend` | app/Http/Controllers/BookController.php:28-30 | Projecting `a + b` is projecting `a` followed by projecting `b`. It fails if either part fails. |
| `BookController.ProjectAllIdempotent` | app/Http/Controllers/BookController.php:28-30 | Projecting an already projected list returns the same list. |
| `BookController.ResponseDependsOnNamesOnly` | app/Http/Controllers/BookController.php:26-32 | Two replies with the same status whose records agree on the presence and value of `name` get identical responses. No other field (`_id`, `author`, `year`, ...) can influence the answer. |
| `BookController.FellowshipScenario` | app/Http/Controllers/BookController.php:26-32 | The unit test's two records, each with `_id`, `name`, `author` and `year`, give 200 and `[{"name": "The Fellowship Of The Ring"}, {"name": "The Two Towers"}]`. |
| `Search.LowerChar` | resources/js/Pages/Search.jsx:28 | Upper-case ASCII letters map to the lower-case letter at the same alphabet position. Every other character is unchanged. |
| `Search.Lower` | resources/js/Pages/Search.jsx:28 | Lowercasing keeps the length and maps each character by `LowerChar`. |
| `Search.LowerIdempotent` | resources/js/Pages/Search.jsx:28 | Lowercasing twice is the same as lowercasing once. |
| `Search.Contains` | resources/js/Pages/Search.jsx:28 | `includes`: the empty needle is contained in every string, and a contained needle is no longer than the hay. |
| `Search.ContainsAt` | resources/js/Pages/Search.jsx:28 | `Contains(hay, needle)` holds exactly when the needle occurs in the hay at some position. |
| `Search.Matches` | resources/js/Pages/Search.jsx:27-28 | The filter callback: the empty term matches every book, and a matching term is no longer than the book's name. |
| `Search.Matching` | resources/js/Pages/Search.jsx:27-29 | The filter's result is no longer than the list, and every book in it matches. |
| `Search.MatchingMembers` | resources/js/Pages/Search.jsx:27-29 | A book is in the filter's result exactly when it is in the list and its lowercased name contains the lowered term. |
| `Search.FilterBooks` | resources/js/Pages/Search.jsx:19-32 | The effect's result equals the plain filter by the lowercased term for every term, including the empty-term shortcut. |
| `Search.FilterMembers` | resources/js/Pages/Search.jsx:19-32 | A book is shown exactly when it is in `books` and its lowercased name contains the lowercased search term. |
| `Search.MatchingEverything` | resources/js/Pages/Search.jsx:20-23 | Filtering by the empty term keeps every book, so the shortcut at line 20 changes nothing. |
| `Search.EmptyTermShowsAll` | resources/js/Pages/Search.jsx:20-23 | With an empty search term, `filteredBooks` equals `books`. |
| `Search.MatchingIsSubsequence` | resources/js/Pages/Search.jsx:27-29 | The filter's result is a subsequence of the list: books are dropped, never reordered or added. |
| `Search.FilterIsSubsequence` | resources/js/Pages/Search.jsx:19-32 | The effect's result is a subsequence of `books`, and so at most `|books|` long. |
| `Search.MatchingCounts` | resources/js/Pages/Search.jsx:27-29 | A matching book appears in the result as often as in the list. A non-matching book never appears. |
| `Search.FilterCounts` | resources/js/Pages/Search.jsx:19-32 | The same as `MatchingCounts` for the effect, stated in terms of the raw search term. With `FilterIsSubsequence`, this fixes the result as exactly the matching books in their original order. |
| `Search.MatchingAppend` | resources/js/Pages/Search.jsx:27-29 | Filtering `a + b` is filtering `a` followed by filtering `b`: each book is judged on its own. |
| `Search.FilterIgnoresCase` | resources/js/Pages/Search.jsx:28 | Two terms that differ only in letter case select the same books. |
| `Search.MatchingIdempotent` | resources/js/Pages/Search.jsx:27-29 | Filtering the filtered list again by the same term returns it unchanged. |
| `Search.FilterIdempotent` | resources/js/Pages/Search.jsx:19-32 | Running the effect on `filteredBooks` with the same term returns `filteredBooks`. |
| `Search.Decimal` | resources/js/Pages/Search.jsx:86 | The rendered count is a non-empty string of decimal digits with no leading zero. |
| `Search.DecimalRoundTrip` | resources/js/Pages/Search.jsx:86 | Reading the rendered count back as a decimal number gives the count. |
| `Search.PluralSuffix` | resources/js/Pages/Search.jsx:86 | The suffix is empty exactly when the count is 1, and is "s" otherwise. |
| `Search.CountLabel` | resources/js/Pages/Search.jsx:86 | The label is "Found ", then the decimal count, then " book" when the count is 1 and " books" otherwise. |
| `Search.CountLabelExamples` | resources/js/Pages/Search.jsx:86 | Counts 0, 1 and 12 give "Found 0 books", "Found 1 book" and "Found 12 books". |
| `Search.SearchPage.constructor` | resources/js/Pages/Search.jsx:7-11 | The initial state: no books, nothing filtered, an empty term, loading, and no error. The page is consistent. |
| `Search.SearchPage.FilterEffect` | resources/js/Pages/Search.jsx:19-32 | Only `filteredBooks` changes, and it becomes the filter of `books` by `searchTerm`. |
| `Search.SearchPage.SetSearchTerm` | resources/js/Pages/Search.jsx:73 | Typing sets the term and re-runs the filter. The page is consistent, and it shows exactly the books whose lowercased name contains the lowercased term. |
| `Search.SearchPage.ClearSearch` | resources/js/Pages/Search.jsx:78 | The clear button empties the term, and then every book is shown. |
| `Search.SearchPage.FetchBooks` | resources/js/Pages/Search.jsx:34-56 | `loading` ends false. An ok response sets `books` and `filteredBooks` to the data and clears `error`. A non-ok response sets `error` to "Failed to fetch books" and leaves `books` and `filteredBooks` unchanged. A rejected fetch or body sets `error` to its message, with the lists unchanged. Nothing else changes. |
| `Search.SearchPage.CompleteFetch` | resources/js/Pages/Search.jsx:19-56 | A fetch followed by the effect that re-runs because `books` changed keeps the page consistent. After success, the page shows the fetched data filtered by the current term, which is all of it when the term is empty. A non-ok response sets `error` to "Failed to fetch books", and a rejection sets it to the rejection's message; in both cases the lists are unchanged. |
| `Search.SearchPage.ResultLabel` | resources/js/Pages/Search.jsx:85-87 | The label under the search box is "Found ", then the number of filtered books in decimal, then " book" when that number is 1 and " books" otherwise. |

## Left out

- The outbound `Http::get` (app/Http/Controllers/BookController.php:23), JSON decoding and encoding, and the Content-Type header. The call's outcome is the `Upstream` input, and the response is an output value. `UpstreamUrl` only records which URL is called.
- A `docs` value that is not a list, or a record that is not an object. PHP would raise a TypeError or a warning that the model does not follow. `docs` is modelled as absent or as a list of records.
- JSON values inside records are scalars only (string, integer, boolean, null). Nested arrays and objects are opaque to the endpoint, which copies `name` unchanged.
- `fetch` and `response.json()` (resources/js/Pages/Search.jsx:37,44) are not modelled. Their outcome is the `FetchOutcome` argument: `Rejected(message)` when either one throws, or `Delivered(status, data)`. `Delivered` has no case for a non-JSON body on an ok response, because `Rejected` covers that case.
- React's scheduling and the asynchrony of `fetchBooks` are not modelled. Each transition is one sequential method, and intermediate renders (`loading == true` during the fetch) are not observable in the model.
- JSX rendering, CSS classes, the spinner, the error banner, the "No books found" message and `console.error` (resources/js/Pages/Search.jsx:52,58-132) are left out. Only the count label at line 86 is modelled.
- Search.Matching: book names are assumed to be strings, as the page reads them. The endpoint copies a `name` of any JSON type. For a null, number or boolean name, `book.name.toLowerCase()` (resources/js/Pages/Search.jsx:28) throws a TypeError in the effect whenever the term is non-empty. `Book` cannot represent such a name, so that failure is not modelled.
- Search.LowerChar: does not model full Unicode `toLowerCase`. Only ASCII `A`–`Z` are mapped, because the Unicode case tables are outside the model.
- Numbers are rendered in decimal for non-negative integers only. A list length is never negative.
- routes/web.php, resources/js/Pages/Home.jsx and resources/js/Components/Layout.jsx are not part of this model: they hold a route table and static markup.
- The test files and their `Http::fake` harness are not modelled. Their assertions appear as the properties above, such as `FellowshipScenario` and the `Index` contract.
