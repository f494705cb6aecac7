# Car chatbot: a verified model of its core

The car chatbot is a Node.js server with a React client. A user types a question about a car. The server asks the Wit.ai NLU service for the intent, brand and model. It then answers with one of:

- an image from Unsplash;
- a price or description from its MongoDB car catalog;
- a fallback sentence.

The server stores every message with its answer and appends the message id to the user's history. At startup it seeds the catalog from a CSV file and creates an admin user. The admin client shows a user dashboard (search, gender filter, sort, pagination, CSV export, delete, edit) and charts built from per-key counts. The chat page shows the transcript newest first and renders image answers as HTML.

This project models that core in Dafny and proves what each part promises:

| Dafny file | models |
|---|---|
| `wrappers.dfy` | `Option` and `Result` |
| `js_string.dfy` | the JavaScript string built-ins involved (`trim`, ASCII `toLowerCase`, `includes`, character-class removal, `join`, one-character `split`, integer `${n}`, `Number()` on decimal integers) with their algebra: trim/lower commute, split of join, round trip of `Number(${n})` |
| `js_array.dfy` | `find`, `filter` and `slice` |
| `car_model.dfy` | the `Car` schema and Mongoose's required-field validation |
| `response_handler.dfy` | `formatPrice`, `compareStrings`, `cleanCarModel` and the decision procedure of `get_response` |
| `server.dfy` | the socket `message` handler over an in-memory store (a `Store` class plus a `Connection` class recording emissions), the CSV seeding loop and `createAdminUser` |
| `api_types.dfy` | the user record the client receives |
| `dashboard.dfy` | the dashboard's filter, in-place sort, pagination, page buttons, CSV text and state updates |
| `charts.dfy` | the `useCharts` counts (a loop over a mutable accumulator), chart data and the loading/error state |
| `graphs.dfy` | ticker relabelling and the order of the loading/error checks |
| `message_list.dfy` | the image-answer test, newest-first rows and their fallbacks |

Code that changes state is modelled by classes and methods. Each method's postcondition ties the new state to a pure specification function, and the lemmas are proved about that function.

External services and library calls are parameters:

- the Wit.ai answer: `wit`;
- the Unsplash result URLs: `unsplash`;
- whether the catalog read succeeds;
- the JWT verifier: `verify`;
- the outcome of each database write: `DbOutcome`;
- which lookups of the seeding loop reject: `lookupFails`;
- the stock quotes.

## Model

| member | source | states |
|---|---|---|
| ResponseHandler.FormatPrice | projekat/server/handler/responseHandler.js:22-24 | the text ends in " €" and what precedes it reads back with `Number` as exactly the price |
| ResponseHandler.CompareStrings | projekat/server/handler/responseHandler.js:27-29 | two strings match when they are equal after trimming and lower-casing; its properties are stated by CompareStringsIsEquivalence, CompareStringsIgnoresPaddingAndCase and CompareStringsExample |
| ResponseHandler.CompareStringsIsEquivalence | projekat/server/handler/responseHandler.js:27-29 | the comparison is reflexive, symmetric and transitive |
| ResponseHandler.CompareStringsIgnoresPaddingAndCase | projekat/server/handler/responseHandler.js:27-29 | a string matches its own trimmed and its own lower-cased form |
| ResponseHandler.CompareStringsExample | projekat/server/handler/responseHandler.js:27-29 | "Toyota" matches " toyota " |
| ResponseHandler.CleanCarModel | projekat/server/handler/responseHandler.js:32-34 | the cleaned model contains no `?` or `.`, has no whitespace at either end and has no upper-case letter |
| ResponseHandler.CleanCarModelIdempotent | projekat/server/handler/responseHandler.js:32-34 | cleaning twice is the same as cleaning once |
| ResponseHandler.FetchCarData | projekat/server/handler/responseHandler.js:11-19 | a failed catalog read is an empty catalog |
| ResponseHandler.FindCar | projekat/server/handler/responseHandler.js:96-99 | the result is the first catalog car matching both brand and model under `compareStrings`, or none when no car matches |
| ResponseHandler.FindCarSameMatches | projekat/server/handler/responseHandler.js:96-99 | two lookups that agree on which cars match return the same car |
| ResponseHandler.LookupIgnoresCaseAndPadding | projekat/server/handler/responseHandler.js:96-99 | lookups with brands and models equal up to case and surrounding whitespace return the same car |
| ResponseHandler.ImageAnswer | projekat/server/handler/responseHandler.js:80-88 | the image-path reply is never empty |
| ResponseHandler.CatalogAnswer | projekat/server/handler/responseHandler.js:94-116 | the catalog-path reply is never empty |
| ResponseHandler.Resolve | projekat/server/handler/responseHandler.js:69-118 | every branch of the decision answers with non-empty text |
| ResponseHandler.GetResponse | projekat/server/handler/responseHandler.js:59-123 | the answer is never empty, and a failed NLU call gives "Sorry, there was an error processing your request." |
| ResponseHandler.OnlyFirstValuesUsed | projekat/server/handler/responseHandler.js:70-77 | two NLU answers with the same first intent and the same first brand and model values (with "" as absent) get the same reply |
| ResponseHandler.ImageRequestAnswer | projekat/server/handler/responseHandler.js:80-88 | for `car_image` with a brand, the query is "{brand} car"; the reply is the `<img>` tag of the first URL, or the no-image apology when no URL comes back or the call fails; the catalog does not affect the reply |
| ResponseHandler.PriceAnswer | projekat/server/handler/responseHandler.js:101-106 | for `car_price`, when the first matching car is car i, the reply is the price template for car i and contains "{price} €" |
| ResponseHandler.InfoAnswer | projekat/server/handler/responseHandler.js:108-111 | for `car_info` or `car_description`, when the first matching car is car i, the reply is the fuel-type/transmission template followed by `about` |
| ResponseHandler.NoInformationAnswer | projekat/server/handler/responseHandler.js:114-115 | outside the image path, a catalog miss or a hit under another intent gives "Sorry, I don't have information about the {brand} {model}." with the user's brand and the cleaned model |
| ResponseHandler.ClarifyAnswer | projekat/server/handler/responseHandler.js:118 | outside the image path, without a brand or without a non-empty cleaned model, the reply asks the user to clarify |
| ResponseHandler.PunctuationOnlyModelIsAbsent | projekat/server/handler/responseHandler.js:75-77 | a price question about "Toyota" whose model is "?." cleans the model to "" and so gets the clarifying reply |
| CarModel.MissingPaths | projekat/server/models/Car.js:4-22 | the listed paths are exactly the schema paths whose required check fails |
| CarModel.Validate | projekat/server/models/Car.js:4-22 | validation succeeds iff all six paths are present (strings non-empty, price a number); success gives back the same document, failure names at least one schema path |
| CarModel.ValidateRoundTrip | projekat/server/models/Car.js:4-22 | a stored car's document validates iff its string fields are non-empty, and then gives the same car |
| CarModel.ValidatedCarsAreWellFormed | projekat/server/models/Car.js:5-20 | every car that passes validation has non-empty brand, model, fuel type, transmission and description |
| Server.OnMessageSpec | projekat/server/index.js:131-155 | the handler on one message, from the token check to the emitted payload; its properties are stated by the lemmas TokenFailureChangesNothing to OnMessagePreservesConsistent |
| Server.TokenFailureChangesNothing | projekat/server/index.js:131-154 | when the token does not verify, the store is unchanged and the error shape carries the verifier's message |
| Server.OneMessageSaved | projekat/server/index.js:136-144 | with a valid token and a successful save, exactly one message {text, get_response(text)} is added under a fresh id; a failed save adds nothing |
| Server.HistoryAppended | projekat/server/index.js:147 | the new message id goes at the end of the verified user's history; every other user is unchanged and no user is added or removed |
| Server.PayloadIsSavedMessage | projekat/server/index.js:150 | on success the payload emitted is the stored message |
| Server.UpdateFailureKeepsMessage | projekat/server/index.js:143-154 | a failed history update emits the error shape with the database's reason; the saved message stays stored and no history changes |
| Server.OnMessagePreservesConsistent | projekat/server/index.js:131-155 | every outcome keeps the store consistent: ids fresh, messages under their own id, histories naming stored messages; the greeting is never the answer |
| Server.Seed | projekat/server/index.js:72-97 | the catalog after the loop has visited a run of rows; its properties are stated by SeedLogEntry, SeedPrefix, SeedOnlyAppends, SeedKeepsKeysUnique, SeedSettlesRows, SeedOfSettled and SeedIdempotent |
| Server.SeedLog | projekat/server/index.js:72-97 | the loop logs one outcome per row |
| Server.SeedLogEntry | projekat/server/index.js:72-97 | whatever saves are refused, row i is looked up in the catalog the earlier rows left: it is logged as already present iff a car has its exact brand and model, as rejected iff it is absent and fails validation, as a refused save iff it is absent, valid and its own save fails, and as inserted iff it is absent, valid and its own save succeeds; a refused save of an earlier row does not stop the loop or block a later row; only an inserted row adds a car, its validated document at the end |
| Server.SeedOnlyAppends | projekat/server/index.js:72-97 | seeding keeps the existing cars in order and appends at most one car per row, each the validated document of a row |
| Server.SeedKeepsKeysUnique | projekat/server/index.js:76-77 | the check on exact brand and model never lets a second car with the same pair in |
| Server.SeedSettlesRows | projekat/server/index.js:72-97 | after a run in which no save is refused, every row is either present or invalid |
| Server.SeedOfSettled | projekat/server/index.js:72-97 | seeding rows that are all present or invalid changes nothing, whatever the database does |
| Server.SeedIdempotent | projekat/server/index.js:72-97 | re-running the seeding after a run with no refused save inserts nothing |
| Server.FirstLookupFailure | projekat/server/index.js:72-76 | the loop stops at the first row whose `findOne` lookup rejects (the lookup is outside the `try`), and visits every row when none does |
| Server.SeedPrefix | projekat/server/index.js:72-97 | the catalog after the first k rows is a prefix of the catalog after all rows: a run stopped by a failed lookup keeps the cars it stored, and every catalog seen while the loop runs is a prefix of the final one |
| Server.CreateAdminSpec | projekat/server/index.js:37-62 | create-if-absent of the admin user; its properties are stated by AdminExistsAfterCreate, AdminCreateOnlyWhenAbsent, AdminSaveFailureChangesNothing and CreateAdminIdempotent |
| Server.AdminExistsAfterCreate | projekat/server/index.js:37-58 | after a successful call an admin with that e-mail exists; when no user had it, a new user "Car Bot Admin" with `isAdmin` true is created; no other user changes; consistency is kept |
| Server.CreateAdminIdempotent | projekat/server/index.js:40-42 | a second call after a successful one changes nothing |
| Server.AdminCreateOnlyWhenAbsent | projekat/server/index.js:40-42 | when some user already has the admin e-mail, the database is unchanged whatever the save would do |
| Server.AdminSaveFailureChangesNothing | projekat/server/index.js:54-61 | a save that throws is caught and leaves the database as it was; every outcome keeps the store consistent |
| Server.Store.SaveMessage | projekat/server/index.js:143-144 | the message is stored under the next fresh id and nothing else changes; the store stays consistent |
| Server.Store.PushMessage | projekat/server/index.js:147 | the id is appended to that user's history; an unknown user leaves the store unchanged; when the id names a stored message the store stays consistent |
| Server.Store.InsertCarDataFromCsv | projekat/server/index.js:72-97 | the loop stops at the first failed lookup, reporting it, and leaves the catalog equal to the seeding fold over the rows before it, returning their log; nothing else changes and the store stays consistent |
| Server.Store.CreateAdminUser | projekat/server/index.js:37-58 | the new store is the create-if-absent specification applied to the old one, and it stays consistent |
| Server.Connection.constructor | projekat/server/index.js:124-128 | a new connection has emitted exactly one greeting, "Welcome to the AI chatbot" on `message` |
| Server.Connection.OnMessage | projekat/server/index.js:131-155 | the store becomes the handler specification's new store and stays consistent, and exactly one emission, on `response`, is appended |
| Dashboard.FilterUsers | projekat/client/src/components/Dashboard/DashboardGUI.jsx:62-66 | a user is kept iff the lower-cased name contains the lower-cased term and the gender filter is empty or equal |
| JsArray.FilterCounts | projekat/client/src/components/Dashboard/DashboardGUI.jsx:62-66 | filtering keeps every copy of a user that passes and no copy of one that does not |
| Dashboard.EmptyFiltersKeepEveryone | projekat/client/src/components/Dashboard/DashboardGUI.jsx:62-66 | an empty term and an empty gender filter keep the whole list, in order |
| Dashboard.SearchIgnoresCase | projekat/client/src/components/Dashboard/DashboardGUI.jsx:63 | terms equal up to case select the same users |
| Dashboard.SortedMeansOrderedCounts | projekat/client/src/components/Dashboard/DashboardGUI.jsx:69-77 | sorted means ascending message counts for "ascending" and descending for any other order |
| Dashboard.SortUsers | projekat/client/src/components/Dashboard/DashboardGUI.jsx:69-77 | the in-place sort leaves the array sorted by the comparator's key and a permutation of what it was |
| Dashboard.InsertAt | projekat/client/src/components/Dashboard/DashboardGUI.jsx:69-77 | one insertion step extends the sorted prefix by one element and keeps the array a permutation |
| Dashboard.TotalPages | projekat/client/src/components/Dashboard/DashboardGUI.jsx:84 | the page count is `ceil(n / 2)`: 0 only for no users, else the least t with n <= 2t |
| Dashboard.PageHoldsAtMostTwo | projekat/client/src/components/Dashboard/DashboardGUI.jsx:80-82 | any page number, negative and 0 included, gives at most two users |
| Dashboard.PageContents | projekat/client/src/components/Dashboard/DashboardGUI.jsx:80-82 | page p (p >= 1) is the run of the sorted list from index (p-1)*2 to min(p*2, n) |
| Dashboard.PagesUpToPrefix | projekat/client/src/components/Dashboard/DashboardGUI.jsx:80-84 | pages 1..k placed one after the other form the first min(2k, n) users |
| Dashboard.PagesPartitionList | projekat/client/src/components/Dashboard/DashboardGUI.jsx:80-84 | pages 1..totalPages placed one after the other form the whole sorted list |
| Dashboard.PageOfUser | projekat/client/src/components/Dashboard/DashboardGUI.jsx:80-84 | user i is on page i/2+1, which is within 1..totalPages, and on no other page from 1 on |
| Dashboard.PrevPage | projekat/client/src/components/Dashboard/DashboardGUI.jsx:245 | Previous never goes below 1 and otherwise steps back one page |
| Dashboard.NextPage | projekat/client/src/components/Dashboard/DashboardGUI.jsx:255 | Next never goes above totalPages and otherwise steps forward one page |
| Dashboard.ButtonsStayInRange | projekat/client/src/components/Dashboard/DashboardGUI.jsx:243-262 | from a page in 1..totalPages both buttons stay in 1..totalPages |
| Dashboard.NextOnEmptyList | projekat/client/src/components/Dashboard/DashboardGUI.jsx:254-257 | with no users Next is enabled on page 1 and moves to page 0, whose slice is empty; Previous then returns to 1 |
| Dashboard.ConvertToCsv | projekat/client/src/components/Dashboard/DashboardGUI.jsx:87-92 | the header, then one line per user, joined by newlines; its shape is stated by CsvLines, CsvHasHeaderAndOneLinePerUser and CsvLineFields |
| Dashboard.CsvLines | projekat/client/src/components/Dashboard/DashboardGUI.jsx:89 | one line per user, in order |
| Dashboard.CsvHasHeaderAndOneLinePerUser | projekat/client/src/components/Dashboard/DashboardGUI.jsx:87-92 | when no field holds a line break, the export splits on `\n` into the header then one line per user, 1 + n lines |
| Dashboard.CsvLineFields | projekat/client/src/components/Dashboard/DashboardGUI.jsx:89-90 | when no field holds a comma, a user line splits on `,` into name, e-mail, gender and message count |
| Dashboard.RemoveUser | projekat/client/src/components/Dashboard/DashboardGUI.jsx:32 | exactly the users without that id remain |
| Dashboard.RemoveUserKeepsOthersInOrder | projekat/client/src/components/Dashboard/DashboardGUI.jsx:29-36 | removal distributes over concatenation, so the others keep their order; a list without the id is unchanged |
| Dashboard.DashboardState.constructor | projekat/client/src/components/Dashboard/DashboardGUI.jsx:9-15 | the initial state of every state variable: no users, an empty search term, "ascending", no gender filter, no user being edited (`editUserId` null), an empty edit form and page 1 |
| Dashboard.DashboardState.Render | projekat/client/src/components/Dashboard/DashboardGUI.jsx:62-84 | the listed users are a sorted permutation of the filtered users; the page is their slice and holds at most two; totalPages is `ceil(filtered / 2)` |
| Dashboard.DashboardState.HandleDelete | projekat/client/src/components/Dashboard/DashboardGUI.jsx:29-36 | after a successful API call the users with that id are removed; after a failed one nothing changes |
| Dashboard.DashboardState.HandleEditChange | projekat/client/src/components/Dashboard/DashboardGUI.jsx:39-42 | only the named field of the edit form changes |
| Dashboard.DashboardState.EditPopupOpen | projekat/client/src/components/Dashboard/DashboardGUI.jsx:164 | the edit popup is shown iff `editUserId` holds a non-empty id |
| Dashboard.DashboardState.HandleEdit | projekat/client/src/components/Dashboard/DashboardGUI.jsx:217-222 | the Edit button records the user's id and fills the form with exactly the user's name and e-mail; the popup opens when the id is non-empty |
| Dashboard.DashboardState.CancelEdit | projekat/client/src/components/Dashboard/DashboardGUI.jsx:184 | Cancel clears the id, closing the popup, and leaves the form as it is |
| Dashboard.DashboardState.HandleUpdate | projekat/client/src/components/Dashboard/DashboardGUI.jsx:45-56 | the PUT goes to `/users/` followed by the id (or `null`) with the form as body; after a successful call the popup closes and the form is reset, after a failed one nothing changes |
| Dashboard.DashboardState.Previous | projekat/client/src/components/Dashboard/DashboardGUI.jsx:245 | the page becomes `max(page - 1, 1)` |
| Dashboard.DashboardState.Next | projekat/client/src/components/Dashboard/DashboardGUI.jsx:255 | the page becomes `min(page + 1, totalPages)` for the current filters |
| Charts.Distinct | projekat/client/src/hooks/useCharts.js:35-43 | the labels are exactly the keys, each once |
| Charts.DistinctKeepsFirstAppearanceOrder | projekat/client/src/hooks/useCharts.js:35-43 | the labels come in order of first appearance: a key equal to a later label is always preceded by an occurrence of every earlier label |
| Charts.Counts | projekat/client/src/hooks/useCharts.js:43-48 | data[i] is the number of occurrences of labels[i] |
| Charts.TallyCounts | projekat/client/src/hooks/useCharts.js:35-39 | the accumulator after the reduce holds exactly the keys seen, each mapped to its number of occurrences |
| Charts.CountsSumToLength | projekat/client/src/hooks/useCharts.js:35-39 | the counts over the distinct keys add up to the number of keys |
| Charts.CountBy | projekat/client/src/hooks/useCharts.js:35-39 | the reduce over a mutable accumulator yields the distinct keys and their index-aligned counts |
| Charts.PieData | projekat/client/src/hooks/useCharts.js:35-55 | one slice per distinct gender, each once, with as many counts as labels |
| Charts.BarData | projekat/client/src/hooks/useCharts.js:58-73 | the message bar chart has one bar per user in order: the name as label and the message count as data |
| Charts.CarModelsBarData | projekat/client/src/hooks/useCharts.js:81-103 | one bar per distinct brand, each once, with as many counts as labels |
| Charts.CountChartsAreComplete | projekat/client/src/hooks/useCharts.js:35-103 | pie and brand charts have aligned labels and data, list every gender or brand, and sum to the number of users or cars |
| Charts.FetchSpec | projekat/client/src/hooks/useCharts.js:20-151 | the hook state after one `fetchData`; its outcome is stated by FetchOutcome |
| Charts.FetchOutcome | projekat/client/src/hooks/useCharts.js:20-151 | a fetch ends with loading false; it succeeds iff every request does, storing all four data sets with no error; otherwise the error is "Failed to load data" and the charts are unchanged |
| Charts.ChartsHook.constructor | projekat/client/src/hooks/useCharts.js:10-15 | the hook starts with no charts, loading and no error |
| Charts.ChartsHook.FetchData | projekat/client/src/hooks/useCharts.js:20-151 | the new hook state is the fetch specification applied to the old one |
| Graphs.RelabelStocks | projekat/client/src/components/Graphs/GraphsGUI.jsx:50-54 | each label is replaced by its mapped name when the ticker is mapped and kept otherwise; count, order and the other fields are unchanged |
| Graphs.NamesAreNotTickers | projekat/client/src/components/Graphs/GraphsGUI.jsx:30-41 | no brand name in the map is itself a ticker |
| Graphs.RelabelIdempotent | projekat/client/src/components/Graphs/GraphsGUI.jsx:50-54 | relabelling twice is the same as relabelling once |
| Graphs.EveryTickerIsNamed | projekat/client/src/components/Graphs/GraphsGUI.jsx:30-41 | every requested ticker has a map entry, so every stock bar gets a brand name |
| Graphs.Render | projekat/client/src/components/Graphs/GraphsGUI.jsx:44-54 | the page for one hook state: loading first, then the error, then the relabelled charts; its properties are stated by RenderNeverCrashes and RenderAfterFetch |
| Graphs.RenderNeverCrashes | projekat/client/src/components/Graphs/GraphsGUI.jsx:44-54 | in any state the hook can reach, the page never reads charts that are absent; loading is checked before the error |
| Graphs.RenderAfterFetch | projekat/client/src/components/Graphs/GraphsGUI.jsx:44-54 | after any fetch the page shows the load error or the charts, with one brand-named bar per ticker |
| MessageList.IsImageResponse | projekat/client/src/components/MessageList.js:27-30 | the regular-expression test on one line; ImageTagIsImageResponse states that the resolver's image answer passes it |
| MessageList.ImageTagIsImageResponse | projekat/client/src/components/MessageList.js:27-30 | the resolver's `<img>` answer is recognised as an image answer when the URL and brand hold no line break |
| MessageList.Rows | projekat/client/src/components/MessageList.js:34-73 | one row per message; what each row shows is stated by RowsShowNewestFirst and NewestFirst |
| MessageList.Reverse | projekat/client/src/components/MessageList.js:34-37 | the copy holds the messages in reverse order |
| MessageList.ReverseReverse | projekat/client/src/components/MessageList.js:34-37 | reversing twice gives the messages back |
| MessageList.RowsShowNewestFirst | projekat/client/src/components/MessageList.js:34-73 | row i shows the i-th newest message: HTML iff it is an image answer, the id as key or else the index, the profile avatar or else the default, the user's name or else "You" |
| MessageList.NewestFirst | projekat/client/src/components/MessageList.js:34-37 | the newest message is on the first row and the oldest on the last |

## Left out

- `toLowerCase` is modelled for the ASCII letters only. Other letters with a lower-case form are left as they are.
- `Number()` is modelled for optionally signed decimal integers after trimming, with the empty string as 0. Fractions, exponents, hexadecimal and `Infinity` read as NaN (None).
  - So a CSV price such as "1e3" is rejected by the model but accepted by the server.
  - Prices are integers. `${price}` in exponent form, from 1e21 upwards, is not modelled.
- The stock prices are `real`. `parseFloat`'s NaN and the Finnhub request are not modelled; the quotes are an input.
- The Wit.ai, Unsplash and Finnhub HTTP calls are parameters. So are JWT verification, the outcome of each MongoDB write and whether each `findOne` lookup of the seeding loop succeeds. The bcrypt hash is an input string. Mongo ObjectIds are a counter.
- `User.js` and `Message.js` are not part of this model. Their save-time validation is folded into the write outcome.
- The CSV file is read by `csv-parser`. The parsed rows are an input; the stream is not modelled.
- Interleaving of asynchronous work is not modelled: messages are handled one at a time, and each operation runs to completion before the next.
  - Server.Store.InsertCarDataFromCsv: `insertCarDataFromCSV` awaits nothing, so its promise resolves as soon as the stream is opened. `http.listen` then runs while rows are still being read and inserted. A `get_response` in that window reads a partial catalog, the fold over the rows handled so far (by Server.SeedPrefix, a prefix of the final catalog); the model runs the seeding to completion first.
  - A rejected `findOne` ends the `'end'` handler with an unhandled rejection; the model reports it as `aborted` and does not model what Node.js then does with the process.
- Server.Present: for a CSV row that lacks `brand` or `model`, the model reports "not present". It does not reproduce how Mongoose queries an `undefined` field. Such a row fails validation, so nothing is inserted either way; only the logged outcome may differ.
- `Object.keys` lists integer-like keys first. The model keeps plain insertion order. Keys inherited from `Object.prototype` are not modelled: in the accumulators and in `stockLabelMap`, a key such as "constructor" behaves differently in JavaScript.
- Dashboard.SortUsers: states sorted and permutation, not stability. `Array.prototype.sort` is stable, and so is the insertion sort modelled.
- Genders, names and e-mails are strings. A missing field, which `join` renders as "", is not modelled. The browser download in `exportToCSV` and the `getUsers` request, including the refetch after a successful update, are not modelled; the outcome of each API call is an input.
- In `MessageList.js` the profile request is not modelled; the profile is an input. The effect dependency at line 22 reads `user.id`, so with no user the component fails before reaching the "You" fallback at line 49. The model keeps the fallback as written.
- Rendering (JSX, styles, chart options and colours) is not modelled.
