# SVG gallery: a verified model

This project models svgholder, a small SVG gallery. It is written in Dafny and proves
properties of the model. The gallery has four parts:

- **Record store** (`records.dfy`). It models `SvgModel` in backend/models/Svg.js.
  - A class `SvgStore` holds the collection as a `seq<SvgRecord>` in insertion order.
  - `create`, `findAll`, `findById`, `updateById`, `deleteById` and `search` are methods over that field.
  - The MongoDB operations they issue are pure functions over the sequence: `insertOne`, `find().sort({createdAt: -1})`, `findOne`, `updateOne` with `$set`, and `deleteOne`.
  - Whether the database handle exists, and whether a collection call goes through, is a `DbStatus` parameter.
- **HTTP layer** (`routes.dfy`, `server.dfy`, `http.dfy`).
  - From backend/routes/svgs.js: multer's file filter and 5 MiB limit, and each route's checks in source order.
  - How each route maps a store result or store error to a status and a JSON envelope.
  - From backend/server.js: the error-handling middleware, the 404 fallback, the health endpoint, and which handler a verb and path reach.
- **Client service** (`client_service.dfy`). It models svgholder/src/services/svgStorage.ts.
  - The file checks: `validateSvgFile` and the `<svg` test of `readSvgFile`.
  - The mapping from a server record to an `SvgItem`.
  - What each API call returns or throws for each way its request can end. That ending is an `ApiOutcome` parameter: delivered, rejected with a message, or no response.
- **Pages** (`viewer.dfy`, `importer.dfy`).
  - The gallery page (`SvgViewer.tsx`) is the class `Gallery`: load, search, clear, select and delete.
  - Its `groupSvgsByDate` is a loop over a dictionary of buckets.
  - Its two formatters work on integer thresholds.
  - The upload form (`SvgImporter.tsx`) is the class `SvgImporter`.
  - Each handler is one atomic step, and the outcome of its request is a parameter.

The supporting modules are:

- `text.dfy`: JavaScript `trim`, ASCII `toLowerCase`, `includes`, `endsWith` and `String(n)`, as used by the code above.
- `sorting.dfy`: a stable insertion sort, newest first by an integer key. It stands for every sort in the gallery.
- `wrappers.dfy`: `Option` and `Result`.

Times are integer milliseconds. A `YYYY-MM-DD` date key is the number of its UTC day. For four-digit years, the numeric order of day numbers is the string order of the keys.

Where the code and the repository's own description of it disagree, the model follows the code:

- A malformed id makes `new ObjectId(id)` throw. GET, PUT and DELETE on `/:id` then answer 500, not 404.
- The required-field checks of POST and PUT test the untrimmed values. A name of spaces passes and is stored as `""`.
- `loadSvgs` falls back to 'Failed to load SVGs' and `handleSearch` to 'Search failed'. Neither text can appear, because the service always throws an `Error`. The error text is the service's message.
- On a cancelled delete the page returns before touching `deleteLoading`.
- A successful search leaves an earlier `error` in place. Only `loadSvgs` clears it.

## Model

| member | source | states |
|---|---|---|
| Records.ParseObjectId | backend/models/Svg.js:44 | `new ObjectId(id)` accepts exactly 24 hex digits and yields the lower-case id. Anything else fails with a malformed-id error. |
| Records.Lookup | backend/models/Svg.js:44-45 | `findOne` gives none exactly when no record has the id. Otherwise it gives a stored record with that id. |
| Records.LookupFindsStored | backend/models/Svg.js:44-45 | With unique ids, looking up a stored record's id gives exactly that record. |
| Records.Apply | backend/models/Svg.js:57-65 | `$set` replaces the supplied name and description and `updatedAt`. Content, size, original name, `createdAt` and id are kept. |
| Records.UpdateFirst | backend/models/Svg.js:57-65 | `updateOne` keeps the length and every record's id, and changes nothing when no record has the id. |
| Records.UpdateFirstPointwise | backend/models/Svg.js:57-65 | With unique ids, the record with the id is patched and every other record is unchanged. |
| Records.UpdateFirstSpec | backend/models/Svg.js:57-71 | The update keeps the id set and uniqueness. A re-read finds the patched record, or none if the id was absent. |
| Records.RemoveFirst | backend/models/Svg.js:83-84 | `deleteOne` removes one record when the id is present and nothing otherwise. It never adds a record. |
| Records.RemoveFirstSpec | backend/models/Svg.js:83-84 | Afterwards no record has the id and all other records remain. Ids stay unique, and a second delete changes nothing. |
| Records.NewestFirst | backend/models/Svg.js:31 | `find({}).sort({createdAt: -1})` returns a permutation of the collection in descending `createdAt` order. |
| Records.FilterMatching | backend/models/Svg.js:97-101 | An element is kept exactly when its name or description contains the query, ignoring case. |
| Records.SearchSpec | backend/models/Svg.js:96-104 | `search` returns every matching record as often as stored and no other, newest first. It is an ordered subsequence of `findAll`. |
| Records.EmptyQueryMatchesAll | backend/models/Svg.js:96 | The store itself does not special-case an empty query: it keeps every record. |
| Records.SearchFindsNamePiece | backend/models/Svg.js:96-101 | A record is found by any piece of its name, in any ASCII case. |
| Records.UpdateKeepsValid | backend/models/Svg.js:57-65 | An update keeps ids unique and canonical. |
| Records.RemoveKeepsValid | backend/models/Svg.js:83 | A delete keeps ids unique and canonical. |
| Records.SvgStore.constructor | backend/models/Svg.js:4 | The collection starts empty and well formed. |
| Records.SvgStore.Create | backend/models/Svg.js:7-24 | The input fields are stored unchanged with both timestamps and the fresh id, and the collection grows by exactly that record. A missing handle or a failing call is rethrown and stores nothing. |
| Records.SvgStore.FindAll | backend/models/Svg.js:26-37 | Returns every record newest first, or rethrows the error. |
| Records.SvgStore.FindById | backend/models/Svg.js:39-50 | A missing handle, a malformed id and a failing call each throw, in that order. Otherwise it returns the record whose id equals the lower-cased id, or none. |
| Records.SvgStore.UpdateById | backend/models/Svg.js:52-76 | No match returns none and changes nothing. A match patches that record only and returns the refreshed record. An error is rethrown, including one from the re-read after the write. |
| Records.SvgStore.UpdateOne | backend/models/Svg.js:57-69 | `matchedCount` is 1 exactly when the id is present. The new collection is the patched one, record by record. |
| Records.SvgStore.DeleteById | backend/models/Svg.js:78-89 | Reports true exactly when a record was removed. Afterwards no record has the id and all others remain. Errors are rethrown with the collection unchanged. |
| Records.SvgStore.Search | backend/models/Svg.js:91-109 | Returns exactly the matching records, newest first, or rethrows the error. |
| Routes.ReceiveUpload | backend/routes/svgs.js:9-21 | A file passes exactly when the filter accepts it and it is at most 5 MiB. The filter's error comes before the size error. A request without a file passes. |
| Routes.FileFilterExamples | backend/routes/svgs.js:15 | The extension test ignores case. Either test alone admits a file, and `.svg.txt` is refused. |
| Routes.SizeLimitBoundary | backend/routes/svgs.js:12 | Exactly 5 MiB passes. One byte more fails with `LIMIT_FILE_SIZE`. |
| Routes.ValidateCreate | backend/routes/svgs.js:97-123 | The required-field 400 comes before the content 400. Both tests use the untrimmed fields. Otherwise the trimmed fields, the verbatim content, the size and the original name are passed on. |
| Routes.BlankNamePassesCreate | backend/routes/svgs.js:101-119 | A name of spaces passes the required check and is stored as the empty string. |
| Routes.CreatedFieldsAreTrimmed | backend/routes/svgs.js:117-123 | The stored name and description are already trimmed. |
| Routes.CreateResponse | backend/routes/svgs.js:125-139 | 201 with the created record, or 500 'Failed to upload SVG' with the error's message. |
| Routes.ListResponse | backend/routes/svgs.js:26-38 | 200 with the list, or 500 with the route's message and the error's message. |
| Routes.LookupResponse | backend/routes/svgs.js:71-91 | 404 'SVG not found' exactly for none, 500 exactly for a store error, and otherwise 200 with the record. |
| Routes.ValidateUpdate | backend/routes/svgs.js:146-158 | Both fields must be truthy, else 400. A non-string value makes `trim` throw, giving 500. The patch holds the two trimmed fields. |
| Routes.UpdateResponse | backend/routes/svgs.js:160-181 | 404 exactly for none, 500 exactly for a store error, and otherwise 200 with the refreshed record. |
| Routes.DeleteResponse | backend/routes/svgs.js:188-208 | 200 'SVG deleted successfully' for true, 404 exactly for false, and 500 exactly for a store error. |
| Routes.ListAll | backend/routes/svgs.js:24-39 | A connected store answers 200 with every record newest first. Otherwise the answer is 500 'Failed to fetch SVGs'. |
| Routes.Search | backend/routes/svgs.js:42-65 | Without a truthy `q` the answer is 400 and the store is not read. Otherwise it answers 200 with the search result, or 500. |
| Routes.GetOne | backend/routes/svgs.js:68-92 | 404 exactly when no record has the id. A present id gives 200 with that record. The answer is 500 with 'Failed to fetch SVG' exactly when the id is malformed or the database fails. |
| Routes.Create | backend/routes/svgs.js:95-140 | A failed check returns its 400 and stores nothing. A store fault answers 500 and stores nothing. Otherwise 201 with the new record, and the collection grows by that record. |
| Routes.CreateThenGet | backend/routes/svgs.js:117-131 | Fetching the new id after an upload answers 200 with exactly the uploaded record: the trimmed fields and the verbatim content. |
| Routes.Update | backend/routes/svgs.js:143-182 | A refused body changes nothing. Otherwise only the record with the id gets the trimmed fields. The answer is 404 when the id is absent, else 200 with the patched record. It is 500 with 'Failed to update SVG' exactly when the id is malformed, the database fails (then nothing changes), or the re-read after a matched update fails. |
| Routes.Delete | backend/routes/svgs.js:185-209 | 200 exactly when the id was present, 404 exactly when absent, and the record is removed. The answer is 500 with 'Failed to delete SVG' exactly when the id is malformed or the database fails, and then nothing changes. |
| Routes.DeleteTwice | backend/routes/svgs.js:190-200 | Deleting the same id twice answers 200 and then 404, and removes one record. |
| Server.HandleError | backend/server.js:30-52 | `LIMIT_FILE_SIZE` gives the size 400. Otherwise the SVG-only message gives its 400. Everything else is 500, carrying the detail only in development. |
| Server.DetailRedactedOutsideDevelopment | backend/server.js:50 | Outside development the answer never carries the error's own message. |
| Server.SizeCodeTakesPrecedence | backend/server.js:33-45 | An error with the size code is reported as too large, whatever its message. |
| Server.NotFound | backend/server.js:55-60 | Any unmatched route gets 404 'Route not found'. |
| Server.Health | backend/server.js:21-27 | The health answer is always 200 with `success: true`, its message and the given time. |
| Server.Dispatch | backend/server.js:18-28 | A request reaches a handler exactly when its verb and path match a registered route, ignoring letter case in the path and answering HEAD with the GET routes. Everything else falls through to the 404 fallback. GET and HEAD `/:id` never receive `search`, in any case, as an id. |
| Server.SearchIsNotAnId | backend/routes/svgs.js:42 | GET or HEAD `/search`, in any letter case, reaches the search route, while PUT and DELETE read `search` as an id. |
| Server.CaseAndHeadReachTheSameHandler | backend/server.js:18-21 | Upper-case paths and HEAD requests reach the same handlers as their lower-case GET forms. An unregistered verb reaches none. |
| Server.Upload | backend/server.js:33-45 | A refused or oversize file gets the middleware's 400 and stores nothing. The result is 201 exactly when multer, the checks and the store all pass, and then exactly one record is appended. |
| ClientService.ValidateSvgFile | svgholder/src/services/svgStorage.ts:111-125 | Checks no file, then type, then size, and the first failure wins. The file is valid exactly when it is present, its type or name is SVG, and it is at most 5 MiB. |
| ClientService.ClientAndServerAcceptSameFiles | svgholder/src/services/svgStorage.ts:116-122 | The client accepts exactly the files that multer on the server accepts. |
| ClientService.FiveMebibytesAccepted | svgholder/src/services/svgStorage.ts:120 | Exactly 5 MiB is valid. One byte more is refused as too large. |
| ClientService.ReadSvgFile | svgholder/src/services/svgStorage.ts:127-141 | Text is accepted exactly when it contains `<svg`, else 'Invalid SVG content'. A reader failure gives 'Failed to read file'. |
| ClientService.TransformSvgFromApi | svgholder/src/services/svgStorage.ts:100-109 | `_id` becomes `id` and `createdAt` becomes `uploadDate`. Name, description, content and size are copied. |
| ClientService.TransformDropsServerOnlyFields | svgholder/src/services/svgStorage.ts:100-109 | `updatedAt` and `originalName` do not affect the client item. |
| ClientService.TransformAll | svgholder/src/services/svgStorage.ts:16 | `map` transforms each element in place. |
| ClientService.TransformKeepsNewestFirst | svgholder/src/services/svgStorage.ts:16 | A list the server sent newest first stays newest first by `uploadDate`. |
| ClientService.RecordOutcome | svgholder/src/services/svgStorage.ts:30-41 | axios delivers exactly the 2xx answers. A rejection carries the server's message. |
| ClientService.ListOutcome | svgholder/src/services/svgStorage.ts:15-16 | axios delivers exactly the 2xx answers. |
| ClientService.GetAllSvgs | svgholder/src/services/svgStorage.ts:13-21 | A delivered list is returned mapped. Every other outcome throws 'Failed to fetch SVGs'. |
| ClientService.SearchSvgs | svgholder/src/services/svgStorage.ts:79-87 | A delivered list is returned mapped. Every other outcome throws 'Failed to search SVGs'. |
| ClientService.SaveSvg | svgholder/src/services/svgStorage.ts:23-44 | A success returns the mapped record. A rejection throws the server's non-empty message. Anything else throws 'Failed to save SVG'. |
| ClientService.SaveShowsServerReason | svgholder/src/services/svgStorage.ts:39-41 | A refused upload reports the server's own message. |
| ClientService.DeleteSvg | svgholder/src/services/svgStorage.ts:46-54 | true exactly for a delivered answer and false otherwise. It never throws. |
| ClientService.DeleteOfMissingRecordIsFalse | svgholder/src/services/svgStorage.ts:46-54 | The server's 404 makes `deleteSvg` return false. |
| ClientService.DeleteReportsRemoval | svgholder/src/services/svgStorage.ts:46-54 | Over any store answer to DELETE, `deleteSvg` returns true exactly when the store removed a record. |
| ClientService.GetSvgById | svgholder/src/services/svgStorage.ts:56-64 | The mapped record when one is delivered, and null for any failure. |
| ClientService.UpdateSvg | svgholder/src/services/svgStorage.ts:66-77 | The mapped refreshed record when one is delivered, and null for any failure. |
| ClientService.GetSvgByIdOfFound | svgholder/src/services/svgStorage.ts:56-64 | Fetching a record the server answered with gives that record's client view. |
| ClientService.FetchAndUpdateReportStoreAnswer | svgholder/src/services/svgStorage.ts:56-77 | Over any store answer to GET or PUT, the client gets the view of the record the store returned, and null for an unknown id or a fault. |
| Viewer.DayKey | svgholder/src/pages/SvgViewer.tsx:99-100 | The UTC day that contains the instant. |
| Viewer.OnDayCount | svgholder/src/pages/SvgViewer.tsx:98-106 | The bucket of a day holds each item of that day as often as the input does, and nothing else. |
| Viewer.BucketStep | svgholder/src/pages/SvgViewer.tsx:102-105 | One `forEach` step pushes the item onto its day's bucket, creating the bucket if needed. The dictionary stays the buckets of the prefix. |
| Viewer.MakeGroups | svgholder/src/pages/SvgViewer.tsx:111-115 | One section per key, in key order. Each holds its bucket sorted newest first. |
| Viewer.MakeGroupsIsGrouping | svgholder/src/pages/SvgViewer.tsx:109-115 | Sorted distinct keys of a complete dictionary give a date grouping. |
| Viewer.GroupsNewestFirst | svgholder/src/pages/SvgViewer.tsx:110 | Section keys strictly decrease. |
| Viewer.GroupsHoldTheirDays | svgholder/src/pages/SvgViewer.tsx:111-115 | Each section is non-empty and holds exactly its day's items, newest first, with the Date of its midnight. |
| Viewer.GroupsCoverEveryDay | svgholder/src/pages/SvgViewer.tsx:109 | Every item's day has a section. |
| Viewer.GroupSvgsByDate | svgholder/src/pages/SvgViewer.tsx:95-116 | Keys strictly newest first and no empty section. Each section holds exactly its day's items, newest first, and every item's day has a section. The sections together are a permutation of the input. |
| Viewer.OrderGroups | svgholder/src/pages/SvgViewer.tsx:109-115 | Sorting the keys and the buckets of a complete dictionary gives a date grouping that partitions the input. |
| Viewer.GroupingPartitions | svgholder/src/pages/SvgViewer.tsx:95-116 | Every item lands in the sections exactly as often as in the input. |
| Viewer.GroupHoldsItsDay | svgholder/src/pages/SvgViewer.tsx:98-106 | An item is in a section exactly when it is in the input and uploaded on that section's day. |
| Viewer.FormatFileSize | svgholder/src/pages/SvgViewer.tsx:118-122 | Bytes below 1024, KB below 1024·1024, and MB otherwise. |
| Viewer.ByteLabelReadsBack | svgholder/src/pages/SvgViewer.tsx:119 | The byte label is the decimal number followed by ' B', and it reads back as the size. |
| Viewer.FileSizeUnitMonotone | svgholder/src/pages/SvgViewer.tsx:118-122 | A larger file never gets a smaller unit. |
| Viewer.CeilDiv | svgholder/src/pages/SvgViewer.tsx:85 | The least whole number whose multiple of the divisor reaches the dividend. |
| Viewer.DaysBetween | svgholder/src/pages/SvgViewer.tsx:84-85 | Zero exactly for equal instants. Otherwise the least number of whole days that covers the gap. |
| Viewer.BucketDays | svgholder/src/pages/SvgViewer.tsx:87-92 | 0 is Today and 1 is Yesterday. 2 to 7 is `N days ago`, 8 to 30 is ⌈N/7⌉ weeks, and 31 to 365 is ⌈N/30⌉ months. Beyond that, month and year. |
| Viewer.FormatDateForGrouping | svgholder/src/pages/SvgViewer.tsx:81-93 | The same buckets, stated in elapsed milliseconds: Today only at zero, Yesterday up to one day, and so on. |
| Viewer.LabelTextInjective | svgholder/src/pages/SvgViewer.tsx:87-91 | Different headings have different texts. |
| Viewer.TodaysGroupHeadedYesterday | svgholder/src/pages/SvgViewer.tsx:287 | With the clock inside the group's own day after midnight, that day is headed 'Yesterday' and the previous day '2 days ago'. |
| Viewer.TodaysGroupHeadedYesterdayExample | svgholder/src/pages/SvgViewer.tsx:287 | One millisecond after midnight, today's group reads 'Yesterday'. |
| Viewer.CalendarGroupHeadingCountsDays | svgholder/src/pages/SvgViewer.tsx:84-88 | Counting calendar days, today's group is Today, yesterday's is Yesterday, and `n` days back is `n days ago`. |
| Viewer.WithoutId | svgholder/src/pages/SvgViewer.tsx:57 | Every item with the id goes, and every other item stays as often as before. |
| Viewer.WithoutIdKeepsOrder | svgholder/src/pages/SvgViewer.tsx:57 | The kept items keep their order. |
| Viewer.Gallery.constructor | svgholder/src/pages/SvgViewer.tsx:6-12 | Empty list, loading, no error, empty query, nothing selected and no delete pending. |
| Viewer.Gallery.LoadSvgs | svgholder/src/pages/SvgViewer.tsx:18-29 | Clears the error and replaces the list with the fetched items. On failure it keeps the list and sets the error. Loading ends false. |
| Viewer.Gallery.HandleSearch | svgholder/src/pages/SvgViewer.tsx:31-46 | A blank trimmed query reloads everything. Otherwise it searches the trimmed query and replaces the list, and a failure sets the error and keeps the list. |
| Viewer.Gallery.Search | svgholder/src/pages/SvgViewer.tsx:37-45 | The search branch: the list is replaced, or the error is set and the list kept. |
| Viewer.Gallery.SetSearchQuery | svgholder/src/pages/SvgViewer.tsx:201 | Typing sets only the query. |
| Viewer.Gallery.ClearSearch | svgholder/src/pages/SvgViewer.tsx:215-218 | Empties the query and reloads everything. |
| Viewer.Gallery.Select | svgholder/src/pages/SvgViewer.tsx:311 | Opens the item's details and changes nothing else. |
| Viewer.Gallery.CloseDetails | svgholder/src/pages/SvgViewer.tsx:412 | Closes the details and changes nothing else. |
| Viewer.Gallery.HandleDelete | svgholder/src/pages/SvgViewer.tsx:48-69 | A cancelled delete changes nothing. A success removes exactly the items with the id and closes their open details. A failure alerts and keeps the list and the selection. `deleteLoading` ends null. |
| Importer.SubmitDisabledMatchesGuard | svgholder/src/pages/SvgImporter.tsx:299 | The button is disabled exactly while loading or while the submit guard would refuse, that is, when a field is all whitespace or no file is selected. |
| Importer.Submission | svgholder/src/pages/SvgImporter.tsx:74-83 | Nothing is sent exactly when the guard refuses. Otherwise the trimmed fields and the selected file are sent. |
| Importer.SubmittedFormPassesServerChecks | svgholder/src/pages/SvgImporter.tsx:74-83 | A form the guard lets through, with a valid file, passes multer and the required check. It is stored exactly when its text contains `<svg`, with the fields as sent. |
| Importer.SubmissionIsReady | svgholder/src/pages/SvgImporter.tsx:74-83 | With a file the client accepted, whatever the guard lets through has trimmed non-blank fields and that file. |
| Importer.ReadyRequestPassesServerChecks | svgholder/src/pages/SvgImporter.tsx:74-83 | A request with trimmed non-blank fields and an accepted file passes multer. It is stored exactly when its text contains `<svg`, with its fields as sent. |
| Importer.SubmitNotice | svgholder/src/pages/SvgImporter.tsx:84-97 | The success banner exactly for a save; otherwise the error's text. |
| Importer.SvgImporter.constructor | svgholder/src/pages/SvgImporter.tsx:5-13 | Empty fields, no file, not loading, no banner, no preview. |
| Importer.SvgImporter.HandleInputChange | svgholder/src/pages/SvgImporter.tsx:16-22 | Only the named field changes. |
| Importer.SvgImporter.HandleFileSelect | svgholder/src/pages/SvgImporter.tsx:24-41 | An invalid file sets its error and keeps the selection. A valid one is selected and the banner cleared. Then the preview shows its text, or the banner reports the read failure. |
| Importer.SvgImporter.HandleSubmit | svgholder/src/pages/SvgImporter.tsx:71-101 | A refused form shows the fill-in banner and changes nothing else. A success empties the form and shows the success banner. A failure keeps the form and shows the error. Loading ends false. What is sent has trimmed non-blank fields and a file the client accepted, so the server's own checks pass it. |
| Importer.SvgImporter.Save | svgholder/src/pages/SvgImporter.tsx:79-100 | The step after the guard: the banner shows the outcome, a success empties the form, and loading ends false. |
| Importer.SvgImporter.ClearFile | svgholder/src/pages/SvgImporter.tsx:103-109 | Drops the file and its preview and keeps the fields and the banner. |
| Text.TrimSlice | backend/routes/svgs.js:118-119 | `trim` returns a slice of its input that starts and ends with no whitespace, and everything cut away is whitespace. |
| Text.TrimEmptyIff | svgholder/src/pages/SvgImporter.tsx:74 | A string trims to nothing exactly when it is all whitespace. |
| Text.TrimIdempotent | backend/routes/svgs.js:156-157 | Trimming twice is trimming once. |
| Text.ContainsIff | backend/routes/svgs.js:110 | `includes` holds exactly when the pattern occurs at some index. |
| Text.ParseNatToString | svgholder/src/pages/SvgViewer.tsx:119 | Reading back the decimal rendering gives the number. |
| Text.IntToStringInjective | svgholder/src/pages/SvgViewer.tsx:89-91 | Distinct numbers render as distinct strings. |
| Sorting.SortDesc | backend/models/Svg.js:31 | The result is ordered newest first by the key and is a permutation of the input. |
| Sorting.SortDistinct | svgholder/src/pages/SvgViewer.tsx:109-110 | Sorting keys without duplicates yields keys without duplicates. |
| Sorting.StrictlyDescending | svgholder/src/pages/SvgViewer.tsx:110 | Ordered without duplicates means strictly descending. |

## Left out

- The MongoDB driver and the connection singleton of backend/database.js are not modelled. Their observable effect is the `DbStatus` parameter. That file is not part of this model.
- Id generation is a parameter of `Create`. Its freshness and canonical form are preconditions, because the driver guarantees them.
- Search is case-insensitive literal substring matching over ASCII letters. Regular-expression metacharacters, invalid patterns (which throw and give 500) and Unicode case folding are not modelled.
- The clock is a parameter: `createdAt`, `updatedAt`, the PUT time, the health timestamp string and `now` in the gallery. The model does not claim that `createdAt` equals `updatedAt`.
- Routing is modelled by verb and path segment, case-insensitively, with HEAD served by the GET routes. The rest of Express is not modelled:
  - percent-decoding of path segments and empty segments from repeated slashes;
  - CORS, including the OPTIONS preflight answer;
  - JSON and form body parsing, and multer's buffering.
  A request arrives as its parsed fields and file.
- A repeated query parameter or form field (`q` given twice, so Express hands the handler an array) is not modelled. `q` and the create fields are a single string or absent. In the source a repeated multipart `name` makes `trim` throw, which answers 500 'Failed to upload SVG'; the model does not reach that answer.
- Records.NewestFirst: records with equal `createdAt` keep their insertion order, because the sort is stable. MongoDB promises no order among equal keys, so `FindAll` and the search results (`Records.SearchSpec`) fix an order among ties that the server does not guarantee.
- UTF-8 decoding of the uploaded buffer: the file's content is given as a string.
- The process lifecycle is not modelled: `startServer`, `app.listen` and the signal handlers.
- axios and HTTP transport are not modelled, nor `encodeURIComponent`. Each request is an `ApiOutcome` parameter, and `RecordOutcome`/`ListOutcome` say which outcome a server answer produces.
- `checkApiHealth` in svgStorage.ts is not modelled. It only maps the health request to its `success` flag, and no modelled page calls it.
- FormatFileSize: for KB and MB the label holds the byte count, not the `toFixed(1)` text, because that is floating-point formatting.
- LabelText: the month-and-year heading has no text. `toLocaleDateString` is locale formatting, and so is `formatDate`.
- `toISOString` is unmodelled. The day number stands for the `YYYY-MM-DD` key. Invalid dates and years outside 0000-9999 are left out, because there the string order would differ from the numeric order.
- The following browser features are not modelled:
  - the clipboard and `copySuccess`;
  - download;
  - drag-and-drop state (`dragActive`) and the file-input reset;
  - the display-only `<svg` style rewrite.
- `confirm`'s answer is the `confirmed` parameter. The `alert` call is the `alerted` result. The file reader's result is the `read` parameter.
- Async interleaving of React state updates is not modelled. Each handler is one atomic step.
- Home.tsx, Navbar.tsx and App.tsx are not modelled, because they are only navigation and presentation.

## Findings

| source | as written | input that shows it | evidently intended | confidence | as-written member | corrected member |
|---|---|---|---|---|---|---|
| svgholder/src/pages/SvgViewer.tsx:84-88 | The heading of a date group rounds up the elapsed milliseconds from the UTC midnight of the group's key to `now` (line 287 passes `group.dateKey`). | The group of today's day, with `now` one millisecond after that midnight (day 20000, `now = 20000·86400000 + 1`): the heading reads 'Yesterday', and yesterday's group reads '2 days ago'. | The number of calendar days between the group's day and today, so today's group reads 'Today'. | not executed | Viewer.TodaysGroupHeadedYesterday | Viewer.CalendarGroupHeadingCountsDays |
