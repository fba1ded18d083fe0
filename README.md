# OzonUnarchiver reconciliation core, in Dafny

OzonUnarchiver is a desktop tool for a merchant on the Ozon marketplace. It reads
offer identifiers from a spreadsheet and looks them up in the seller API, 100 per
request. Records that the merchant archived (and the platform did not) are
restored, again 100 per request. It then writes `result.xlsx`: one row per
fetched record, then a NOT_FOUND row for every input identifier that no record
carries.

This project models the deterministic logic under the GUI:

- `Text`: Python's `str.strip()` (the exact `str.isspace` set) and `lower()`.
- `Loader`: header detection and the column walk of `read_offer_ids_xlsx`.
- `Chunking`: the `range(0, N, 100)` slicing shared by both batch loops.
- `Batches`: what a loop collects when each chunk ends with a payload or with one error.
- `Fetcher`: `get_products_info`, with the reply of each request given as an oracle.
- `Restorer`: `unarchive_products`, with the same kind of oracle.
- `Report`: report rows, the 7-column layout, and `write_report_xlsx`.
- `Classifier`: the per-record decision and the restore list of `process`.
- `Reconcile`: the NOT_FOUND pass of `process`.
- `Run`: `process` itself, with its early exits.

The network is not modelled. `reply(k)` stands for what request number k got
back: an exception, or a status and a body. A spreadsheet is a sequence of rows
of optional strings. The report is the sequence of worksheet rows that would be
saved. The methods also return the payloads they post, in order, so that the
number and content of the requests can be stated.

Behaviour worth noting:

- A chunk succeeds only on status 200. Any other 2xx status counts as an HTTP error.
- Header cells are stripped and then lower-cased before they are compared with `offer_id`.
- The two skip actions are written as `SKIPPED (AUTOARCHIVED)` and `SKIPPED (NOT_ARCHIVED)`.
- An input identifier does not get exactly one report row. A found identifier
  gets one row per record that carries it. A missing one gets one NOT_FOUND row
  per occurrence in the input. `Reconcile.EveryIdReported` proves "at least one".
- The set of found identifiers takes `offer_id` without a default. A record
  lacking the key is reported as `unknown`, but it does not make an input
  identifier `unknown` count as found.

## Model

| member | source | states |
|---|---|---|
| `Text.IsSpace` | main.py:48 | the whitespace `strip()` removes includes space, tab, newline, vertical tab, form feed and carriage return; no letter, digit or `_` (the characters of `offer_id`) is whitespace |
| `Text.TrimLeft` | main.py:48 | the result is the longest suffix of the input that does not start with whitespace, and everything dropped is whitespace |
| `Text.TrimRight` | main.py:48 | the result is the longest prefix of the input that does not end with whitespace, and everything dropped is whitespace |
| `Text.Trim` | main.py:48 | `strip()` yields a contiguous slice of the input that neither starts nor ends with whitespace |
| `Text.TrimRemovesOnlySpace` | main.py:48 | every character outside the kept slice is whitespace |
| `Text.TrimOfTrimmed` | main.py:48 | a string with no leading or trailing whitespace is unchanged by `strip()` |
| `Text.TrimIdempotent` | main.py:48 | stripping twice is the same as stripping once |
| `Text.Lower` | main.py:34 | lower-casing keeps the length and maps each character on its own |
| `Loader.Headers` | main.py:33-34 | header j is cell j of row 1, stripped and lower-cased, with `""` for an empty cell |
| `Loader.IndexOf` | main.py:36-37 | gives `None` exactly when the key is absent, otherwise the first position holding it |
| `Loader.SelectColumn` | main.py:33-41 | with an `offer_id` header, the first such column is read from row 2; otherwise column 1 is read from row 1; the start row is at most one past the last row, so a header-only sheet yields no identifiers |
| `Loader.ColumnCells` | main.py:44-45 | the visited cells are column `col` of every row from the start row on, a short row reading as empty |
| `Loader.Stripped` | main.py:44-48 | the row loop keeps at most one value per cell; `Loader.StrippedMembership` characterises its values (the stripped non-empty cells) and `Loader.StrippedAppend` their row order |
| `Loader.DropEmpty` | main.py:51 | the result has no empty string; it keeps every non-empty value of its input as often as it occurs there, and in the same order |
| `Loader.StrippedAppend` | main.py:44-48 | stripping a run of cells is stripping each part, concatenated in row order |
| `Loader.DropEmptyAppend` | main.py:51 | dropping the empty values of a concatenation is dropping them from each part, concatenated in order |
| `Loader.Loaded` | main.py:29-52 | every identifier the loader returns is non-empty and is its own `strip()` |
| `Loader.LoadedFrom` | main.py:43-51 | reading a selected column keeps only non-empty, already stripped identifiers |
| `Loader.KeptAreTrimmed` | main.py:44-51 | every value kept after dropping empty strings is its own `strip()` |
| `Loader.ReadColumn` | main.py:43-48 | the row loop skips empty cells, strips the rest, keeps their order, and every value it keeps is already stripped |
| `Loader.ReadOfferIds` | main.py:29-52 | the loader returns the column selected by the header rule, with values in row order, stripped and non-empty |
| `Loader.StrippedAreTrimmed` | main.py:44-48 | every value the row loop keeps is its own `strip()` |
| `Loader.LoadedMembership` | main.py:43-51 | a string is loaded exactly when it is non-empty and is the stripped value of some non-empty cell of the selected column |
| `Loader.HeaderlessReadsFirstColumn` | main.py:39-41 | without an `offer_id` header, the identifiers come from column 1 starting at row 1 |
| `Chunking.Chunks` | main.py:80-81 | there are no chunks exactly when the list is empty, and every chunk holds between 1 and 100 items |
| `Chunking.ChunkCount` | main.py:80 | N items make ceil(N/100) chunks |
| `Chunking.ChunkAt` | main.py:80-81 | chunk k is the slice `[100k, min(100k+100, N))` and starts inside the list |
| `Chunking.ChunkIndexInRange` | main.py:80 | chunk k exists exactly when 100k < N, which is the loop condition |
| `Chunking.FlattenChunks` | main.py:80-81 | concatenating the chunks gives back the original list |
| `Batches.Oks` | main.py:104-106 | there are at most as many payloads as chunks; `Batches.OutcomeMembership` and `Batches.StepChunk` characterise them |
| `Batches.Errors` | main.py:92-128 | there are at most as many errors as chunks; `Batches.OutcomeMembership` and `Batches.StepChunk` characterise them |
| `Batches.OutcomeMembership` | main.py:87-130 | every successful chunk's payload is among the results and every failed chunk's error among the errors, and neither holds anything else |
| `Batches.ConcatMembership` | main.py:106 | a value is in the extended list exactly when it is in one of the batches |
| `Batches.OkItemsMembership` | main.py:104-106 | every item of a successful chunk is a record, and every record is an item of a successful chunk |
| `Batches.Items` | main.py:98-106 | every item of a successful chunk is among the fetched records, and every record comes from some successful chunk |
| `Batches.EveryChunkAccounted` | main.py:87-130 | each chunk contributes exactly one entry, a payload or an error, so payloads plus errors equal the chunk count |
| `Batches.OksAppend` | main.py:87-130 | what a run of chunks collects is what each part collects, concatenated, so a failure does not affect the other chunks |
| `Batches.StepChunk` | main.py:87-130 | one more chunk appends its payload to the successes or its single error to the errors, and changes nothing collected before it |
| `Batches.StepItems` | main.py:104-106 | one more successful chunk appends exactly its items after the records collected so far; a failed chunk adds none |
| `Batches.ItemsAround` | main.py:104-106 | the records are those of the chunks before k, then chunk k's items if it succeeded, then those of the chunks after |
| `Fetcher.FetchOutcome` | main.py:87-128 | a chunk yields records only on status 200 with an object body that has items; top-level `items` beats `result.items`; a non-200 status is an HTTP error; no top-level items, and either no `result` key or a `result` object without items, is a missing-items error; an exception, an undecodable or non-object body, or a `result` that is not an object is an exception entry |
| `Fetcher.FetchOutcomes` | main.py:80-90 | there is one outcome per chunk, and outcome k comes from reply k |
| `Fetcher.GetProductsInfo` | main.py:72-135 | it posts exactly the chunks of the ids, in order; the records are the successful chunks' items concatenated in chunk order; the errors are the failed chunks' errors, one each |
| `Fetcher.AllChunksRejected` | main.py:92-96 | if every chunk fails, there are no records and one error per chunk |
| `Restorer.RestoreOutcome` | main.py:150-167 | a restore chunk succeeds exactly on status 200 with a decodable body, keeping that body; a non-200 status is an HTTP error; an exception or an undecodable body is an exception entry |
| `Restorer.RestoreOutcomes` | main.py:146-152 | there is one outcome per chunk of product ids, and outcome k comes from reply k |
| `Restorer.UnarchiveProducts` | main.py:138-169 | it posts exactly the chunks of the product ids, in order; results and errors are the successful bodies and the failed chunks' errors, in chunk order |
| `Report.ActionName` | main.py:350-395 | the actions are written `SKIPPED`, `TO_UNARCHIVE`, `SKIPPED (AUTOARCHIVED)`, `SKIPPED (NOT_ARCHIVED)` and `NOT_FOUND`, and no two actions share a text |
| `Report.HeaderRow` | main.py:58 | the header row holds the seven column names in order |
| `Report.Layout` | main.py:59-67 | column j holds the row's value for the j-th column name (nothing if the key is absent), and the error column defaults to `""` |
| `Report.LayoutOfRow` | main.py:60-68 | a report entry is written as its seven fields in column order, with the action as text |
| `Report.WriteReport` | main.py:55-69 | the sheet is the header followed by one laid-out row per entry, in the same order |
| `Classifier.Decide` | main.py:350-364 | (archived, not auto) gives TO_UNARCHIVE; (archived, auto) gives SKIPPED (AUTOARCHIVED); not archived gives SKIPPED (NOT_ARCHIVED); the SKIPPED placeholder never survives |
| `Classifier.StatusBefore` | main.py:341-342 | a `statuses` object with a `status_name` gives that name; a missing key, a missing `statuses` or one that is not an object gives `unknown` |
| `Classifier.ClassifyRecord` | main.py:337-352 | a record's entry carries its `offer_id` (default `unknown`), its `id`, its status name as read from `statuses` and its flags (default false); its action is the decision table applied to the two flags, TO_UNARCHIVE exactly when the record is eligible; its error is empty |
| `Classifier.ClassifyAll` | main.py:336-366 | there is one entry per record, in fetch order |
| `Classifier.RestoreList` | main.py:355-357 | an id is in the restore list exactly when some eligible record carries it, and the list is no longer than the records |
| `Classifier.ClassifyProducts` | main.py:333-366 | the loop yields one entry per record in fetch order, and the ids of the eligible records in record order |
| `Classifier.RestoreListMatchesReport` | main.py:355-357 | the restore list is exactly the product ids that the report marks TO_UNARCHIVE, in report order |
| `Classifier.RestoredNotSelectedAgain` | main.py:339-363 | after a restore, classifying again selects nothing and marks every record SKIPPED (NOT_ARCHIVED) |
| `Reconcile.Found` | main.py:386 | the found set holds the `offer_id` key of each record and nothing else |
| `Reconcile.Missing` | main.py:386-388 | an id is missing exactly when it is an input id that no record carries, and there are at most as many missing ids as input ids |
| `Reconcile.NotFoundRow` | main.py:389-397 | a NOT_FOUND entry carries the input id, `NOT_FOUND` as product id, status and both flags, the NOT_FOUND action and the error text `Товар не найден в API` |
| `Reconcile.NotFoundRows` | main.py:387-397 | there is one NOT_FOUND entry per missing id, in order |
| `Reconcile.ReportEntries` | main.py:336-397 | the report holds one entry per record and one per missing id, and an entry is NOT_FOUND exactly when it comes after the classified records |
| `Reconcile.AppendNotFound` | main.py:386-397 | the classified entries are kept, followed by one NOT_FOUND entry per missing input id in input order |
| `Reconcile.MissingCount` | main.py:387-388 | a found id gets no NOT_FOUND entry; a missing id gets one per occurrence in the input |
| `Reconcile.MissingExactly` | main.py:386-388 | an id gets a NOT_FOUND entry exactly when it is an input id that no record carries |
| `Reconcile.NothingFetchedAllMissing` | main.py:386-397 | with no records, the report is one NOT_FOUND entry per input id, in input order |
| `Reconcile.EveryIdReported` | main.py:336-397 | every input id appears as the `offer_id` of some report entry |
| `Run.WrittenSheet` | main.py:58-68 | the written sheet is the header followed by each entry's laid-out row |
| `Run.FinishReport` | main.py:385-401 | the written sheet is the classified entries plus the NOT_FOUND entries, laid out after the header |
| `Run.Process` | main.py:304-401 | the run ends for lack of ids exactly when none are loaded, and then sends no request and writes no report. Otherwise every chunk is fetched, and the run completes exactly unless it got no records and some error; a failed run stops before restore and report. A completed run restores exactly the chunks of the restore list (none if it is empty) and writes the report. With no records and no errors, the run completes, restores nothing and reports every id as NOT_FOUND |
| `Run.AllLookupsRefused` | main.py:324-328 | if every lookup is refused, there are no records and at least one error, so the run stops |
| `Run.ThreeIdScenario` | main.py:336-397 | for inputs A, B, C with A archived by the merchant, B not archived and C absent: A is TO_UNARCHIVE, B is SKIPPED (NOT_ARCHIVED), C is NOT_FOUND, and only A's id is sent for restore |

## Left out

- The Tkinter window: file dialogs, message boxes, the account selector, the
  progress bar values and the log console (main.py:172-256, 306, 317-318, 322,
  368, 383, 403-415). They only display.
- The background thread and the log queue polled every 100 ms (main.py:232-248,
  264, 302). The model runs one `process` call as a single sequential method.
- Log messages and their text, including the debug dump of the keys of the first
  record and of the reply (main.py:107-114), the "first 5 errors" log
  (main.py:326-327) and the closing summary (main.py:405-409).
- `requests.post`, its headers (`get_headers`, main.py:21-26), its timeouts and
  the connectivity test (main.py:258-291). Each request's outcome is an oracle
  argument.
- Loading the configuration and choosing the account (main.py:16-18, 179-203,
  300-301). The account only feeds the request headers, which are not modelled.
- openpyxl loading and saving, and the output path `result.xlsx` next to the
  input (main.py:30-31, 56-57, 69, 400). The sheet is a sequence of rows.
- `str(v)` of non-text cells (main.py:34, 48). Cells are modelled as text.
- The exception classes (main.py:117-128, 164). Any exception while sending a
  request or decoding its reply is one `Exception` error entry. A reply that is
  not a JSON object, or whose `result` is not an object, raises and is modelled
  as such an entry.
- JSON values of unexpected types: a record whose flags, `offer_id` or
  `status_name` are not booleans or strings, or an `items` that is not a list of
  objects. Keys are either absent or hold the expected type. The debug block at
  main.py:109-111 can raise after `results.extend` only for a first item that is
  not an object, so it is not modelled.
- `Text.Lower`: lower-cases ASCII letters only, where Python's `lower()` covers
  all of Unicode. No character outside ASCII lower-cases to a letter of
  `offer_id`, so the header decision is the same.
- An unexpected exception inside `process` (main.py:417-420) is not modelled.
  The modelled steps raise nothing outside the per-chunk handlers.
