# kanpo image extractor — a Dafny model

kanpo is a browser tool. The user chooses a batch of images. For each one, it sends the image's
base64 payload, with a configurable prompt, to a hosted model service, and appends the JSON fields
returned to a table of records. The table can be filtered by deleting rows, bulk-deleting the
selected rows or clearing everything, and it can be exported as CSV. This project models the
core of that tool and proves what it does.

- `App` (src/App.tsx): the application state as a class `AppState`.
  - Its two step-by-step handlers are methods with loops:
    - the batch extraction loop (`handleProcessImage`), proved against file-by-file
      reference functions (`Outcomes`, `Requests`, `Added`, `LastError`, `Calls`, `Statuses`);
    - the CSV export (`handleDownloadCsv`): key collection and text building.
  - The table handlers apply the functions of `RecordStore` to the class's fields.
  - The lemmas about the batch cover:
    - one record per success, in file order, with `Date.now() + i` ids;
    - ids strictly increasing within a batch;
    - the last failure's message as the error;
    - one request per file whose payload was read, in order;
    - the messages a failure can show.
- `RecordStore` (src/App.tsx): delete one row, delete the selected rows, clear everything and
  change the selection, as functions from the old record list and selection to the new ones, with
  exact copy counts and order preservation.
- `Csv` (src/App.tsx): the CSV text.
  - Its partner is a reader for that text, with round-trip lemmas for:
    - one quoted cell;
    - one line;
    - the whole document.
  - It also states where the format breaks: a field name holding a comma.
- `DataTable` (components/DataTable.tsx):
  - the sorted column union;
  - the all-selected flag;
  - the `?? 'N/A'` cell text, compared against the CSV cell;
  - the header and body layout;
  - the placeholder;
  - the toolbar buttons.
- `GeminiService` (src/services/geminiService.ts) and `LegacyGeminiService`
  (services/geminiService.ts): the two variants of `extractDataFromImage`.
  - Each has the key guard, trimming, the empty-text check and the `catch` message mapping.
  - Only the current variant has the `{`/`[` prefix guard.
  - The lemmas show that the empty-response and not-JSON messages never reach the caller, and
    that the variants differ only on non-blank text that opens neither an object nor an array.
- `FileUtils` (src/utils/fileUtils.ts): `fileToBase64`, the `split(',')[1]` payload with its
  rejections.
- Supporting modules:
  - `Strings`: JavaScript's `includes`, `startsWith`, `trim`, `split`, `join` and `String(n)`.
  - `StringOrder`: the default `sort` order and the sorted listing of a set.
  - `Records`: the record type.
  - `Seqs`: `filter`.
  - `Wrappers`: `Option`, `Result` and thrown values.

Outside the program are the model service, `JSON.parse`, the file reader and the clock.
- The service's answer to each request and the parser are functions of an environment value
  `Env`.
- What reading a file as a data URL gives is part of each `File`.
- `Date.now()` is one reading per file position, assumed non-decreasing where a lemma needs it.
- `window.confirm` is a boolean parameter.

Behaviour of the code a reader may not expect, which the model follows:
- **Requests.** The extraction service is not called once for every file: a file whose payload
  cannot be read sends no request, and neither does any file when the key is empty
  (`App.RequestOf`, `App.CallsFollowFiles`).
- **Error messages.** The empty-response and invalid-format errors are not surfaced. They are
  re-mapped to the generic failure message (`GeminiService.EmptyResponseSurfacesAsGeneric`,
  `GeminiService.NotJsonSurfacesAsGeneric`).
- **Round trip.** The CSV round trip does not hold for every record set. Header names are written
  unquoted, so it needs field names without commas or line feeds (`Csv.DocumentRoundTrip`,
  `Csv.CommaInKeySplitsHeader`).
- **Ids.** Record ids are unique within one batch, not across batches
  (`App.IdsCanRepeatAcrossBatches`).

## Model

| member | source | states |
|---|---|---|
| App.ProgressStatus | src/App.tsx:134 | the progress message ends with the file's name |
| App.ProgressStatusDistinct | src/App.tsx:134 | the counter `i + 1` makes the messages of two positions differ, even for files with the same name |
| App.FailureMessage | src/App.tsx:150 | the failure message ends with the error's message and never equals either guard message of the handler |
| App.ThrownMessage | src/App.tsx:149 | an `Error` gives its message, any other thrown value `An unknown error occurred`; `App.CaughtMessages` states what reaches the table |
| App.RequestOf | src/App.tsx:135-138 | a file sends a request exactly when the key is given and its payload was read, carrying the batch's key and prompt and the file's payload and MIME type |
| App.Attempt | src/App.tsx:133-149 | a success follows a sent request that was answered, and carries what the parser gave for the trimmed answer (`data: result`); a failure after the request carries the message `extractDataFromImage` rejected with; a failed read ends in the unknown-error text, a data URL without a payload in the conversion message, and a file read with an empty key in the not-provided message |
| App.OutcomeAt | src/App.tsx:131-138 | the outcome recorded for position `i` is what attempting file `i` gives: files are taken strictly in list order |
| App.RequestAt | src/App.tsx:131-138 | the request recorded for position `i` is the one file `i` leads to |
| App.NewRecord | src/App.tsx:140-144 | the record a successful file adds: id `Date.now() + i`, the file's name and the parsed fields; `App.AddedIdsIncrease`, `App.EarlierIdsAreSmaller` and `App.IdsCanRepeatAcrossBatches` state what this id rule gives |
| App.Gained | src/App.tsx:138-146 | one file appends its record on success and nothing on failure; `App.AddedRecords` sums it over a batch |
| App.ErrorAfter | src/App.tsx:148-151 | a failure replaces the error with its message, a success leaves it; `App.LastErrorIsLastFailure` and `App.NoErrorIffAllSucceeded` sum it over a batch |
| App.AddedCount | src/App.tsx:140-146 | the batch appends exactly as many records as files succeeded |
| App.AddedMember | src/App.tsx:140-146 | a record is appended exactly when some file succeeded with it, carrying id `Date.now() + i`, the file name and the parsed fields |
| App.AddedRecords | src/App.tsx:140-146 | both of the above: one record per success and nothing else |
| App.AddedIdsIncrease | src/App.tsx:141 | with a clock that never goes back, the ids of one batch strictly increase in list order |
| App.EarlierIdsAreSmaller | src/App.tsx:141 | every id handed out for an earlier file is below the id file `k` would get |
| App.AddedIdsFromFirstReading | src/App.tsx:141 | every id of the batch is at least the first clock reading |
| App.BatchKeepsIdsDistinct | src/App.tsx:140-146 | records whose ids are distinct and below the batch's first reading stay distinct after the batch appends its records |
| App.IdsCanRepeatAcrossBatches | src/App.tsx:141 | two batches can hand out the same id (readings 100 and 101 both yield id 101) |
| App.NoErrorIffAllSucceeded | src/App.tsx:128-150 | the error is cleared at the start and is still empty at the end exactly when every file succeeded |
| App.LastErrorIsLastFailure | src/App.tsx:148-150 | otherwise the error is the failure message of the last file that failed, naming that file |
| App.AllSucceed | src/App.tsx:131-154 | when every file succeeds, one record is added per file and no error is left |
| App.OneFailure | src/App.tsx:148-153 | a failure does not stop the batch: all other files add their records and the error names the failed file |
| App.CallsFollowFiles | src/App.tsx:135-138 | a request is sent exactly when some file of the batch leads to it |
| App.OneCallPerFile | src/App.tsx:131-138 | when every payload is read there is exactly one request per file, in file order |
| App.AttemptSucceeds | src/App.tsx:133-146 | a file succeeds exactly when the key is given, its payload is read, the service answers, and the trimmed answer looks like JSON and parses |
| App.CaughtMessages | src/App.tsx:148-150 | with a key, a failed file's message is one of five fixed texts; without one, one of the read, conversion and not-provided messages |
| App.CollectKeys | src/App.tsx:168-171 | the loop collects exactly the field names that occur in some record |
| App.WriteCsv | src/App.tsx:176-188 | the loop builds the header line followed by one line per record, in list order |
| App.AppState.constructor | src/App.tsx:85-101 | starts with the saved records, key and prompt, and no selection, files, error, status or loading |
| App.AppState.SelectFiles | src/App.tsx:244-245 | the uploader's choice replaces the chosen files |
| App.AppState.ChangeApiKey | src/App.tsx:107-110 | the key becomes the given text |
| App.AppState.ChangePrompt | src/App.tsx:112-115 | the prompt becomes the given text |
| App.AppState.ProcessImages | src/App.tsx:117-160 | without a key, or without files, only the matching message is set, with no request sent; otherwise the batch runs as `RunBatch` states |
| App.AppState.RunBatch | src/App.tsx:127-158 | the records gain the batch's successes, the error is that of the last failure, the requests and progress messages follow the files, and at the end loading stops, the status is cleared and no files remain chosen |
| App.AppState.RunFiles | src/App.tsx:131-154 | the loop leaves the records, error, requests and shown messages of the whole file list |
| App.AppState.NextFile | src/App.tsx:132-153 | one loop pass takes the state of the first `i` files to that of the first `i + 1` |
| App.AppState.Step | src/App.tsx:132-153 | one file shows its progress message; a success appends its record, a failure replaces the error with its failure message |
| App.AppState.DownloadCsv | src/App.tsx:162-188 | no text without records; otherwise the export over the sorted union of field names |
| App.AppState.ClearData | src/App.tsx:204-209 | the records and the selection become what `RecordStore.ClearData` gives |
| App.AppState.DeleteRow | src/App.tsx:211-214 | the records and the selection become what `RecordStore.DeleteRow` gives |
| App.AppState.DeleteSelected | src/App.tsx:216-222 | the records and the selection become what `RecordStore.DeleteSelected` gives |
| App.AppState.SelectionChange | src/App.tsx:224-232 | the records and the selection become what `RecordStore.SelectionChange` gives |
| RecordStore.DeleteRow | src/App.tsx:211-214 | exactly the records with another id stay, and exactly the other ids stay selected |
| RecordStore.DeleteSelected | src/App.tsx:216-222 | no change with an empty selection or without confirmation; otherwise exactly the records whose id is not selected stay, and the selection empties |
| RecordStore.ClearData | src/App.tsx:204-209 | when confirmed, no records and no selection remain; otherwise nothing changes |
| RecordStore.SelectionChange | src/App.tsx:224-232 | header box: every id in list order, or nothing; row box: the id appended even if present, or every copy removed; the records never change |
| RecordStore.DeleteRowCounts | src/App.tsx:212-213 | deleting a row keeps no copy of that id and every copy of everything else, in the records and in the selection |
| RecordStore.DeleteRowKeepsOrder | src/App.tsx:212 | deleting a row keeps the other records in their order |
| RecordStore.DeleteAbsentRow | src/App.tsx:211-214 | deleting an id that nothing has changes nothing |
| RecordStore.DeleteRowIdempotent | src/App.tsx:211-214 | deleting the same row twice equals deleting it once |
| RecordStore.DeleteSelectedCounts | src/App.tsx:219 | a record whose id is selected loses every copy; every other record keeps all of its copies |
| RecordStore.DeleteSelectedKeepsOrder | src/App.tsx:219 | the remaining records keep their order |
| RecordStore.UntickCounts | src/App.tsx:229 | unticking removes every copy of the id and nothing else |
| RecordStore.TickCounts | src/App.tsx:229 | ticking adds one more copy of the id, even when it is already selected |
| Csv.EscapeQuotes | src/App.tsx:181-184 | `replace(/"/g, '""')` doubles every quote: never shorter, and unchanged when the value has no quote; `Csv.QuotedBodyRoundTrip` undoes it |
| Csv.QuoteCell | src/App.tsx:181-184 | a quoted cell opens and closes with a quote and holds the escaped value; a value without quotes is wrapped as it is |
| Csv.QuoteAll | src/App.tsx:181-185 | the `map` over the values: one quoted cell per value, in order |
| Csv.CellValue | src/App.tsx:183 | `entry.data[key] ?? ''`: the stored string, or empty for a null or missing field (see `DataTable.CellTextAgainstExport`) |
| Csv.HeaderLine | src/App.tsx:174-176 | `id`, `imageName` and the keys joined by commas, then a line feed; `Csv.DocumentRoundTrip` reads it back |
| Csv.RowLine | src/App.tsx:179-187 | the id's decimal text, then the quoted image name and values, joined by commas, then a line feed; `Csv.RowRoundTrip` reads it back |
| Csv.Rows | src/App.tsx:178-188 | one line per record in list order; `Csv.RowsAppend` and `Csv.RowsRoundTrip` state its properties |
| Csv.Document | src/App.tsx:176-188 | the header line followed by the data lines; `App.WriteCsv` builds it and `Csv.DocumentRoundTrip` reads it back |
| Csv.QuotedBodyRoundTrip | src/App.tsx:181-184 | un-doubling the quotes of an escaped value gives the value back |
| Csv.QuotedRoundTrip | src/App.tsx:181-184 | reading a quoted cell gives back exactly the quoted value and stops right after the closing quote |
| Csv.RowValues | src/App.tsx:179-186 | a line's values are the image name, then for each column the field's string, or empty for a null or missing field |
| Csv.Export | src/App.tsx:162-166 | there is no CSV exactly when there are no records |
| Csv.RowsAppend | src/App.tsx:178-188 | the lines of a record list are those of its parts, one after the other |
| Csv.QuotedCellsRoundTrip | src/App.tsx:179-187 | a comma-joined line of quoted cells reads back as the cell values |
| Csv.RowRoundTrip | src/App.tsx:179-187 | a record's line reads back as its id, image name and one value per column |
| Csv.RowsRoundTrip | src/App.tsx:178-188 | the data lines read back as one row per record, in list order |
| Csv.DocumentRoundTrip | src/App.tsx:173-188 | the whole text reads back as the header `id`, `imageName` and the keys, then each record's id, image name and values |
| Csv.CommaInKeySplitsHeader | src/App.tsx:174-176 | a field name holding a comma splits into two header names |
| DataTable.Columns | components/DataTable.tsx:24-30 | the columns are strictly ascending and hold exactly the field names found in some record |
| DataTable.ColumnsOccurOnce | components/DataTable.tsx:24-30 | no field name is listed twice |
| DataTable.ColumnsUnique | components/DataTable.tsx:24-30 | any strictly ascending list of exactly those names is the column list |
| DataTable.ColumnsIgnoreOrder | components/DataTable.tsx:25-29 | two record lists holding the same records give the same columns |
| DataTable.ExportUsesColumns | components/DataTable.tsx:24-30 | the CSV export uses the table's columns, in the same order |
| DataTable.IsAllSelected | components/DataTable.tsx:32 | data present and the selection as long as the data; `DataTable.AllSelectedByLengthOnly` and `DataTable.AllSelectedMeansEveryRow` state its meaning |
| DataTable.AllSelectedByLengthOnly | components/DataTable.tsx:32 | the flag compares lengths only: a selection can set it while missing a row |
| DataTable.AllSelectedMeansEveryRow | components/DataTable.tsx:32 | with distinct ids and a repeat-free selection of existing ids, the flag is set exactly when there is data and every row is selected |
| DataTable.SelectAllSetsFlag | components/DataTable.tsx:58-65 | ticking the header box sets the flag exactly when there is data; unticking clears it |
| DataTable.CellText | components/DataTable.tsx:88 | `row.data[key] ?? 'N/A'`: the stored string, or `N/A` for a null or missing field; `DataTable.CellTextAgainstExport` compares it with the CSV |
| DataTable.CellTextAgainstExport | components/DataTable.tsx:88 | a stored string, empty or not, shows as itself in the table and the CSV; a null or missing field shows `N/A` in the table and an empty cell in the CSV |
| DataTable.HeaderRow | components/DataTable.tsx:57-72 | the header cells; `DataTable.HeaderRowLayout` lists them |
| DataTable.BodyRow | components/DataTable.tsx:76-101 | one record's cells; `DataTable.BodyRowLayout` lists them |
| DataTable.Render | components/DataTable.tsx:53-110 | the placeholder or the table; `DataTable.RenderLayout` states its layout |
| DataTable.DeleteSelectedLabel | components/DataTable.tsx:41 | `Delete Selected (n)` with the selection's size; `DataTable.DeleteSelectedLabelDistinct` states that it tells every size apart |
| DataTable.DeleteSelectedLabelDistinct | components/DataTable.tsx:41 | two different selection sizes give different labels |
| DataTable.ToolbarOf | components/DataTable.tsx:39-49 | the three toolbar buttons; `DataTable.ToolbarLayout` states when each shows or is disabled |
| DataTable.HeaderRowLayout | components/DataTable.tsx:57-72 | the header is the select-all box, `Image Name`, one header per column in order, then `Actions` |
| DataTable.BodyRowLayout | components/DataTable.tsx:76-101 | a row is the record's box (ticked when its id is selected), its image name, one cell per column, then its delete button |
| DataTable.RowLinesUp | components/DataTable.tsx:57-101 | every body row lines up under the header, cell by cell |
| DataTable.HeaderNamesColumns | components/DataTable.tsx:68-70 | the field-name headers are exactly the columns |
| DataTable.RenderLayout | components/DataTable.tsx:53-110 | the placeholder shows exactly when there is no data; otherwise the header names every field found, with one lined-up row per record in list order |
| DataTable.ToolbarLayout | components/DataTable.tsx:39-49 | Delete Selected shows exactly when something is selected, labelled with the count; Clear All and Download CSV are disabled exactly when there is no data |
| GeminiService.LooksLikeJson | src/services/geminiService.ts:42 | the trimmed text starts with `{` or `[` |
| GeminiService.TryBlock | src/services/geminiService.ts:10-49 | a rejection of the call, the empty-text error, the not-JSON error, or what the parser gives for the trimmed text; `GeminiService.ExtractDataFromImage` states the result |
| GeminiService.CatchMessage | src/services/geminiService.ts:50-60 | an `Error` mentioning an invalid key maps to the invalid-key message, checked first; one mentioning 429 maps to the rate-limit message; everything else maps to the generic message |
| GeminiService.ExtractDataFromImage | src/services/geminiService.ts:3-61 | the not-provided message comes exactly from an empty key; success comes exactly when the key is given, the service answers, and the trimmed text opens an object or array and parses; the parsed fields are returned |
| GeminiService.ExtractDataFromImageMessages | src/services/geminiService.ts:36-60 | every failure is the not-provided message or one of the three `catch` messages, never the empty-response or not-JSON text |
| GeminiService.InnerMessagesLackTriggers | src/services/geminiService.ts:38-56 | neither message thrown inside the `try` block contains `API key not valid` or `429` |
| GeminiService.EmptyResponseSurfacesAsGeneric | src/services/geminiService.ts:36-60 | a blank answer always ends as the generic message |
| GeminiService.NotJsonSurfacesAsGeneric | src/services/geminiService.ts:42-60 | a non-blank answer opening neither `{` nor `[` always ends as the generic message |
| GeminiService.RejectionIsMapped | src/services/geminiService.ts:47-60 | a rejection by the service or the parser reaches the caller only through the `catch` mapping |
| LegacyGeminiService.LegacyTryBlock | services/geminiService.ts:10-37 | a rejection of the call, the empty-text error, or what the parser gives for any non-blank trimmed text |
| LegacyGeminiService.LegacyExtractDataFromImage | services/geminiService.ts:3-50 | same key guard and `catch` mapping; success comes exactly when the service answers with non-blank text that parses, with no prefix check |
| LegacyGeminiService.LegacyEmptyResponseSurfacesAsGeneric | services/geminiService.ts:30-49 | a blank answer ends as the generic message here too |
| LegacyGeminiService.VariantsAgreeOutsidePrefixGuard | services/geminiService.ts:30-36 | both variants agree on a missing key, a rejection, a blank answer and a JSON-looking answer |
| LegacyGeminiService.VariantsDifferOnNonJsonText | services/geminiService.ts:35 | on non-blank text opening neither `{` nor `[`, the older variant returns whatever the parser gives, while the current one fails generically |
| FileUtils.Base64Payload | src/utils/fileUtils.ts:9-13 | a payload is never empty and holds no comma; the only rejection is the conversion message, and a data URL without a comma always gets it |
| FileUtils.PayloadOfDataUrl | src/utils/fileUtils.ts:9-13 | the result is the text between the first and second comma, rejected when that text is empty |
| FileUtils.PayloadExample | src/utils/fileUtils.ts:9-11 | `data:image/png;base64,XYZ` yields `XYZ` |
| FileUtils.EmptyPayloadExample | src/utils/fileUtils.ts:10-13 | a data URL ending at its comma is rejected |
| FileUtils.SecondCommaExample | src/utils/fileUtils.ts:9 | only the piece up to the second comma is taken |
| FileUtils.FileToBase64 | src/utils/fileUtils.ts:1-18 | resolves exactly when the payload is present, with the second comma-separated piece of the data URL (`split(',')[1]`), which is non-empty and comma-free; rejects with the conversion `Error` otherwise, and with a non-`Error` when the read fails |
| Strings.IsJsWhitespace | src/services/geminiService.ts:36 | the ECMAScript WhiteSpace and LineTerminator code points that `trim` removes; `Strings.Trimmed` states how `Trim` uses it |
| Strings.Trim | src/services/geminiService.ts:36 | `trim` as the end-trim of the start-trim; `Strings.Trimmed` states what it leaves |
| Strings.Contains | src/services/geminiService.ts:53-56 | `includes`: the text occurs at some offset |
| Strings.StartsWith | src/services/geminiService.ts:42 | `startsWith`: the text is a prefix |
| Strings.Split | src/utils/fileUtils.ts:9 | `split` on one character gives at least one piece and no piece holds the separator; `Strings.SplitJoin` shows it undoes `join` |
| Strings.Join | src/App.tsx:176 | `join` puts the separator between consecutive pieces |
| Strings.Trimmed | src/services/geminiService.ts:36 | `trim` leaves the slice of the text between a whitespace-only prefix and a whitespace-only suffix; it is empty exactly when the text is all whitespace, and otherwise starts and ends with a non-space |
| Strings.IntToString | src/App.tsx:134 | `${n}` for an integer: at least one character, only digits and a minus sign; `Strings.IntToStringRoundTrip` reads it back |
| Strings.IntToStringRoundTrip | src/App.tsx:180 | the decimal text of an id reads back as the id |
| Strings.IntToStringInjective | src/App.tsx:180 | different ids have different decimal texts |
| StringOrder.BelowTotal | src/App.tsx:173 | any two strings are comparable under the default sort order |
| StringOrder.BelowTransitive | src/App.tsx:173 | the default sort order is transitive |
| StringOrder.BelowAntisymmetric | src/App.tsx:173 | two strings each sorting no later than the other are equal |
| StringOrder.SortedSeq | components/DataTable.tsx:29 | `Array.from(set).sort()` is strictly ascending and holds exactly the set's elements, as many as the set has |
| StringOrder.SortedSeqUnique | src/App.tsx:173 | a set has only one strictly ascending listing |
| Records.Ids | src/App.tsx:226 | `map(item => item.id)`: one id per record, in list order |
| Records.KeyUnion | components/DataTable.tsx:25-28 | the set of field names that occur in some record; `App.CollectKeys` builds it and `DataTable.Columns` lists it |
| Records.KeyUnionAppend | src/App.tsx:168-171 | the field names of two record lists together are the union of each list's names |
| Seqs.Filter | src/App.tsx:212-213 | `filter` keeps exactly the elements its test accepts |
| Seqs.FilterMultiplicity | src/App.tsx:212-219 | `filter` keeps every copy of an accepted value and none of a rejected one |
| Seqs.FilterConcat | src/App.tsx:212-219 | `filter` keeps the relative order of what it keeps |

## Left out

- Browser storage. The reads behind the initial state and the writes in `useEffect`,
  `handleApiKeyChange` and `handlePromptChange` (src/App.tsx:85-115) are left out: the
  constructor takes the saved records, key and prompt as parameters. The fallback to an empty list
  when the saved data does not parse is not modelled.
- The download itself. The Blob, the object URL, the hidden anchor and its MIME string
  (src/App.tsx:190-200) are DOM I/O: `DownloadCsv` returns the text that would be downloaded.
- Dialogs. `window.confirm` is a boolean parameter. The `alert` for an empty table is the
  absent result of `DownloadCsv`.
- `async`/`await` and React state batching. The loop is strictly sequential, so it is modelled as
  a plain loop. Functional updates (`prevData => [...prevData, newData]`) act on the current field.
  The handler's key and prompt are those captured when it started. The delete, clear and
  selection handlers stay enabled while a batch runs and could change the records at each
  `await`; the batch contracts (`records == old(records) + …`) assume no such interleaving.
- `isLoading` while the batch runs. It is set before the loop and cleared after it, and the
  contract states only its final value.
- The model service and `JSON.parse`: they are foreign code.
  - Each is a function of the environment, so the same request always gets the same answer.
  - The text part sent with the request, the model name and the response MIME type are not
    part of the modelled request.
  - An undefined `response.text` is covered only as a rejection (`Failed`) of the service call.
- The unchecked cast of the parsed JSON. Parsed fields are modelled as a map from names to
  strings or `null`. Numbers, booleans and nested values that a real answer could hold are not
  modelled.
- `console.error` logging.
- `DEFAULT_PROMPT` (src/App.tsx:34-82). It is a text for the remote model; the prompt is any
  string here.
- Presentational components: `ApiKeyInput`, `Header`, `Button`, `PromptEditor` and
  `ImageUploader` (previews, spinners and the file dialog). Only the uploader's hand-over of the
  chosen files is modelled (`App.AppState.SelectFiles`).
- JavaScript numbers. Ids are unbounded integers, and `Date.now() + i` never loses precision as it
  would above 2^53.
- Sort order. `StringOrder` compares Unicode code points, whereas `sort` compares UTF-16 code
  units; the two differ only between characters beyond U+FFFF and those from U+E000 to U+FFFF.
- Whitespace. `trim` covers the whitespace and line-terminator code points of ECMAScript.
  Characters beyond U+FFFF, which are never whitespace, are ordinary characters here.
- Csv.DocumentRoundTrip: requires that no field name contain a comma or a line feed, because
  header names are written without quotes; `Csv.CommaInKeySplitsHeader` shows the failure.
- App.OneCallPerFile: requires that a key is given and every payload was read, because a file whose conversion
  rejects sends no request; `App.CallsFollowFiles` covers the general case.
- DataTable.AllSelectedMeansEveryRow: requires distinct ids and a selection without repeats or
  stale ids, because the flag compares lengths only; `DataTable.AllSelectedByLengthOnly` shows
  the flag set while a row is unselected.
- Csv.CellValue, DataTable.CellText, Csv.RowValues and DataTable.CellTextAgainstExport: a field
  name inherited from `Object.prototype` (`constructor`, `__proto__`, `toString`, …) reads in the
  source as the inherited value when the record lacks it; the model reads such a field as absent.
