# List distribution engine: a Dafny model

This project models the list upload and distribution logic of the
mern-list-distributor server (`server/controllers/listController.js`).
An admin uploads a CSV or Excel file of contacts. The handler refuses the
upload when the admin has no agents or the extension is wrong. It then
checks that every row has a `FirstName` and a `Phone`, and splits the rows
over the admin's agents in contiguous, balanced blocks. The extra rows of
the remainder go to the earliest agents in roster order. Each row is
stored as a list item tagged with its agent and the admin. Finally the
handler answers with a summary that groups all of the admin's items by
agent. Two read queries list the admin's items, either all of them or
those of one agent.

Everything is pure functions over immutable values:

- `types.dfy` (`ListTypes`): rows (column name to cell text), agents,
  contacts, list items, summary groups, upload errors.
- `formats.dfy` (`Formats`): the file extension as Node's POSIX
  `path.extname` computes it, ASCII lower-casing, and the dispatch to the
  delimited, spreadsheet or rejected path.
- `validation.dfy` (`Validation`): the all-or-nothing row check.
- `distribution.dfy` (`Distribution`): the share arithmetic, the
  contiguous partition as a reference function, and the handler's nested
  distribution loop as a method proved equal to it.
- `store.dfy` (`ListStore`): the mapping from rows to stored items, the
  append-only collection, the owner and per-agent queries, and the
  schema-as-written variant that loses the owner tag.
- `summary.dfy` (`Summary`): the grouping by agent with its separate
  counter.
- `controller.dfy` (`ListController`): the upload request end to end.

The collection is a sequence that only grows by appending. The agent
roster, the admin id and the decoded rows are parameters. The result of
each decoder is part of the `UploadedFile` value: the rows the CSV parser
emits, and the sheets the spreadsheet reader yields (or `None` when it
cannot open the file).

Behaviour as the code has it:

- The handler has a single validation policy: one bad row rejects the
  whole batch. There is no mode that skips bad rows.
- The summary is read back from the whole collection, so it covers all of
  the admin's items from every upload, not just the current batch.
- The roster check (lines 22-29) comes before the extension check. An
  admin without agents gets "No agents available" even for a file the
  handler would refuse by its extension, such as "report.xlsm" (the
  upload filter lets that name through because its extension contains
  "xls").
- An unreadable spreadsheet raises an exception. The handler's `catch`
  (lines 60-66) turns it into a generic server error, not a format-specific one.

## Model

| member | source | states |
|---|---|---|
| Formats.TrimSlashesSpec | server/controllers/listController.js:33 | trailing separators are removed, and only those |
| Formats.LastSegmentSpec | server/controllers/listController.js:33 | the last segment is the separator-free suffix after the last separator |
| Formats.LastDotSpec | server/controllers/listController.js:33 | a '.' is found exactly when the segment has one, and it is the last one |
| Formats.ExtnameShape | server/controllers/listController.js:33 | the extension is empty or starts with its only '.' and holds no separator |
| Formats.ClassifyDelimited | server/controllers/listController.js:33-36 | a name ending in '.' plus a suffix takes the CSV path exactly when the lower-cased suffix is "csv" |
| Formats.ClassifySpreadsheet | server/controllers/listController.js:46-53 | such a name takes the spreadsheet path exactly when the lower-cased suffix is "xlsx" or "xls" |
| Formats.LeadingDotRejected | server/controllers/listController.js:54-59 | a name such as ".csv", whose only dot comes first, has no extension and is rejected as an invalid format |
| Formats.ClassifyNoDot | server/controllers/listController.js:54-59 | a name without any '.' is rejected as an invalid format |
| Validation.FirstInvalid | server/controllers/listController.js:73-80 | the loop runs to the end exactly when every row has a non-empty FirstName and Phone; otherwise it stops at the first row missing one |
| Distribution.SharesSum | server/controllers/listController.js:83-85 | the per-agent shares (n/k + 1 for the first n mod k agents, n/k for the rest) add up to n |
| Distribution.OffsetClosedForm | server/controllers/listController.js:87-106 | agent i's block starts at i·(n/k) + min(i, n mod k) |
| Distribution.Split | server/controllers/listController.js:100-105 | one block per requested size, each of exactly that size |
| Distribution.SplitFlatten | server/controllers/listController.js:100-105 | the consecutive blocks join back to the input |
| Distribution.Partition | server/controllers/listController.js:83-106 | one block per roster agent, even when empty; block i has n/k + 1 rows when i < n mod k and n/k otherwise; any two blocks differ by at most one; the blocks joined in roster order are the input rows |
| Distribution.PartitionBlock | server/controllers/listController.js:96-106 | block i is the slice between the running index before and after agent i, and the index never passes the batch length |
| Distribution.PartitionContiguous | server/controllers/listController.js:87-106 | agent i gets exactly the input rows from index i·(n/k) + min(i, n mod k) on, in order |
| Distribution.TenRowsThreeAgents | server/controllers/listController.js:83-106 | ten rows over three agents become rows 0-3, 4-6 and 7-9 |
| Distribution.Distribute | server/controllers/listController.js:83-106 | the handler's nested loop, with its index guard, builds exactly the reference partition and consumes every row |
| ListStore.Records | server/controllers/listController.js:110-121 | one item per distributed row, in order; item j carries row j's contact, the admin tag and the id of a roster agent |
| ListStore.Persist | server/controllers/listController.js:108-121 | the collection grows by exactly the batch size; earlier items are unchanged; each new item copies FirstName and Phone, takes Notes or '' and carries the admin tag |
| ListStore.PersistAsWritten | server/models/ListItem.js:4-25 | under the schema as declared, the new items are appended without an owner tag |
| ListStore.GetLists | server/controllers/listController.js:168-169 | an item is listed exactly when it is stored and owned by the admin |
| ListStore.GetListsByAgent | server/controllers/listController.js:189-192 | an item is listed exactly when it is stored, owned by the admin and assigned to the agent |
| ListStore.AssignedTo | server/controllers/listController.js:140-144 | an item is kept exactly when it is assigned to the agent |
| ListStore.GetListsAppend | server/controllers/listController.js:166-169 | the owner query over an appended collection is the old answer followed by the new items' answer |
| ListStore.GetListsByAgentAppend | server/controllers/listController.js:189-192 | the per-agent query over an appended collection is the old answer followed by the new items' answer |
| ListStore.ByAgentNarrowsOwner | server/controllers/listController.js:189-192 | the per-agent query is the owner query narrowed to the agent |
| ListStore.ByAgentOfRecords | server/controllers/listController.js:110-121 | with distinct agent ids, agent i's items among the new ones are exactly its block, tagged |
| ListStore.AbsentAgent | server/controllers/listController.js:110-121 | an id outside the roster gets none of the new items |
| Summary.AgentsOf | server/controllers/listController.js:140-141 | the group keys are exactly the agents the owner's items are assigned to, each once |
| Summary.CountMatchesItems | server/controllers/listController.js:144-145 | the `$sum: 1` counter equals the number of items pushed into the group |
| Summary.Summarize | server/controllers/listController.js:124-148 | one non-empty group per distinct agent among the owner's items; each count equals its items' length; each group's items are what the per-agent query returns |
| Summary.SummaryTotal | server/controllers/listController.js:124-148 | the counts add up to the number of the owner's items across all uploads |
| ListController.Upload | server/controllers/listController.js:12-153 | a missing file, an empty roster and an unknown extension are refused in that order; after those checks a batch with an invalid row is refused as invalid data and an unreadable spreadsheet as a server error; nothing is stored on refusal; the request succeeds exactly when the file decodes to an all-valid batch and the admin has agents; on success the collection grows by the batch size, keeps its earlier items, each new item holds its row's contact and the admin tag, and the answer is the summary of the new collection |
| ListController.DelimitedDecode | server/controllers/listController.js:35-44 | a ".csv" name hands the CSV parser's rows, unchanged, to processing |
| ListController.UploadFirstSheetOnly | server/controllers/listController.js:46-53 | a spreadsheet upload processes the rows of the first sheet, and the sheets after it never change the outcome |
| ListController.UploadNoSheets | server/controllers/listController.js:46-53 | a workbook without sheets yields no rows: nothing is stored and the answer is the admin's current summary |
| ListController.UploadUnreadableWorkbook | server/controllers/listController.js:46-48 | a spreadsheet the reader cannot open is refused as a server error by the handler's catch (lines 60-66), and nothing is stored |
| ListController.ProcessData | server/controllers/listController.js:70-153 | a batch with an invalid row is refused whole with nothing stored; otherwise the collection grows by the batch size, keeps its earlier items, each new item holds its row's contact and the admin tag, and the answer is the summary of the new collection |
| ListController.ProcessIsolation | server/controllers/listController.js:117 | processing a batch for one admin leaves every other owner's items as they were |
| ListController.UploadIsolation | server/controllers/listController.js:12-66 | an upload by one admin, accepted or refused, leaves every other owner's items as they were |
| ListController.ProcessPerAgent | server/controllers/listController.js:96-121 | after a valid batch, agent i's items are its earlier items followed by its block, tagged with its id and the admin; the block's size follows the remainder rule |
| ListController.ProcessSummaryTotal | server/controllers/listController.js:124-153 | a valid batch is accepted, and the returned summary counts the admin's earlier items plus the whole batch |
| ListStore.OwnedByAll | server/controllers/listController.js:168 | items all tagged with the owner are returned in full by the owner query |
| ListStore.NoneOwned | server/controllers/listController.js:168 | items tagged with other owners are never returned by the owner query |
| ListController.AsWrittenSummaryIgnoresBatch | server/models/ListItem.js:4-25 | with the owner tag dropped, the summary after persisting a batch equals the summary before it |
| Formats.ListCsvIsDelimited | server/controllers/listController.js:33-36 | "list.csv" takes the CSV path |
| ListController.UploadWitness | server/controllers/listController.js:112-148 | with the tag kept, a one-row upload by such an admin succeeds and its summary counts one item |
| ListController.OwnerTagWitness | server/controllers/listController.js:112-148 | a one-row CSV upload by an admin with agents and no items: the as-written summary is empty, while the modelled upload succeeds and its summary counts one item |

## Left out

- Byte decoding by `csv-parser` and `xlsx` (lines 39-41, 48-51): these are foreign libraries. The decoded rows are inputs.
- Spreadsheet cells that are numbers or booleans: `sheet_to_json` can produce them, and a numeric `0` counts as missing in JavaScript. The model treats every cell as text.
- Errors from the CSV stream: the handler has no `error` listener, so these are not modelled.
- The callback form of the CSV branch and the awaited form of the spreadsheet branch (lines 39-53): both reach the same processing step.
- Summarize: the agent join (`$lookup`/`$unwind`, lines 128-138) is not modelled. In the source it silently drops items whose agent no longer exists and adds the agent's name and email. The model groups every owned item, so on a collection with deleted agents its summary can hold more items than the source returns.
- Summarize: MongoDB leaves the order of `$group` results unspecified. The model orders groups by each agent's first appearance. The stated properties do not depend on group order.
- GetLists and GetListsByAgent: the `populate` join with agent name and email (lines 169, 192) is not modelled.
- Persist: a failure of one `ListItem.create` call partway through (lines 112-118, 154-159) leaves a partial batch. The model's persistence always succeeds.
- UploadNoSheets: the model takes it that the spreadsheet reader converts a missing first sheet to no rows. If the library throws there instead, the handler's catch would answer with a server error.
- Concurrency: each request is one atomic step of the model. In the source the awaits at lines 22, 112 and 124 let concurrent requests, even from the same admin, interleave their appends, so the growth and summary statements of Upload and ProcessData hold for a request that runs alone.
- GetListsByAgent: an agent id that is not a valid database object id (such as "abc") makes the source's query fail with a cast error, answered as a server error by the catch at lines 199-203. The model compares ids as text and answers an empty list.
- The `createdAt` timestamp: it comes from a clock.
- The roster query `Agent.find` (line 22): the roster is a parameter, in the order the query returns it.
- HTTP status codes and message texts: only the error kind is kept.
- Formats.Lower: only ASCII lower-casing. No non-ASCII character lower-cases to a letter of "csv", "xlsx" or "xls", so the dispatch decision is the same.
- Formats.Extname: POSIX path rules only. The Windows variant of `path.extname` is not modelled.
- Distribution.Distribute: the source keys the distribution object by agent id. The model indexes blocks by roster position. The two agree because agent ids are database ids, which are distinct (`ProcessPerAgent` assumes this). The persistence order of `Object.entries` then follows the roster.
- `server/middleware/fileUpload.js`, `server/controllers/agentController.js`, `server/routes/*`, `server/config/db.js` and `client/src/*`: upload plumbing, agent CRUD, routing, connection setup and UI.

## Findings

| source | as written | input that shows it | evidently intended | confidence | as-written member | corrected member |
|---|---|---|---|---|---|---|
| server/models/ListItem.js:4-25 | The schema declares no `createdBy` path. Under Mongoose's default strict mode, the owner tag set at listController.js:117 is discarded on create. The summary's `$match` on `createdBy` (line 126) then finds none of the new items. | An admin with at least one agent and no items uploads a file "list.csv" with one row that has FirstName and Phone. The as-written summary is empty. | Items keep their owner tag, and the summary counts the uploaded row. | medium, not executed (depends on Mongoose's strict-mode default) | ListController.OwnerTagWitness | ListController.ProcessSummaryTotal |
