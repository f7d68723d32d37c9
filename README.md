# dumpindextoexcel, modelled in Dafny

A model of the `dumpindextoexcel` command of `elasticsearch-index-analysis`, which
exports every document of an Elasticsearch index, projected onto a list of report
fields, into a one-sheet Excel workbook. The model covers the three pieces of
`cmds/dumpindextoexcel.js` that decide what ends up in the file:

- the **paged fetch** (`internals.fetchResults`): an initial search, then scroll
  requests with the current cursor token, one record per hit, stopping when the
  number of records equals the total the backend reports (`fetch.dfy`, with the
  per-hit projection in `records.dfy`);
- the **grid builder** (`internals.outputExcel` with `internals.Workbook`,
  `getCellID` and `addSheet`): a header row of field names at row 0, data row j
  at sheet row j + 1, and the declared range `!ref` (`sheets.dfy`, `export.dfy`);
- the **output-name rule** (`internals.validateAndCleanFileName`): no extension
  gets `.xlsx`, another extension is rejected with exit code 5, `.xlsx` in any
  letter case is kept (`filename.dfy`);

plus `internals.commandAction`, which chains them and turns their failures into
exit codes 5, 10 and 20 (`command.dfy`).

How the model stands in for what it cannot see:

- A cell address is the pair `Addr(col, row)`. The spreadsheet library's
  `encode_cell` and `encode_range` are injective encodings of such pairs, so the
  pair itself is the key of the sheet's cell map, and the range is a pair of pairs.
- The search backend is the sequence of its replies: reply 0 answers the search,
  reply k > 0 answers the k-th scroll request. The callback that re-invokes
  itself after every page becomes a loop over that sequence. When the replies run
  out before the count matches the total, the outcome is `Stalled`: the source
  would wait for ever. The length of the sequence is the loop's bound.
- `XLSX.writeFile` is a parameter saying whether the write throws.
- `path.normalize` and `path.resolve` are not modelled: the name rule takes the
  resolved path. `path.extname` is modelled (`FileName.ExtName`) by Node's
  POSIX rule.

Three behaviours of the code that the model keeps:

- A record that lacks a field reads `undefined` for it (`Value.Undefined`), and
  that value goes into the field's cell.
- On a backend error the code calls back with the error and then reads the
  undefined response, which throws; the model ends the fetch with the error and
  no records.
- When the write throws, the code calls its completion callback twice (once with
  the exception, once with `false`); the model reports one result, the failure,
  which is what the first call's `process.exit(20)` makes of it.

## Model

| member | source | states |
|---|---|---|
| Records.ProjectHit | cmds/dumpindextoexcel.js:221-234 | a hit without fields gives `{}`; otherwise the record's keys are exactly the report fields and each value is the hit's own value for that field, possibly undefined |
| Records.FieldlessHitReadsUndefined | cmds/dumpindextoexcel.js:231-233 | the record of a hit without fields reads `undefined` for every field |
| Records.ProjectedFieldReadsHitValue | cmds/dumpindextoexcel.js:223-227 | the record of a hit with fields reads, under each report field, the hit's value for that field |
| Sheets.Sheet.constructor | cmds/dumpindextoexcel.js:309 | a new sheet has no cells and no declared range |
| Sheets.Workbook.constructor | cmds/dumpindextoexcel.js:286-290 | a new workbook has no sheet names and no sheets, so names and sheets agree |
| Sheets.Workbook.CellID | cmds/dumpindextoexcel.js:298-300 | a data cell address is never in row 0, the header row |
| Sheets.Workbook.AddSheet | cmds/dumpindextoexcel.js:307-314 | the name is appended to `SheetNames`, `Sheets` maps it to the returned fresh empty sheet, all earlier names and sheets are unchanged, and names and sheets stay in agreement |
| Sheets.CellIDInjective | cmds/dumpindextoexcel.js:298-300 | two different (column, data row) pairs never get the same cell |
| Sheets.CellIDCoversDataRows | cmds/dumpindextoexcel.js:298-300 | every cell below the header row is the cell of one (column, data row) pair |
| Export.WriteHeaderRow | cmds/dumpindextoexcel.js:127-134 | row 0 holds field i as a string cell in column i, and nothing else is written |
| Export.WriteItemRow | cmds/dumpindextoexcel.js:140-145 | the item's value for field i goes, as a string cell, into column i of the next row, and no earlier cell changes |
| Export.WriteItemRows | cmds/dumpindextoexcel.js:137-146 | below a header row, the cell of (i, j) holds item j's value for field i for every item and field, the header row keeps its cells, and no cell outside the rectangle exists |
| Export.OutputExcel | cmds/dumpindextoexcel.js:114-169 | one sheet named `indexitems`, with names and sheets in agreement; (i, 0) holds field i; the cell of (i, j) holds item j's value for field i; no other cell exists, also for zero items; the range is (0,0)–(field count, item count + 1), which covers every cell and is one column and one row past the last; the result is the writer's failure, or the file written under the given name |
| Fetch.SearchRequest | cmds/dumpindextoexcel.js:199-207 | the search names the index, the report fields and the lease `1s`, and carries the query `host:` followed by the filter unchanged exactly when the filter is a non-empty string |
| Fetch.ProcessPage | cmds/dumpindextoexcel.js:220-235 | a page grows the records by exactly one record per hit, in page order, after the records already there |
| Fetch.DriveOutcome | cmds/dumpindextoexcel.js:210-246 | the fetch waits for a further reply only after every reply was a page; otherwise it ends at a reply it read: aborted at an error reply, delivered at a page whose total equals the record count; a delivered or stalled fetch ends with the records already collected as a prefix of its records |
| Fetch.FetchResults | cmds/dumpindextoexcel.js:182-248 | the loop ends as the fetch specification `Drive` says; the first request is the search, and each later request is a scroll carrying the cursor token of the page just read |
| Fetch.CollectedLength | cmds/dumpindextoexcel.js:220-235 | a run of pages yields exactly as many records as it has hits: none dropped, none duplicated |
| Fetch.DeliversWhenCountMatches | cmds/dumpindextoexcel.js:238-245 | when the record count first equals a page's reported total, the fetch delivers exactly the records of the pages read so far |
| Fetch.DeliversOnlyWhenCountMatches | cmds/dumpindextoexcel.js:238-245 | a delivery happens only then: every reply read is a page, the count equals the last page's total, it equalled no earlier page's total, and the records are those pages' hits in order |
| Fetch.AbortsAtFirstError | cmds/dumpindextoexcel.js:214-217 | an aborted fetch stopped at an error reply, after pages only, none of which brought the record count to its total |
| Fetch.FirstErrorAborts | cmds/dumpindextoexcel.js:214-217 | conversely, an error reply after pages none of which brought the record count to its total aborts the fetch there, with that error |
| Fetch.EmptyIndexDeliversNothing | cmds/dumpindextoexcel.js:238-245 | an empty first page with total 0 ends the fetch at once with no records |
| Fetch.OvershotTotalNeverDelivers | cmds/dumpindextoexcel.js:238-242 | once the records outnumber every reported total, the fetch never delivers |
| FileName.ExtName | cmds/dumpindextoexcel.js:264 | the extension is empty or starts with its only dot and contains no separator |
| FileName.ExtNameOfBasename | cmds/dumpindextoexcel.js:264 | a non-empty extension is a tail of the last path segment; there is none exactly when that segment has no dot after its first character or is `..` |
| FileName.XlsxInAnyCase | cmds/dumpindextoexcel.js:267 | the extensions accepted are exactly `.xlsx` with each of its four letters in either case |
| FileName.ValidateAndCleanFileName | cmds/dumpindextoexcel.js:264-274 | rejected, with code 5 and the extension, exactly when there is an extension other than `.xlsx` in any letter case; `.xlsx` appended exactly when there is no extension; the path kept exactly when the extension is `.xlsx` in some letter case |
| FileName.AppendedExtension | cmds/dumpindextoexcel.js:270-272 | appending `.xlsx` to a path whose last segment is not empty gives it the extension `.xlsx` |
| FileName.CleanedNameHasXlsxExtension | cmds/dumpindextoexcel.js:264-274 | every accepted name has an `.xlsx` extension in some letter case |
| Command.CommandAction | cmds/dumpindextoexcel.js:52-103 | a rejected name exits with 5 before any request; otherwise the search is the first request, a fetch error exits with 10, a fetch that never completes never exits, and a delivered fetch builds the one-sheet workbook whose header row, data cells and range are those of the delivered records, writes it to the cleaned path, and exits with 20 on a write failure and 0 otherwise |

## Left out

- Registering the command with commander, the option parser for `--reportfields` (which calls `String.split(val)`), help text and verbose `console.log` output: command-line plumbing and I/O.
- Building the Elasticsearch client from server and port, and the network calls themselves: replaced by the sequence of replies.
- The asynchronous callback structure: modelled as one sequential loop.
- `path.normalize` and `path.resolve`: Node library code; the name rule starts from their result.
- `XLSX.writeFile` and the file's binary format: foreign library code; its success or failure is a parameter.
- FileName.ToLower: lower-cases ASCII letters only, where JavaScript's `toLowerCase` also maps other letters; the comparison with `.xlsx` only depends on characters that lower-case to `.`, `x`, `l` or `s`.
- FileName.CleanedNameHasXlsxExtension: requires a path that does not end in a separator, because the root `/` becomes `/.xlsx`, a name whose only dot is its first character, which `path.extname` reads as having no extension.
- Export.OutputExcel: the sheet's `!ref` is a field of its own rather than a key of the same object as the cells.
- Records.ProjectHit: property names that JavaScript objects inherit (such as `constructor`) are not modelled; a record without a field reads `undefined` for it.
- The hit total as an object (newer Elasticsearch versions) is not modelled: the total is a number.
