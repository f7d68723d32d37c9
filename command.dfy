/**
 * The command action that chains the three steps (cmds/dumpindextoexcel.js,
 * `internals.commandAction`): check the output name, fetch, write the workbook.
 * Process exits become the returned status; console output is not modelled.
 */
module Command {

  import opened Wrappers
  import opened Records
  import opened Sheets
  import opened Export
  import opened Fetch
  import opened FileName

  /** How the process ends: with an exit code, or never, when the fetch waits for a reply that does not come. */
  datatype ExitStatus = Exited(code: int) | Hangs

  const FetchFailedCode: int := 10
  const WriteFailedCode: int := 20
  const SuccessCode: int := 0

  /**
   * Runs one export. `resolvedOutput` is the output path after `path.normalize`
   * and `path.resolve`; `replies` stands for the backend and `writeError` for
   * the spreadsheet writer. A rejected name stops the run before any request;
   * a backend error exits with 10, a failed write with 20, success with 0.
   * On delivery, `workbook` and `sheet` are what was handed to the writer, and
   * `written` is the file the writer wrote, if it did.
   */
  method CommandAction(indexName: string, resolvedOutput: string, reportFields: seq<string>,
                       hostFilter: Option<string>, replies: seq<Reply>, writeError: Option<string>)
    returns (status: ExitStatus, requests: seq<Request>, workbook: Workbook?, sheet: Sheet?, written: Option<string>)
    ensures ValidateAndCleanFileName(resolvedOutput).Rejected? ==>
      status == Exited(BadExtensionCode) && requests == [] && workbook == null && sheet == null && written == None
    ensures ValidateAndCleanFileName(resolvedOutput).Cleaned? ==>
      |requests| >= 1 && requests[0] == SearchRequest(FetchParams(indexName, reportFields, hostFilter))
    ensures ValidateAndCleanFileName(resolvedOutput).Cleaned? ==>
      match Drive(reportFields, replies, 0, [])
      case Aborted(_, _) => status == Exited(FetchFailedCode) && workbook == null && sheet == null && written == None
      case Stalled(_, _) => status == Hangs && workbook == null && sheet == null && written == None
      case Delivered(items, _) =>
        && workbook != null && sheet != null
        && workbook.SheetNames == [SheetName] && workbook.Sheets == map[SheetName := sheet]
        && HoldsGrid(workbook, sheet, reportFields, items)
        && sheet.range == Some(Range(Addr(0, 0), Addr(|reportFields|, |items| + 1)))
        && written == (if writeError.Some? then None else Some(ValidateAndCleanFileName(resolvedOutput).path))
        && status == Exited(if writeError.Some? then WriteFailedCode else SuccessCode)
  {
    requests := [];
    workbook := null;
    sheet := null;
    written := None;
    var cleaned := ValidateAndCleanFileName(resolvedOutput);
    if cleaned.Rejected? {
      status := Exited(cleaned.code);
      return;
    }
    var outcome;
    outcome, requests := FetchResults(FetchParams(indexName, reportFields, hostFilter), replies);
    match outcome
    case Aborted(_, _) =>
      status := Exited(FetchFailedCode);
    case Stalled(_, _) =>
      status := Hangs;
    case Delivered(items, _) =>
      var completion;
      workbook, sheet, completion := OutputExcel(cleaned.path, reportFields, items, writeError);
      match completion
      case WriteFailed(_) =>
        status := Exited(WriteFailedCode);
      case Written(path) =>
        written := Some(path);
        status := Exited(SuccessCode);
  }

}
