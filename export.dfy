/**
 * Writing the fetched records into a one-sheet workbook
 * (cmds/dumpindextoexcel.js, `internals.outputExcel`).
 */
module Export {

  import opened Wrappers
  import opened Records
  import opened Sheets

  /** The name of the single sheet of the exported workbook. */
  const SheetName: string := "indexitems"

  /** How `outputExcel` reports back: the file written, or the exception the writer threw. */
  datatype Completion = Written(path: string) | WriteFailed(error: string)

  /** The header cell of a column: the field name as a string cell. */
  function HeaderCell(field: string): Cell
  {
    Cell(Str(field), StringType)
  }

  /** The data cell of a record under a field: the record's value for it, as a string cell. */
  function DataCell(item: Record, field: string): Cell
  {
    Cell(Lookup(item, field), StringType)
  }

  /**
   * The cells of `sheet` are the grid of `items` under `reportFields`: field i
   * in cell (i, 0), item j's value for field i in the cell of (i, j), and no
   * other cell.
   */
  ghost predicate HoldsGrid(workbook: Workbook, sheet: Sheet, reportFields: seq<string>, items: seq<Record>)
    reads sheet
  {
    && (forall i :: 0 <= i < |reportFields| ==>
          Addr(i, 0) in sheet.cells && sheet.cells[Addr(i, 0)] == HeaderCell(reportFields[i]))
    && (forall j, i :: 0 <= j < |items| && 0 <= i < |reportFields| ==>
          workbook.CellID(i, j) in sheet.cells && sheet.cells[workbook.CellID(i, j)] == DataCell(items[j], reportFields[i]))
    && (forall a :: a in sheet.cells ==> a.col < |reportFields| && a.row <= |items|)
  }

  /**
   * Builds the workbook for `items` under `reportFields` and hands it to the
   * writer with the name `outputFile`. `writeError` stands for what
   * `XLSX.writeFile` does: `None` when it returns, `Some(e)` when it throws `e`.
   *
   * Row 0 holds the field names, data row j sits at sheet row j + 1, the cell
   * set is exactly the rectangle of header and data cells, and the declared range
   * runs from (0, 0) to (field count, item count + 1), one column and one row
   * past the last written cell.
   */
  method OutputExcel(outputFile: string, reportFields: seq<string>, items: seq<Record>, writeError: Option<string>)
    returns (workbook: Workbook, sheet: Sheet, completion: Completion)
    ensures fresh(workbook) && fresh(sheet)
    ensures workbook.SheetNames == [SheetName] && workbook.Sheets == map[SheetName := sheet]
    ensures workbook.Consistent()
    ensures HoldsGrid(workbook, sheet, reportFields, items)
    ensures sheet.range == Some(Range(Addr(0, 0), Addr(|reportFields|, |items| + 1)))
    ensures forall a :: a in sheet.cells ==> InRange(a, sheet.range.value)
    ensures forall a :: a in sheet.cells ==> a.col < sheet.range.value.last.col && a.row < sheet.range.value.last.row
    ensures completion == if writeError.Some? then WriteFailed(writeError.value) else Written(outputFile)
  {
    workbook := new Workbook();
    sheet := workbook.AddSheet(SheetName);

    WriteHeaderRow(sheet, reportFields);
    WriteItemRows(workbook, sheet, reportFields, items);

    sheet.range := Some(Range(Addr(0, 0), Addr(|reportFields|, |items| + 1)));

    match writeError
    case Some(e) => completion := WriteFailed(e);
    case None => completion := Written(outputFile);
  }

  /** The header loop: writes the field names into row 0 of an empty sheet. */
  method WriteHeaderRow(sheet: Sheet, reportFields: seq<string>)
    requires sheet.cells == map[]
    modifies sheet
    ensures sheet.range == old(sheet.range)
    ensures forall a :: a in sheet.cells <==> a.row == 0 && a.col < |reportFields|
    ensures forall i :: 0 <= i < |reportFields| ==> sheet.cells[Addr(i, 0)] == HeaderCell(reportFields[i])
  {
    var headCol := 0;
    while headCol < |reportFields|
      invariant 0 <= headCol <= |reportFields|
      invariant sheet.range == old(sheet.range)
      invariant forall a :: a in sheet.cells <==> a.row == 0 && a.col < headCol
      invariant forall i :: 0 <= i < headCol ==> sheet.cells[Addr(i, 0)] == HeaderCell(reportFields[i])
    {
      sheet.cells := sheet.cells[Addr(headCol, 0) := HeaderCell(reportFields[headCol])];
      headCol := headCol + 1;
    }
  }

  /** The outer loop: writes the data rows below a header row, one per item, in order. */
  method WriteItemRows(workbook: Workbook, sheet: Sheet, reportFields: seq<string>, items: seq<Record>)
    requires forall a :: a in sheet.cells <==> a.row == 0 && a.col < |reportFields|
    modifies sheet
    ensures sheet.range == old(sheet.range)
    ensures forall a :: a in sheet.cells <==> a.col < |reportFields| && a.row <= |items|
    ensures forall i :: 0 <= i < |reportFields| ==> sheet.cells[Addr(i, 0)] == old(sheet.cells)[Addr(i, 0)]
    ensures forall j, i :: 0 <= j < |items| && 0 <= i < |reportFields| ==>
      sheet.cells[workbook.CellID(i, j)] == DataCell(items[j], reportFields[i])
  {
    var itemIdx := 0;
    while itemIdx < |items|
      invariant 0 <= itemIdx <= |items|
      invariant sheet.range == old(sheet.range)
      invariant forall a :: a in sheet.cells <==> a.col < |reportFields| && a.row <= itemIdx
      invariant forall i :: 0 <= i < |reportFields| ==> sheet.cells[Addr(i, 0)] == old(sheet.cells)[Addr(i, 0)]
      invariant forall j, i :: 0 <= j < itemIdx && 0 <= i < |reportFields| ==>
        sheet.cells[workbook.CellID(i, j)] == DataCell(items[j], reportFields[i])
    {
      WriteItemRow(workbook, sheet, reportFields, items[itemIdx], itemIdx);
      itemIdx := itemIdx + 1;
    }
  }

  /** The inner loop for data row `itemIdx`: writes `item`'s value for every field
      into the row below the rows already written, and changes no other cell. */
  method WriteItemRow(workbook: Workbook, sheet: Sheet, reportFields: seq<string>, item: Record, itemIdx: nat)
    requires forall a :: a in sheet.cells <==> a.col < |reportFields| && a.row <= itemIdx
    modifies sheet
    ensures sheet.range == old(sheet.range)
    ensures forall a :: a in sheet.cells <==> a.col < |reportFields| && a.row <= itemIdx + 1
    ensures forall a :: a in old(sheet.cells) ==> sheet.cells[a] == old(sheet.cells)[a]
    ensures forall i :: 0 <= i < |reportFields| ==> sheet.cells[workbook.CellID(i, itemIdx)] == DataCell(item, reportFields[i])
  {
    var fieldCol := 0;
    while fieldCol < |reportFields|
      invariant 0 <= fieldCol <= |reportFields|
      invariant sheet.range == old(sheet.range)
      invariant forall a :: a in sheet.cells <==>
        a.col < |reportFields| && (a.row <= itemIdx || (a.row == itemIdx + 1 && a.col < fieldCol))
      invariant forall a :: a in old(sheet.cells) ==> sheet.cells[a] == old(sheet.cells)[a]
      invariant forall i :: 0 <= i < fieldCol ==> sheet.cells[workbook.CellID(i, itemIdx)] == DataCell(item, reportFields[i])
    {
      sheet.cells := sheet.cells[workbook.CellID(fieldCol, itemIdx) := DataCell(item, reportFields[fieldCol])];
      fieldCol := fieldCol + 1;
    }
  }

}
