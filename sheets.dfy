/**
 * The workbook wrapper around the spreadsheet library's structures
 * (cmds/dumpindextoexcel.js, `internals.Workbook`, `getCellID`, `addSheet`).
 *
 * The library's `encode_cell` turns a zero-based (column, row) pair into an A1
 * address and `encode_range` turns two pairs into a range; both are injective,
 * so a cell address is modelled as the pair itself.
 */
module Sheets {

  import opened Wrappers
  import opened Records

  /** A zero-based cell address, what `encode_cell({c: col, r: row})` encodes. */
  datatype Addr = Addr(col: nat, row: nat)

  /** A declared range `!ref`, from its first cell to its last cell, both included. */
  datatype Range = Range(first: Addr, last: Addr)

  predicate InRange(a: Addr, r: Range)
  {
    r.first.col <= a.col <= r.last.col && r.first.row <= a.row <= r.last.row
  }

  /** The only cell type tag the exporter writes: 's', a string cell. */
  const StringType: char := 's'

  /** A cell object `{v: value, t: type}`. */
  datatype Cell = Cell(value: Value, kind: char)

  /** A worksheet: the cells written so far, keyed by address, and the declared range. */
  class Sheet {
    var cells: map<Addr, Cell>
    var range: Option<Range>

    constructor ()
      ensures cells == map[] && range == None
    {
      cells := map[];
      range := None;
    }
  }

  class Workbook {
    var SheetNames: seq<string>
    var Sheets: map<string, Sheet>

    /** A new workbook has no sheets. */
    constructor ()
      ensures SheetNames == [] && Sheets == map[]
      ensures Consistent()
    {
      SheetNames := [];
      Sheets := map[];
    }

    /** Every listed sheet name has a sheet, and every sheet is listed. */
    ghost predicate Consistent()
      reads this
    {
      Sheets.Keys == set n | n in SheetNames
    }

    /**
     * The address of the cell for data row `row` (zero-based) and column `col`:
     * one row below, since row 0 of the sheet is the header row.
     */
    function CellID(col: nat, row: nat): (a: Addr)
      ensures a.row != 0
    {
      Addr(col, row + 1)
    }

    /** Appends a new empty sheet under `name` and returns it. */
    method AddSheet(name: string) returns (sheet: Sheet)
      modifies this
      ensures fresh(sheet) && sheet.cells == map[] && sheet.range == None
      ensures SheetNames == old(SheetNames) + [name]
      ensures Sheets == old(Sheets)[name := sheet]
      ensures old(Consistent()) ==> Consistent()
    {
      sheet := new Sheet();
      SheetNames := SheetNames + [name];
      Sheets := Sheets[name := sheet];
    }
  }

  /** Two different (column, data row) pairs never share a cell. */
  lemma CellIDInjective(wb: Workbook, c1: nat, r1: nat, c2: nat, r2: nat)
    requires wb.CellID(c1, r1) == wb.CellID(c2, r2)
    ensures c1 == c2 && r1 == r2
  {
  }

  /** Every cell below the header row is the cell of exactly one (column, data row) pair. */
  lemma CellIDCoversDataRows(wb: Workbook, a: Addr)
    requires a.row != 0
    ensures wb.CellID(a.col, a.row - 1) == a
  {
  }

}
