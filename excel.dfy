/**
 * The spreadsheet export of block_timestat_print_log_xls: each log row becomes one
 * spreadsheet row holding the user's full name and the formatted time spent, written
 * from the first data row down and, when there is more than one sheet, continued on
 * the next sheet once the last row of a sheet is passed. The workbook itself, sheet
 * titles, headers and date stamps are not modelled; the platform's first data row
 * and last row are parameters.
 */
module ExcelSheets {
  import opened Duration

  /** The fields of a log row the export writes. */
  datatype ExportRow = ExportRow(firstName: string, lastName: string, timeSpent: int)

  /** One written spreadsheet row: sheet number (from 1), row index, and the two cells. */
  datatype Cell = Cell(sheet: int, row: int, fullName: string, duration: string)

  /** The platform's row limits: the first row holding data and the last row a sheet may use. */
  datatype Layout = Layout(firstRow: int, lastRow: int)

  /** The platform's values: data from row 3 (headers on row 2), rows up to 65535. */
  const PlatformLayout := Layout(3, 65535)

  predicate ValidLayout(l: Layout) {
    1 <= l.firstRow <= l.lastRow
  }

  /** The number of data rows a sheet holds. */
  function Capacity(l: Layout): (c: int)
    requires ValidLayout(l)
    ensures c >= 1
  {
    l.lastRow - l.firstRow + 1
  }

  /** PHP's ceil of a non-negative quotient. */
  function CeilDiv(n: nat, d: int): nat
    requires d > 0
  {
    (n + d - 1) / d
  }

  /**
   * Where the k-th log row (from 0) is written when the workbook has `pages` sheets:
   * with several sheets, each sheet holds Capacity rows; with one, rows just go on.
   */
  function Position(k: nat, pages: int, l: Layout): (int, int)
    requires ValidLayout(l)
  {
    if pages > 1 then (1 + k / Capacity(l), l.firstRow + k % Capacity(l)) else (1, l.firstRow + k)
  }

  /** The cell written for one log row: the user's full name and the formatted time spent. */
  function RowCell(log: ExportRow, sheet: int, row: int, u: Units): Cell {
    Cell(sheet, row, log.firstName + " " + log.lastName, SecondsToStringTime(log.timeSpent, u))
  }

  function CellAt(logs: seq<ExportRow>, k: nat, pages: int, l: Layout, u: Units): Cell
    requires ValidLayout(l) && k < |logs|
  {
    RowCell(logs[k], Position(k, pages, l).0, Position(k, pages, l).1, u)
  }

  /** The row loop: a sheet change happens when there are several sheets and the row has passed the last one. */
  method PlaceRows(logs: seq<ExportRow>, pages: int, l: Layout, u: Units) returns (cells: seq<Cell>)
    requires ValidLayout(l)
    ensures |cells| == |logs|
    ensures forall k :: 0 <= k < |logs| ==> cells[k] == CellAt(logs, k, pages, l, u)
  {
    var row := l.firstRow;
    var sheet := 1;
    cells := [];
    var k := 0;
    while k < |logs|
      invariant 0 <= k <= |logs| && |cells| == k
      invariant Placed(cells, logs, pages, l, u)
      invariant pages > 1 ==> && sheet >= 1 && l.firstRow <= row <= l.lastRow + 1
                              && k == (sheet - 1) * Capacity(l) + (row - l.firstRow)
      invariant pages <= 1 ==> sheet == 1 && row == l.firstRow + k
    {
      if pages > 1 && row > l.lastRow {
        NextSheet(k, sheet, l);
        sheet := sheet + 1;
        row := l.firstRow;
      }
      if pages > 1 {
        PositionOnSheet(k, sheet, row, pages, l);
      }
      assert Position(k, pages, l) == (sheet, row);
      PlacedSnoc(cells, logs, pages, l, u);
      cells := cells + [RowCell(logs[k], sheet, row, u)];
      row := row + 1;
      k := k + 1;
    }
  }

  /** The cells written so far are those of the first log rows, in order. */
  ghost predicate Placed(cells: seq<Cell>, logs: seq<ExportRow>, pages: int, l: Layout, u: Units)
    requires ValidLayout(l)
  {
    |cells| <= |logs| && forall j :: 0 <= j < |cells| ==> cells[j] == CellAt(logs, j, pages, l, u)
  }

  lemma PlacedSnoc(cells: seq<Cell>, logs: seq<ExportRow>, pages: int, l: Layout, u: Units)
    requires ValidLayout(l) && Placed(cells, logs, pages, l, u) && |cells| < |logs|
    ensures Placed(cells + [CellAt(logs, |cells|, pages, l, u)], logs, pages, l, u)
  {
    var next := cells + [CellAt(logs, |cells|, pages, l, u)];
    forall j | 0 <= j < |next| ensures next[j] == CellAt(logs, j, pages, l, u) {
      if j < |cells| {
        assert next[j] == cells[j];
      }
    }
  }

  /** Past the last row of sheet `sheet`, the count of rows written is `sheet` full sheets. */
  lemma NextSheet(k: int, sheet: int, l: Layout)
    requires ValidLayout(l)
    requires k == (sheet - 1) * Capacity(l) + (l.lastRow + 1 - l.firstRow)
    ensures k == sheet * Capacity(l) + 0
  {
    assert sheet * Capacity(l) == (sheet - 1) * Capacity(l) + Capacity(l);
  }

  /** A row counted as (sheet, row) by the loop is at the place Position computes. */
  lemma PositionOnSheet(k: nat, sheet: int, row: int, pages: int, l: Layout)
    requires ValidLayout(l) && pages > 1 && sheet >= 1 && l.firstRow <= row <= l.lastRow
    requires k == (sheet - 1) * Capacity(l) + (row - l.firstRow)
    ensures Position(k, pages, l) == (sheet, row)
  {
    BaseDigitUnique(k / Capacity(l), sheet - 1, k % Capacity(l), row - l.firstRow, Capacity(l));
  }

  // ---------------------------------------------------------------------------
  // The number of sheets

  /**
   * The sheet count as written: the ceiling of the size of the result array over a
   * sheet's capacity. The result array has two keys (the rows and their count), so
   * this does not depend on the number of rows.
   */
  function SheetCountAsWritten(l: Layout): nat
    requires ValidLayout(l)
  {
    CeilDiv(2, Capacity(l))
  }

  /** The evidently intended sheet count: enough sheets for all the rows. */
  function SheetCount(rows: nat, l: Layout): nat
    requires ValidLayout(l)
  {
    CeilDiv(rows, Capacity(l))
  }

  /**
   * As written, any sheet holding two rows or more makes one sheet, so the row loop
   * never changes sheet and the row after a full sheet lands past the last row.
   */
  lemma AsWrittenOverflow(l: Layout)
    requires ValidLayout(l) && Capacity(l) >= 2
    ensures SheetCountAsWritten(l) == 1
    ensures Position(Capacity(l), SheetCountAsWritten(l), l) == (1, l.lastRow + 1)
  {
  }

  /** With the platform's limits, the 65534th row of a report is written to row 65536 of sheet 1. */
  lemma AsWrittenPlatformOverflow()
    ensures SheetCountAsWritten(PlatformLayout) == 1
    ensures Position(65533, SheetCountAsWritten(PlatformLayout), PlatformLayout) == (1, 65536)
    ensures 65536 > PlatformLayout.lastRow
  {
    AsWrittenOverflow(PlatformLayout);
  }

  lemma DivAtLeast(x: int, d: int, m: int)
    requires d > 0 && x >= m * d
    ensures x / d >= m
  {
    if x / d < m {
      assert (m - x / d) * d == m * d - (x / d) * d;
      MultipleAtLeastBase(m - x / d, d);
    }
  }

  /**
   * With the intended sheet count every row fits: it goes to an existing sheet, between
   * the first data row and the last row.
   */
  lemma SheetCountFits(rows: nat, l: Layout, k: nat)
    requires ValidLayout(l) && k < rows
    ensures var (sheet, row) := Position(k, SheetCount(rows, l), l);
      1 <= sheet <= SheetCount(rows, l) && l.firstRow <= row <= l.lastRow
  {
    var c := Capacity(l);
    var pages := SheetCount(rows, l);
    DivAtLeast(rows + c - 1, c, 1);
    if pages > 1 {
      var q := k / c;
      assert (q + 1) * c == q * c + c;
      DivAtLeast(rows + c - 1, c, q + 1);
    } else {
      var x := rows + c - 1;
      assert x == (x / c) * c + x % c;
      assert x / c == 1;
    }
  }

  /** Distinct rows of the report are written to distinct places. */
  lemma PositionInjective(j: nat, k: nat, pages: int, l: Layout)
    requires ValidLayout(l) && j != k
    ensures Position(j, pages, l) != Position(k, pages, l)
  {
    var c := Capacity(l);
    if pages > 1 && j / c == k / c {
      assert j == (j / c) * c + j % c;
      assert k == (k / c) * c + k % c;
      assert j % c != k % c;
    }
  }

  /** One full sheet fits on one sheet; two full sheets and one more row need three, the extra row heading the third. */
  lemma SheetCountExample(l: Layout)
    requires ValidLayout(l)
    ensures SheetCount(Capacity(l), l) == 1
    ensures SheetCount(2 * Capacity(l) + 1, l) == 3
    ensures Position(2 * Capacity(l), 3, l) == (3, l.firstRow)
  {
    var c := Capacity(l);
    assert c + c - 1 == 1 * c + (c - 1);
    BaseDigitUnique((c + c - 1) / c, 1, (c + c - 1) % c, c - 1, c);
    assert 2 * c + 1 + c - 1 == 3 * c + 0;
    BaseDigitUnique((3 * c) / c, 3, (3 * c) % c, 0, c);
    BaseDigitUnique((2 * c) / c, 2, (2 * c) % c, 0, c);
  }

  /**
   * The export with the intended sheet count: all rows are written, each with its
   * user's name and formatted time, in order, to distinct places inside the sheets.
   */
  method PrintLogXls(logs: seq<ExportRow>, l: Layout, u: Units) returns (pages: nat, cells: seq<Cell>)
    requires ValidLayout(l)
    ensures pages == SheetCount(|logs|, l)
    ensures |cells| == |logs|
    ensures forall k :: 0 <= k < |logs| ==> cells[k] == CellAt(logs, k, pages, l, u)
  {
    pages := SheetCount(|logs|, l);
    cells := PlaceRows(logs, pages, l, u);
  }
}
