/** An in-memory model of one worksheet of the spreadsheet.

    A worksheet is a sequence of columns; column `c` (1-based, as the
    spreadsheet numbers them) is element `c - 1`, and each column holds its
    cells' texts from row 1 downwards. The functions below stand for the
    worksheet calls the program makes (reading a column or a row, writing one
    cell, clearing, inserting a row at the top). */
module Sheets {

  type Column = seq<string>
  type Grid = seq<Column>

  function Max(a: int, b: int): int
  {
    if a < b then b else a
  }

  /** The cells of column `c`, top to bottom; a column past the right edge of
      the grid, or one numbered below 1, has none. */
  function ColValues(g: Grid, c: int): Column
  {
    if 1 <= c <= |g| then g[c - 1] else []
  }

  /** The text of the cell at 1-based row `r` of column `c`, or "" if there is none. */
  function Cell(g: Grid, r: int, c: int): string
  {
    var col := ColValues(g, c);
    if 1 <= r <= |col| then col[r - 1] else ""
  }

  /** Row `r` read across every column of the grid. */
  function RowValues(g: Grid, r: int): seq<string>
  {
    seq(|g|, i requires 0 <= i < |g| => Cell(g, r, i + 1))
  }

  /** Reading a row and reading a column see the same cell where they cross. */
  lemma RowCrossesColumn(g: Grid, r: int, c: int)
    requires 1 <= c <= |g| && 1 <= r <= |ColValues(g, c)|
    ensures |RowValues(g, r)| == |g|
    ensures RowValues(g, r)[c - 1] == ColValues(g, c)[r - 1]
  {
  }

  /** Column `col` with the cell at 1-based `row` set to `v`; rows between the
      old bottom of the column and `row` become blank. */
  function Put(col: Column, row: int, v: string): (r: Column)
    requires row >= 1
    ensures |r| == Max(|col|, row)
    ensures r[row - 1] == v
    ensures forall i :: 0 <= i < |r| && i != row - 1 ==> r[i] == if i < |col| then col[i] else ""
  {
    if row <= |col| then col[row - 1 := v]
    else col + seq(row - 1 - |col|, _ => "") + [v]
  }

  /** Writing one cell: only column `c` changes, and within it only row `row`
      (plus the blank cells needed to reach it). */
  function UpdateCell(g: Grid, row: int, c: int, v: string): (r: Grid)
    requires row >= 1 && c >= 1
    ensures ColValues(r, c) == Put(ColValues(g, c), row, v)
    ensures forall c' :: c' != c ==> ColValues(r, c') == ColValues(g, c')
    ensures |r| == Max(|g|, c)
  {
    var wide := if c <= |g| then g else g + seq(c - |g|, _ => []);
    wide[c - 1 := Put(ColValues(g, c), row, v)]
  }

  /** Writing `v` at the first free row of column `c`, the row below its last
      cell: the column grows by exactly that cell and no other column changes. */
  function AppendAt(g: Grid, c: int, v: string): (r: Grid)
    requires c >= 1
    ensures ColValues(r, c) == ColValues(g, c) + [v]
    ensures forall c' :: c' != c ==> ColValues(r, c') == ColValues(g, c')
    ensures |r| == Max(|g|, c)
  {
    UpdateCell(g, |ColValues(g, c)| + 1, c, v)
  }

  /** Clearing the worksheet removes every cell. */
  function Clear(g: Grid): (r: Grid)
    ensures forall c :: ColValues(r, c) == []
  {
    []
  }

  /** Inserting `values` as a new row 1: every column moves down one row, and
      columns past the end of `values` receive a blank top cell. */
  function InsertTopRow(g: Grid, values: seq<string>): (r: Grid)
    ensures forall c :: 1 <= c <= |values| ==> Cell(r, 1, c) == values[c - 1]
    ensures forall c :: |values| < c <= |g| ==> Cell(r, 1, c) == ""
    ensures forall row, c :: row >= 1 ==> Cell(r, row + 1, c) == Cell(g, row, c)
  {
    var w := Max(|g|, |values|);
    var r := seq(w, i requires 0 <= i < w => [if i < |values| then values[i] else ""] + ColValues(g, i + 1));
    TopRowCells(g, values, r);
    r
  }

  lemma TopRowCells(g: Grid, values: seq<string>, r: Grid)
    requires |r| == Max(|g|, |values|)
    requires forall i :: 0 <= i < |r| ==> r[i] == [if i < |values| then values[i] else ""] + ColValues(g, i + 1)
    ensures forall c :: 1 <= c <= |values| ==> Cell(r, 1, c) == values[c - 1]
    ensures forall c :: |values| < c <= |g| ==> Cell(r, 1, c) == ""
    ensures forall row, c :: row >= 1 ==> Cell(r, row + 1, c) == Cell(g, row, c)
  {
    forall row, c | row >= 1 ensures Cell(r, row + 1, c) == Cell(g, row, c) {
      if 1 <= c <= |r| {
        assert ColValues(r, c) == [if c - 1 < |values| then values[c - 1] else ""] + ColValues(g, c);
      }
    }
  }
}
