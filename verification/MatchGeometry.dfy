/** Where a match's cells are on a terminal of a given width. */
module MatchGeometry {
  import opened Basics
  import opened Arithmetic
  import opened TerminalFind

  datatype Point = Point(x: int, y: int)

  datatype Range = Range(start: Point, end: Point)

  /** A match on a terminal `cols` wide: it starts within a row, and holds at
      least one cell. */
  predicate OnScreen(found: Match, cols: nat) {
    found.col < cols && found.length > 0
  }

  /** A quotient rounded up. */
  function Ceiling(a: int, d: int): int
    requires d > 0
  {
    (a + d - 1) / d
  }

  /** How many cells lie between the start of a match's row and another row. */
  function Offset(found: Match, cols: nat, row: int): int {
    (row - found.row) * cols
  }

  /** The match holds the cell at this row and column. */
  predicate Holds(found: Match, cols: nat, row: int, col: int) {
    0 <= col < cols && found.col <= Offset(found, cols, row) + col < found.col + found.length
  }

  function LastRow(found: Match, cols: nat): int
    requires cols > 0
  {
    found.row + Ceiling(found.col + found.length, cols) - 1
  }

  /** Where the terminal's selection ends when it selects a match: on the right
      edge it keeps that row's last column. */
  function SelectionEnd(found: Match, cols: nat): Point
    requires cols > 0
  {
    var end := found.col + found.length;
    if end <= cols then Point(end, found.row)
    else if end % cols == 0 then Point(cols, found.row + end / cols - 1)
    else Point(end % cols, found.row + end / cols)
  }

  predicate SelectionCovers(range: Option<Range>, found: Match, cols: nat)
    requires cols > 0
  {
    range.Some? && range.value.start == Point(found.col, found.row) && range.value.end == SelectionEnd(found, cols)
  }

  /** The last cell: its row, and the column after it. */
  ghost predicate EndsAt(found: Match, cols: nat, row: int, after: int) {
    found.row <= row && 0 < after <= cols && Offset(found, cols, row) + after == found.col + found.length
  }

  /** Rounding up finds the row of the last cell. */
  lemma LastRowIs(found: Match, cols: nat, row: int, after: int)
    requires OnScreen(found, cols) && EndsAt(found, cols, row, after)
    ensures LastRow(found, cols) == row
  {
    DivUnique(found.col + found.length + cols - 1, cols, row - found.row + 1, after - 1) by {
      MulSum(row - found.row, 1, cols);
    }
  }

  /** A match has a last cell. */
  lemma LastCell(found: Match, cols: nat) returns (row: int, after: int)
    requires OnScreen(found, cols)
    ensures EndsAt(found, cols, row, after)
  {
    var last := found.col + found.length - 1;
    DivMod(last, cols);
    row, after := found.row + last / cols, last % cols + 1;
    if last / cols < 0 {
      MulMono(last / cols, -1, cols);
    }
  }

  lemma SelectionEndIs(found: Match, cols: nat, row: int, after: int)
    requires OnScreen(found, cols) && EndsAt(found, cols, row, after)
    ensures SelectionEnd(found, cols) == Point(after, row)
  {
    var end := found.col + found.length;
    if row == found.row {
    } else {
      MulMono(1, row - found.row, cols);
      if after == cols {
        DivUnique(end, cols, row - found.row + 1, 0) by {
          MulSum(row - found.row, 1, cols);
        }
      } else {
        DivUnique(end, cols, row - found.row, after);
      }
    }
  }

  /** The match's selection is this range and no other. */
  ghost predicate SelectionIs(found: Match, cols: nat, range: Range)
    requires cols > 0
  {
    forall other :: SelectionCovers(other, found, cols) <==> other == Some(range)
  }

  /** A match that runs from one cell to another decodes back to exactly them. */
  lemma DecodesBack(line: Line, found: Match, first: Spot, last: Spot)
    requires FoundBetween(line, found, first, last) && first.col < line.cols
    requires 0 < last.col + last.width <= line.cols && first.row <= last.row && found.length > 0
    ensures EndsAt(found, line.cols, last.row, last.col + last.width)
    ensures LastRow(found, line.cols) == last.row
    ensures SelectionIs(found, line.cols, Range(Point(first.col, first.row), Point(last.col + last.width, last.row)))
  {
    MulSum(last.row, -(first.row as int), line.cols);
    LastRowIs(found, line.cols, last.row, last.col + last.width);
    SelectionEndIs(found, line.cols, last.row, last.col + last.width);
  }

  /** A match's cells lie in its rows, and each of its rows has some. */
  lemma HeldRows(found: Match, cols: nat, row: int, col: int)
    requires OnScreen(found, cols)
    ensures Holds(found, cols, row, col) ==> found.row <= row <= LastRow(found, cols)
    ensures found.row <= row <= LastRow(found, cols) ==> 0 <= Offset(found, cols, row) < found.col + found.length
  {
    var last, after := LastCell(found, cols);
    LastRowIs(found, cols, last, after);
    if row < found.row {
      MulMono(row - found.row, -1, cols);
    } else {
      MulMono(0, row - found.row, cols);
      if row > last {
        MulMono(last - found.row + 1, row - found.row, cols);
        MulSum(last - found.row, 1, cols);
      } else {
        MulMono(row - found.row, last - found.row, cols);
      }
    }
  }

  /** The columns of one row that a match holds. */
  lemma HeldColumns(found: Match, cols: nat, row: int, from: int)
    requires OnScreen(found, cols) && found.row <= row <= LastRow(found, cols)
    ensures
      var offset := Offset(found, cols, row);
      Min(found.col + found.length - offset, cols) > Max(from, found.col - offset)
      <==> exists col :: from <= col && Holds(found, cols, row, col)
  {
    var offset := Offset(found, cols, row);
    HeldRows(found, cols, row, 0);
    if Min(found.col + found.length - offset, cols) > Max(from, found.col - offset) {
      var col := Max(0, Max(from, found.col - offset));
      assert from <= col && Holds(found, cols, row, col);
    }
  }

  /** Some cell of the match is in the covered rows and columns. */
  ghost predicate Covered(found: Match, cols: nat, top: int, rows: int, from: int) {
    exists row, col :: top <= row < top + rows && from <= col && Holds(found, cols, row, col)
  }

  /** `underBar`: whether the bar over the view's top right covers a match. */
  method UnderBar(found: Match, cols: nat, top: int, rows: int, from: int) returns (covered: bool)
    requires OnScreen(found, cols)
    ensures covered <==> Covered(found, cols, top, rows, from)
  {
    var end := found.col + found.length;
    var first := Max(found.row, top);
    var last := Min(LastRow(found, cols), top + rows - 1);
    forall row, col | top <= row < top + rows && from <= col && Holds(found, cols, row, col)
      ensures first <= row <= last
    {
      HeldRows(found, cols, row, col);
    }
    covered := false;
    if first > last { return; }
    var row := first;
    while row <= last
      invariant first <= row <= last + 1
      invariant forall r, col :: first <= r < row && from <= col ==> !Holds(found, cols, r, col)
      decreases last - row
    {
      var offset := (row - found.row) * cols;
      assert offset == Offset(found, cols, row);
      HeldColumns(found, cols, row, from);
      if Min(end - offset, cols) > Max(from, found.col - offset) {
        assert Covered(found, cols, top, rows, from);
        return true;
      }
      row := row + 1;
    }
  }

  // ----- every match that is found -----

  /** Rows are no wider than the terminal, and no cell crosses its right edge. */
  ghost predicate Sized(buffer: seq<Row>, cols: nat) {
    forall row :: 0 <= row < |buffer| ==> SizedRow(buffer[row], cols)
  }

  ghost predicate SizedRow(row: Row, cols: nat) {
    forall col :: 0 <= col < |row.cells| ==> col + Max(1, row.cells[col].width) <= cols
  }

  lemma {:induction false} DrawGrows(fold: Fold, cells: seq<Cell>, n: nat, m: nat)
    requires n <= m <= |cells|
    ensures |Draw(fold, cells[..n])| <= |Draw(fold, cells[..m])|
    decreases m
  {
    if n < m {
      assert cells[..m][..m - 1] == cells[..m - 1];
      DrawGrows(fold, cells, n, m - 1);
    }
  }

  /** Within a row, a cell that drew a later unit is no earlier. */
  lemma DrewLater(fold: Fold, cells: seq<Cell>, col: nat, width: nat, offset: int, col': nat, width': nat, offset': int)
    requires DrewUnit(fold, cells, col, width, offset) && DrewUnit(fold, cells, col', width', offset')
      && offset <= offset'
    ensures col <= col'
  {
    if col' < col {
      DrawGrows(fold, cells, col' + 1, col);
    }
  }

  /** Later units are drawn by the same or later cells. */
  lemma LaterUnitLaterCell(line: Line, unit: nat, later: nat, first: Spot, last: Spot)
    requires unit <= later < |LineText(line)|
    requires Locate(line.fold, line.buffer, line.start, line.end, unit) == Some(first)
    requires Locate(line.fold, line.buffer, line.start, line.end, later) == Some(last)
    ensures first.row < last.row || (first.row == last.row && first.col <= last.col)
  {
    hide Columns, DrewUnit, Joined, Kept, RowOf, RowTexts, Start;
    assert LineText(line) == Joined(RowTexts(line.fold, line.buffer, line.start, line.end));
    LocateIsExact(line.fold, line.buffer, line.start, line.end, unit);
    LocateIsExact(line.fold, line.buffer, line.start, line.end, later);
    var rows := RowTexts(line.fold, line.buffer, line.start, line.end);
    assert first.row == line.start + RowOf(rows, unit, |rows|) && last.row == line.start + RowOf(rows, later, |rows|);
    if first.row == last.row {
      var from := Start(rows, first.row - line.start);
      DrewLater(line.fold, line.buffer[first.row].cells, first.col, first.width, unit - from, last.col, last.width,
        later - from);
    }
  }

  /** Every visited occurrence is a match on the screen: it runs from the cell
      that draws its first unit to the cell that draws its last, and its last
      row and its selection are those of exactly these cells. */
  lemma OccurrenceOnScreen(line: Line, index: nat) returns (first: Spot, last: Spot)
    requires Occurs(LineText(line), line.query, index) && Sized(line.buffer, line.cols)
    ensures MatchAt(line, index).Some? && OnScreen(MatchAt(line, index).value, line.cols)
    ensures FoundBetween(line, MatchAt(line, index).value, first, last)
    ensures Located(line.fold, line.buffer, line.start, line.end, index, first)
    ensures Located(line.fold, line.buffer, line.start, line.end, index + |line.query| - 1, last)
    ensures LastRow(MatchAt(line, index).value, line.cols) == last.row
    ensures SelectionIs(MatchAt(line, index).value, line.cols,
                        Range(Point(first.col, first.row), Point(last.col + last.width, last.row)))
  {
    hide Locate, Located;
    assert index + |line.query| <= |LineText(line)|;
    first, last := OccurrenceBetween(line, index);
    var found := MatchAt(line, index).value;
    LaterUnitLaterCell(line, index, index + |line.query| - 1, first, last);
    InRow(line, index, first);
    InRow(line, index + |line.query| - 1, last);
    assert found.length == (last.row - first.row) * line.cols + last.col + last.width - first.col;
    if first.row < last.row {
      MulMono(1, last.row - first.row, line.cols);
    }
    assert OnScreen(found, line.cols);
    DecodesBack(line, found, first, last);
  }

  lemma InRow(line: Line, unit: nat, spot: Spot)
    requires Sized(line.buffer, line.cols) && Located(line.fold, line.buffer, line.start, line.end, unit, spot)
    ensures spot.col < line.cols && 0 < spot.col + spot.width <= line.cols && spot.width > 0
  {
    hide Draw, Kept;
    assert SizedRow(line.buffer[spot.row], line.cols);
  }
}
