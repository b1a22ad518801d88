/** Finding a query in a terminal's buffer, newest matches first. */
module TerminalFind {
  import opened Basics

  /** A cell: the characters it draws, and the columns it takes. The second half
      of a wide character takes none. */
  datatype Cell = Cell(chars: string, width: nat)

  /** A row, and whether it continues the row above. */
  datatype Row = Row(wrapped: bool, cells: seq<Cell>)

  datatype Spot = Spot(row: nat, col: nat, width: nat)

  datatype Match = Match(row: nat, col: nat, length: int)

  /** Case folding, one text at a time. */
  type Fold = string -> string

  // ----- the folded text of a line -----

  function Drawn(fold: Fold, cell: Cell): string {
    if cell.width == 0 then "" else fold(if cell.chars == "" then " " else cell.chars)
  }

  function Draw(fold: Fold, cells: seq<Cell>): string {
    if cells == [] then "" else Draw(fold, cells[..|cells| - 1]) + Drawn(fold, cells[|cells| - 1])
  }

  /** The cells up to the last one with anything in it. */
  function Trimmed(cells: seq<Cell>): (n: nat)
    ensures n <= |cells|
  {
    if cells == [] then 0 else if cells[|cells| - 1].chars != "" then |cells| else Trimmed(cells[..|cells| - 1])
  }

  /** An empty last cell, left because a wide character did not fit there. */
  predicate Padded(buffer: seq<Row>, row: nat)
    requires row + 1 < |buffer|
  {
    var cells, next := buffer[row].cells, buffer[row + 1].cells;
    cells != [] && cells[|cells| - 1] == Cell("", 1) && next != [] && next[0].width == 2
  }

  /** The cells of a row that belong to the text of the line ending at `end`. */
  function Kept(buffer: seq<Row>, row: nat, end: nat): (n: nat)
    requires row <= end < |buffer|
    ensures n <= |buffer[row].cells|
  {
    if row == end then Trimmed(buffer[row].cells)
    else if Padded(buffer, row) then |buffer[row].cells| - 1
    else |buffer[row].cells|
  }

  function RowText(fold: Fold, buffer: seq<Row>, row: nat, end: nat): string
    requires row <= end < |buffer|
  {
    Draw(fold, buffer[row].cells[..Kept(buffer, row, end)])
  }

  function RowTexts(fold: Fold, buffer: seq<Row>, start: nat, end: nat): (rows: seq<string>)
    requires start <= end < |buffer|
    ensures |rows| == end - start + 1
    ensures forall i :: 0 <= i < |rows| ==> rows[i] == RowText(fold, buffer, start + i, end)
  {
    seq(end - start + 1, i requires 0 <= i <= end - start => RowText(fold, buffer, start + i, end))
  }

  function Joined(rows: seq<string>): string {
    if rows == [] then "" else Joined(rows[..|rows| - 1]) + rows[|rows| - 1]
  }

  // ----- the cell of a folded unit -----

  /** For each folded unit of some cells, the column and width of its cell. */
  function Columns(fold: Fold, cells: seq<Cell>): seq<(nat, nat)> {
    if cells == [] then []
    else
      var last := |cells| - 1;
      Columns(fold, cells[..last]) + seq(|Drawn(fold, cells[last])|, _ => (last, cells[last].width))
  }

  /** The cell drew this unit of the row. */
  ghost predicate DrewUnit(fold: Fold, cells: seq<Cell>, col: nat, width: nat, offset: int) {
    && col < |cells| && width == cells[col].width > 0
    && |Draw(fold, cells[..col])| <= offset < |Draw(fold, cells[..col + 1])|
  }

  lemma DrewMore(fold: Fold, cells: seq<Cell>, last: Cell, col: nat, width: nat, offset: int)
    requires DrewUnit(fold, cells, col, width, offset)
    ensures DrewUnit(fold, cells + [last], col, width, offset)
  {
    hide Draw;
    assert (cells + [last])[..col] == cells[..col] && (cells + [last])[..col + 1] == cells[..col + 1];
  }

  lemma DrewLast(fold: Fold, cells: seq<Cell>, last: Cell, offset: int)
    requires |Draw(fold, cells)| <= offset < |Draw(fold, cells)| + |Drawn(fold, last)|
    ensures DrewUnit(fold, cells + [last], |cells|, last.width, offset)
  {
    var all := cells + [last];
    assert all[..|cells|] == cells && all[..|cells| + 1] == all;
  }

  lemma {:induction false} ColumnsCover(fold: Fold, cells: seq<Cell>)
    ensures |Columns(fold, cells)| == |Draw(fold, cells)|
    ensures forall k :: 0 <= k < |Columns(fold, cells)| ==>
      DrewUnit(fold, cells, Columns(fold, cells)[k].0, Columns(fold, cells)[k].1, k)
  {
    if cells != [] {
      var first, last := cells[..|cells| - 1], cells[|cells| - 1];
      ColumnsCover(fold, first);
      assert cells == first + [last];
      var before := Columns(fold, first);
      assert Columns(fold, cells) == before + seq(|Drawn(fold, last)|, _ => (|first|, last.width));
      assert |Draw(fold, cells)| == |Draw(fold, first)| + |Drawn(fold, last)|;
      hide *;
      forall k | 0 <= k < |Columns(fold, cells)|
        ensures DrewUnit(fold, cells, Columns(fold, cells)[k].0, Columns(fold, cells)[k].1, k)
      {
        if k < |before| {
          DrewMore(fold, first, last, before[k].0, before[k].1, k);
        } else {
          DrewLast(fold, first, last, k);
        }
      }
    }
  }

  lemma {:induction false} ColumnsPrefix(fold: Fold, cells: seq<Cell>, n: nat)
    requires n <= |cells|
    ensures |Columns(fold, cells[..n])| <= |Columns(fold, cells)|
    ensures Columns(fold, cells)[..|Columns(fold, cells[..n])|] == Columns(fold, cells[..n])
    decreases |cells|
  {
    if n == |cells| {
      assert cells[..n] == cells;
    } else {
      var last := |cells| - 1;
      ColumnsPrefix(fold, cells[..last], n);
      assert cells[..last][..n] == cells[..n];
    }
  }

  /** The columns of at least the first `length` units, or of all. */
  ghost predicate MapsCells(fold: Fold, cells: seq<Cell>, length: nat, columns: seq<(nat, nat)>) {
    columns <= Columns(fold, cells) && (|columns| >= length || columns == Columns(fold, cells))
  }

  /** `rowCells`: stops once it has mapped `length` units. */
  method RowCells(fold: Fold, cells: seq<Cell>, length: nat) returns (columns: seq<(nat, nat)>)
    ensures MapsCells(fold, cells, length, columns)
  {
    columns := [];
    var col := 0;
    while col < |cells| && |columns| < length
      invariant col <= |cells| && columns == Columns(fold, cells[..col])
    {
      var current := cells[col];
      ColumnsNext(fold, cells, col);
      hide Columns, Drawn;
      if current.width != 0 {
        var units := |Drawn(fold, current)|;
        columns := columns + seq(units, _ => (col, current.width));
      }
      col := col + 1;
    }
    ColumnsPrefix(fold, cells, col);
    assert cells[..|cells|] == cells;
  }

  /** One more cell adds a column for each unit it draws, and a cell without width
      draws none. */
  lemma ColumnsNext(fold: Fold, cells: seq<Cell>, col: nat)
    requires col < |cells|
    ensures Columns(fold, cells[..col + 1])
         == Columns(fold, cells[..col]) + seq(|Drawn(fold, cells[col])|, _ => (col, cells[col].width))
    ensures cells[col].width == 0 ==> Columns(fold, cells[..col + 1]) == Columns(fold, cells[..col])
  {
    assert cells[..col + 1][..col] == cells[..col];
  }

  /** Where each row's text starts in the line. */
  function Start(rows: seq<string>, i: nat): nat
    requires i <= |rows|
  {
    |Joined(rows[..i])|
  }

  lemma StartNext(rows: seq<string>, i: nat)
    requires i < |rows|
    ensures Start(rows, i + 1) == Start(rows, i) + |rows[i]|
  {
    assert rows[..i + 1][..i] == rows[..i];
  }

  lemma {:induction false} StartsGrow(rows: seq<string>, i: nat, j: nat)
    requires i <= j <= |rows|
    ensures Start(rows, i) <= Start(rows, j)
    decreases j - i
  {
    if i < j {
      StartNext(rows, i);
      StartsGrow(rows, i + 1, j);
    }
  }

  /** The row that holds a unit of the line. */
  function RowOf(rows: seq<string>, unit: nat, n: nat): (i: nat)
    requires 0 < n <= |rows|
    ensures i < n && (i == 0 || Start(rows, i) <= unit)
    ensures forall j :: i < j < n ==> Start(rows, j) > unit
  {
    if n == 1 || Start(rows, n - 1) <= unit then n - 1 else RowOf(rows, unit, n - 1)
  }

  lemma RowHolds(rows: seq<string>, unit: nat)
    requires rows != [] && unit < |Joined(rows)|
    ensures
      var i := RowOf(rows, unit, |rows|);
      Start(rows, i) <= unit < Start(rows, i) + |rows[i]|
  {
    var i := RowOf(rows, unit, |rows|);
    assert rows[..0] == [] && rows[..|rows|] == rows;
    StartNext(rows, i);
  }

  function Locate(fold: Fold, buffer: seq<Row>, start: nat, end: nat, unit: nat): Option<Spot>
    requires start <= end < |buffer|
  {
    var rows := RowTexts(fold, buffer, start, end);
    var low := RowOf(rows, unit, |rows|);
    var columns, offset := Columns(fold, buffer[start + low].cells), unit - Start(rows, low);
    if offset < 0 || offset >= |columns| || offset >= |rows[low]| then None
    else Some(Spot(start + low, columns[offset].0, columns[offset].1))
  }

  lemma ColumnDrew(fold: Fold, cells: seq<Cell>, kept: nat, offset: nat)
    requires kept <= |cells| && offset < |Draw(fold, cells[..kept])|
    ensures offset < |Columns(fold, cells)| && Columns(fold, cells)[offset].0 < kept
    ensures DrewUnit(fold, cells, Columns(fold, cells)[offset].0, Columns(fold, cells)[offset].1, offset)
  {
    hide Columns, Draw;
    ColumnsCover(fold, cells[..kept]);
    ColumnsPrefix(fold, cells, kept);
    var col := Columns(fold, cells[..kept])[offset].0;
    assert DrewUnit(fold, cells[..kept], col, Columns(fold, cells[..kept])[offset].1, offset);
    assert Columns(fold, cells)[offset] == Columns(fold, cells[..kept])[offset];
    assert cells[..kept][..col] == cells[..col] && cells[..kept][..col + 1] == cells[..col + 1];
  }

  /** A spot is in one of the line's rows, at the cell whose drawing holds the unit. */
  ghost predicate Located(fold: Fold, buffer: seq<Row>, start: nat, end: nat, unit: nat, spot: Spot)
    requires start <= end < |buffer|
  {
    && start <= spot.row <= end && spot.col < Kept(buffer, spot.row, end)
    && DrewUnit(fold, buffer[spot.row].cells, spot.col, spot.width,
                unit - Start(RowTexts(fold, buffer, start, end), spot.row - start))
  }

  /** Every unit of a line's text is located. */
  lemma LocateIsExact(fold: Fold, buffer: seq<Row>, start: nat, end: nat, unit: nat)
    requires start <= end < |buffer| && unit < |Joined(RowTexts(fold, buffer, start, end))|
    ensures
      var spot := Locate(fold, buffer, start, end, unit);
      spot.Some? && Located(fold, buffer, start, end, unit, spot.value)
  {
    hide Columns, Draw, Joined, Kept, RowOf, RowTexts, Start;
    var rows := RowTexts(fold, buffer, start, end);
    RowHolds(rows, unit);
    var low := RowOf(rows, unit, |rows|);
    var row, offset := start + low, unit - Start(rows, low);
    assert rows[low] == Draw(fold, buffer[row].cells[..Kept(buffer, row, end)]);
    ColumnDrew(fold, buffer[row].cells, Kept(buffer, row, end), offset);
    var column := Columns(fold, buffer[row].cells)[offset];
    assert Locate(fold, buffer, start, end, unit) == Some(Spot(row, column.0, column.1));
  }

  /** The row starts of a line. */
  method RowStarts(rows: seq<string>) returns (starts: seq<nat>)
    ensures |starts| == |rows| && forall i :: 0 <= i < |rows| ==> starts[i] == Start(rows, i)
  {
    starts := [];
    var offset := 0;
    assert rows[..0] == [];
    for index := 0 to |rows|
      invariant offset == Start(rows, index) && |starts| == index
      invariant forall i :: 0 <= i < index ==> starts[i] == Start(rows, i)
    {
      StartNext(rows, index);
      starts := starts + [offset];
      offset := offset + |rows[index]|;
    }
  }

  ghost predicate AreStarts(starts: seq<nat>, rows: seq<string>) {
    |starts| == |rows| > 0 && forall i :: 0 <= i < |starts| ==> starts[i] == Start(rows, i)
  }

  /** The row that holds a unit, by binary search. */
  method FindRow(ghost rows: seq<string>, starts: seq<nat>, unit: nat) returns (low: nat)
    requires AreStarts(starts, rows)
    ensures low == RowOf(rows, unit, |rows|) < |starts| && starts[low] == Start(rows, low)
  {
    var high := |starts| - 1;
    low := 0;
    assert rows[..0] == [];
    while low < high
      invariant low <= high < |starts| && starts[low] <= unit
      invariant forall j :: high < j < |starts| ==> starts[j] > unit
    {
      var middle := (low + high + 1) / 2;
      if starts[middle] <= unit {
        low := middle;
      } else {
        forall j | middle <= j < |starts|
          ensures starts[j] > unit
        {
          StartsGrow(rows, middle, j);
        }
        high := middle - 1;
      }
    }
  }

  // ----- the occurrences that are visited -----

  predicate Occurs(text: string, query: string, i: nat) {
    i + |query| <= |text| && text[i..i + |query|] == query
  }

  /** The last occurrence that starts at or before `from`, or -1. */
  function LastIndex(text: string, query: string, from: int): (index: int)
    requires from >= -1
    ensures -1 <= index <= from && (index >= 0 ==> Occurs(text, query, index))
    ensures forall i :: index < i <= from && i >= 0 ==> !Occurs(text, query, i)
    decreases from
  {
    if from < 0 || Occurs(text, query, from) then from else LastIndex(text, query, from - 1)
  }

  /** The occurrences visited from `from` leftwards, each clear of the one before. */
  function Visits(text: string, query: string, from: int): seq<nat>
    requires query != "" && from >= -1
    decreases from + 1
  {
    var index := LastIndex(text, query, from);
    if index < 0 then []
    else if index < |query| then [index]
    else [index] + Visits(text, query, index - |query|)
  }

  /** The occurrences visited are apart, from right to left. */
  lemma {:induction false} VisitsApart(text: string, query: string, from: int)
    requires query != "" && from >= -1
    ensures forall k :: 0 <= k < |Visits(text, query, from)| ==>
      var i := Visits(text, query, from)[k];
      i <= from && i + |query| <= |text| && text[i..i + |query|] == query
    ensures forall j, k :: 0 <= j < k < |Visits(text, query, from)| ==>
      Visits(text, query, from)[k] + |query| <= Visits(text, query, from)[j]
    decreases from + 1
  {
    var index := LastIndex(text, query, from);
    if index >= |query| {
      VisitsApart(text, query, index - |query|);
    }
  }

  ghost predicate Overlaps(query: string, i: int, j: int) {
    -|query| < i - j < |query|
  }

  ghost predicate OverlapsSome(query: string, i: nat, visits: seq<nat>) {
    exists k :: 0 <= k < |visits| && Overlaps(query, i, visits[k])
  }

  lemma OverlapsMore(query: string, i: nat, first: nat, rest: seq<nat>)
    requires OverlapsSome(query, i, rest)
    ensures OverlapsSome(query, i, [first] + rest)
  {
    var k :| 0 <= k < |rest| && Overlaps(query, i, rest[k]);
    assert ([first] + rest)[k + 1] == rest[k];
  }

  /** Every occurrence overlaps one that is visited. */
  lemma {:induction false} VisitsCover(text: string, query: string, from: int, i: nat)
    requires query != "" && from >= -1 && i <= from && i + |query| <= |text| && text[i..i + |query|] == query
    ensures OverlapsSome(query, i, Visits(text, query, from))
    decreases from + 1
  {
    hide LastIndex;
    var index := LastIndex(text, query, from);
    assert Occurs(text, query, i) && i <= index;
    if index - i < |query| {
      assert Overlaps(query, i, Visits(text, query, from)[0]);
      assert OverlapsSome(query, i, Visits(text, query, from));
    } else {
      VisitsCover(text, query, index - |query|, i);
      OverlapsMore(query, i, index, Visits(text, query, index - |query|));
    }
  }

  // ----- the matches of one line -----

  datatype LineData = LineData(fold: Fold, buffer: seq<Row>, start: nat, end: nat, query: string, cols: nat)

  /** Everything that decides the matches of one logical line. */
  type Line = line: LineData | line.start <= line.end < |line.buffer| && line.query != "" && line.cols > 0
    witness LineData(s => s, [Row(false, [])], 0, 0, "a", 1)

  function MatchAt(line: Line, index: nat): Option<Match>
  {
    var first := Locate(line.fold, line.buffer, line.start, line.end, index);
    var last := Locate(line.fold, line.buffer, line.start, line.end, index + |line.query| - 1);
    if first.None? || last.None? then None
    else
      Some(Match(first.value.row, first.value.col,
                 (last.value.row - first.value.row) * line.cols + last.value.col + last.value.width - first.value.col))
  }

  function Keep(found: seq<Match>, next: Option<Match>): seq<Match> {
    if next.None? || (found != [] && found[|found| - 1] == next.value) then found else found + [next.value]
  }

  /** The distinct matches of the visited occurrences, newest first. */
  function Collect(line: Line, visits: seq<nat>): seq<Match>
  {
    if visits == [] then [] else Keep(Collect(line, visits[..|visits| - 1]), MatchAt(line, visits[|visits| - 1]))
  }

  function LineText(line: Line): string
  {
    Joined(RowTexts(line.fold, line.buffer, line.start, line.end))
  }

  function LineFound(line: Line): seq<Match>
  {
    Collect(line, Visits(LineText(line), line.query, |LineText(line)| - 1))
  }

  lemma {:induction false} CollectPrefix(line: Line, visits: seq<nat>, n: nat)
    requires n <= |visits|
    ensures Collect(line, visits[..n]) <= Collect(line, visits)
    decreases |visits|
  {
    if n == |visits| {
      assert visits[..n] == visits;
    } else {
      var first := visits[..|visits| - 1];
      CollectPrefix(line, first, n);
      assert first[..n] == visits[..n];
      assert Collect(line, first) <= Collect(line, visits);
    }
  }

  function Newest(found: seq<Match>, most: nat): seq<Match> {
    if |found| > most then found[..most] else found
  }

  /** What the loop has done and what is left make all visits. */
  ghost predicate Visiting(line: Line, text: string, visits: seq<nat>, index: int) {
    && index >= -1
    && Visits(text, line.query, |text| - 1) == visits + (if index < 0 then [] else Visits(text, line.query, index))
    && (index >= 0 ==> Occurs(text, line.query, index))
  }

  lemma VisitsFrom(text: string, query: string, from: int)
    requires query != "" && from >= -1
    ensures
      var index := LastIndex(text, query, from);
      Visits(text, query, from) == if index < 0 then [] else Visits(text, query, index)
  {}

  lemma VisitStart(line: Line, text: string)
    ensures Visiting(line, text, [], LastIndex(text, line.query, |text| - 1))
  {
    VisitsFrom(text, line.query, |text| - 1);
  }

  lemma VisitUnfolds(text: string, query: string, index: nat)
    requires query != "" && Occurs(text, query, index)
    ensures Visits(text, query, index)
         == [index] + (if index < |query| then [] else Visits(text, query, index - |query|))
  {
    hide Occurs;
  }

  lemma VisitNext(line: Line, text: string, visits: seq<nat>, index: nat)
    requires Visiting(line, text, visits, index)
    ensures Visiting(line, text, visits + [index],
                     if index < |line.query| then -1 else LastIndex(text, line.query, index - |line.query|))
  {
    hide Visits, Occurs, LastIndex;
    VisitUnfolds(text, line.query, index);
    var rest := if index < |line.query| then [] else Visits(text, line.query, index - |line.query|);
    if index >= |line.query| {
      VisitsFrom(text, line.query, index - |line.query|);
    }
    assert visits + ([index] + rest) == visits + [index] + rest;
  }

  lemma CollectNext(line: Line, visits: seq<nat>, index: nat)
    ensures Collect(line, visits + [index]) == Keep(Collect(line, visits), MatchAt(line, index))
    ensures |Collect(line, visits)| <= |Collect(line, visits + [index])| <= |Collect(line, visits)| + 1
  {
    assert (visits + [index])[..|visits|] == visits;
  }

  /** The rows mapped to cells so far. */
  ghost predicate AreMapped(line: Line, rows: seq<string>, mapped: map<nat, seq<(nat, nat)>>) {
    && |rows| == line.end - line.start + 1
    && forall low :: low in mapped ==>
      low < |rows| && MapsCells(line.fold, line.buffer[line.start + low].cells, |rows[low]|, mapped[low])
  }

  lemma MappedCell(line: Line, rows: seq<string>, unit: nat, low: nat, columns: seq<(nat, nat)>)
    requires rows == RowTexts(line.fold, line.buffer, line.start, line.end) && unit < |Joined(rows)|
    requires low == RowOf(rows, unit, |rows|)
    requires MapsCells(line.fold, line.buffer[line.start + low].cells, |rows[low]|, columns)
    ensures
      var offset := unit - Start(rows, low);
      offset >= 0 && Locate(line.fold, line.buffer, line.start, line.end, unit) ==
        if offset < |columns| then Some(Spot(line.start + low, columns[offset].0, columns[offset].1)) else None
  {
    hide Columns, Joined, RowOf, RowText;
    RowHolds(rows, unit);
  }

  /** `locate`: the row of a unit, which is mapped to its cells the first time. */
  method LocateUnit(line: Line, rows: seq<string>, starts: seq<nat>, mapped: map<nat, seq<(nat, nat)>>, unit: nat)
    returns (spot: Option<Spot>, more: map<nat, seq<(nat, nat)>>)
    requires rows == RowTexts(line.fold, line.buffer, line.start, line.end) && AreStarts(starts, rows)
    requires AreMapped(line, rows, mapped) && unit < |Joined(rows)|
    ensures spot == Locate(line.fold, line.buffer, line.start, line.end, unit) && AreMapped(line, rows, more)
  {
    hide RowText, RowTexts, Joined, Columns, RowOf, Locate, MapsCells;
    var low := FindRow(rows, starts, unit);
    more := mapped;
    if low !in more {
      var columns := RowCells(line.fold, line.buffer[line.start + low].cells, |rows[low]|);
      more := more[low := columns];
    }
    MappedCell(line, rows, unit, low, more[low]);
    var offset := unit - starts[low];
    if offset >= |more[low]| {
      spot := None;
    } else {
      spot := Some(Spot(line.start + low, more[low][offset].0, more[low][offset].1));
    }
  }

  /** The match of one occurrence. */
  method LocateMatch(line: Line, rows: seq<string>, starts: seq<nat>, mapped: map<nat, seq<(nat, nat)>>, index: nat)
    returns (next: Option<Match>, more: map<nat, seq<(nat, nat)>>)
    requires rows == RowTexts(line.fold, line.buffer, line.start, line.end) && AreStarts(starts, rows)
    requires AreMapped(line, rows, mapped) && index + |line.query| <= |Joined(rows)|
    ensures next == MatchAt(line, index) && AreMapped(line, rows, more)
  {
    hide Joined, RowTexts, Locate, AreMapped, AreStarts;
    var first, last;
    first, more := LocateUnit(line, rows, starts, mapped, index);
    last, more := LocateUnit(line, rows, starts, more, index + |line.query| - 1);
    if first.None? || last.None? {
      next := None;
    } else {
      var length :=
        (last.value.row - first.value.row) * line.cols + last.value.col + last.value.width - first.value.col;
      next := Some(Match(first.value.row, first.value.col, length));
    }
  }

  /** `lineMatches`: stops once it has one match more than the budget. */
  method LineMatches(line: Line, rows: seq<string>, text: string, budget: nat) returns (found: seq<Match>)
    requires rows == RowTexts(line.fold, line.buffer, line.start, line.end) && text == Joined(rows)
    ensures found == Newest(LineFound(line), budget + 1)
  {
    var starts := RowStarts(rows);
    var mapped: map<nat, seq<(nat, nat)>> := map[];
    found := [];
    var index := LastIndex(text, line.query, |text| - 1);
    ghost var visits: seq<nat> := [];
    VisitStart(line, text);
    assert Collect(line, []) == [] && text == LineText(line) && AreStarts(starts, rows)
      && AreMapped(line, rows, mapped);
    hide *;
    while index >= 0 && |found| <= budget
      invariant |found| <= budget + 1 && Visiting(line, text, visits, index) && found == Collect(line, visits)
      invariant AreMapped(line, rows, mapped)
      decreases index
    {
      VisitNext(line, text, visits, index);
      CollectNext(line, visits, index);
      VisitedEnds(line, text, visits, index);
      var next;
      next, mapped := LocateMatch(line, rows, starts, mapped, index);
      found := Keep(found, next);
      visits := visits + [index];
      index := if index < |line.query| then -1 else LastIndex(text, line.query, index - |line.query|);
    }
    StoppedEarly(line, text, visits, index, budget);
  }

  lemma VisitedEnds(line: Line, text: string, visits: seq<nat>, index: nat)
    requires Visiting(line, text, visits, index)
    ensures index + |line.query| <= |text|
  {
    hide Visits;
  }

  lemma StoppedEarly(line: Line, text: string, visits: seq<nat>, index: int, budget: nat)
    requires text == LineText(line) && Visiting(line, text, visits, index)
    requires |Collect(line, visits)| <= budget + 1 && (index < 0 || |Collect(line, visits)| == budget + 1)
    ensures Collect(line, visits) == Newest(LineFound(line), budget + 1)
  {
    hide Collect, Visits, LineText;
    var all := Visits(text, line.query, |text| - 1);
    assert visits <= all && (index < 0 ==> visits == all);
    CollectPrefix(line, all, |visits|);
    assert all[..|visits|] == visits;
  }

  // ----- the whole buffer -----

  datatype SearchData = SearchData(fold: Fold, buffer: seq<Row>, query: string, cols: nat)

  type Search = s: SearchData | s.query != "" && s.cols > 0 witness SearchData(s => s, [], "a", 1)

  /** The first row of the logical line that ends at `row`. */
  function LineTop(buffer: seq<Row>, row: nat): (top: nat)
    requires row < |buffer|
    ensures top <= row && forall i :: top < i <= row ==> buffer[i].wrapped
    ensures top > 0 ==> !buffer[top].wrapped
  {
    if row > 0 && buffer[row].wrapped then LineTop(buffer, row - 1) else row
  }

  function LineAt(search: Search, end: nat): Line
    requires end < |search.buffer|
  {
    LineData(search.fold, search.buffer, LineTop(search.buffer, end), end, search.query, search.cols)
  }

  /** All matches of the first `n` rows, newest first, with no limit. */
  function AllFound(search: Search, n: nat): seq<Match>
    requires n <= |search.buffer|
  {
    if n == 0 then [] else LineFound(LineAt(search, n - 1)) + AllFound(search, LineTop(search.buffer, n - 1))
  }

  datatype Result = Result(matches: seq<Match>, capped: bool)

  /** What an unlimited search gives, in buffer order. */
  function Everything(search: Search): seq<Match> {
    Reverse(AllFound(search, |search.buffer|))
  }

  /** The newest of the newest-first list are the last of the list in order. */
  lemma ReverseNewest(found: seq<Match>, most: nat)
    requires most <= |found|
    ensures |Reverse(found)| == |found| && Reverse(found[..most]) == Reverse(found)[|found| - most..]
  {
    assert found == found[..most] + found[most..];
    ReverseSum(found[..most], found[most..]);
  }

  method ReverseAll(found: seq<Match>) returns (reversed: seq<Match>)
    ensures reversed == Reverse(found)
  {
    reversed := [];
    for i := 0 to |found|
      invariant reversed == Reverse(found[..i])
    {
      assert found[..i + 1] == found[..i] + [found[i]];
      ReverseSum(found[..i], [found[i]]);
      assert [found[i]][1..] == [];
      assert Reverse([found[i]]) == [found[i]];
      reversed := [found[i]] + reversed;
    }
    assert found[..|found|] == found;
  }

  method FindLineTop(buffer: seq<Row>, end: nat) returns (start: nat)
    requires end < |buffer|
    ensures start == LineTop(buffer, end)
  {
    start := end;
    while start > 0 && buffer[start].wrapped
      invariant start <= end && LineTop(buffer, start) == LineTop(buffer, end)
    {
      start := start - 1;
    }
  }

  predicate Includes(text: string, query: string)
    requires query != ""
  {
    LastIndex(text, query, |text| - 1) >= 0
  }

  lemma NothingIncluded(line: Line)
    requires !Includes(LineText(line), line.query)
    ensures LineFound(line) == []
  {}

  /** What one more line adds, cut at what is left of the limit. */
  lemma LineAdds(search: Search, n: nat, newest: seq<Match>)
    requires 0 < n <= |search.buffer| && AllFound(search, |search.buffer|) == newest + AllFound(search, n)
    ensures AllFound(search, |search.buffer|)
         == newest + LineFound(LineAt(search, n - 1)) + AllFound(search, LineTop(search.buffer, n - 1))
  {
    hide LineFound;
    var found, rest := LineFound(LineAt(search, n - 1)), AllFound(search, LineTop(search.buffer, n - 1));
    assert newest + (found + rest) == newest + found + rest;
  }

  method LineFoundWithin(line: Line, budget: nat) returns (found: seq<Match>)
    ensures found == Newest(LineFound(line), budget + 1)
  {
    var rows := RowTexts(line.fold, line.buffer, line.start, line.end);
    var text := Joined(rows);
    if Includes(text, line.query) {
      found := LineMatches(line, rows, text, budget);
    } else {
      NothingIncluded(line);
      found := [];
    }
  }

  lemma CutOff(newest: seq<Match>, line: seq<Match>, rest: seq<Match>, budget: nat)
    requires |line| > budget
    ensures |Newest(line, budget + 1)| > budget
    ensures newest + Newest(line, budget + 1)[..budget] == (newest + line + rest)[..|newest| + budget]
  {}

  lemma WithinBudget(line: seq<Match>, budget: nat)
    ensures |Newest(line, budget + 1)| > budget <==> |line| > budget
    ensures |line| <= budget ==> Newest(line, budget + 1) == line
  {
  }

  /** The newest `limit` of all matches, and whether that leaves some out. */
  ghost predicate IsNewest(result: Result, everything: seq<Match>, limit: nat) {
    if |everything| <= limit then result == Result(everything, false)
    else result == Result(everything[|everything| - limit..], true)
  }

  lemma LimitReached(all: seq<Match>, limit: nat)
    requires |all| > limit
    ensures IsNewest(Result(Reverse(all[..limit]), true), Reverse(all), limit)
  {
    hide Reverse;
    ReverseNewest(all, limit);
  }

  lemma LimitNotReached(all: seq<Match>, limit: nat)
    requires |all| <= limit
    ensures IsNewest(Result(Reverse(all), false), Reverse(all), limit)
  {
  }

  /** One more logical line: all its matches, or as many as the limit leaves. */
  method ScanLine(search: Search, n: nat, newest: seq<Match>, limit: nat) returns (more: seq<Match>, full: bool)
    requires 0 < n <= |search.buffer| && |newest| <= limit
    requires AllFound(search, |search.buffer|) == newest + AllFound(search, n)
    ensures full ==> |AllFound(search, |search.buffer|)| > limit && more == AllFound(search, |search.buffer|)[..limit]
    ensures !full ==> |more| <= limit
    ensures !full ==> AllFound(search, |search.buffer|) == more + AllFound(search, LineTop(search.buffer, n - 1))
  {
    hide *;
    var line := LineAt(search, n - 1);
    var budget := limit - |newest|;
    var found := LineFoundWithin(line, budget);
    LineAdds(search, n, newest);
    WithinBudget(LineFound(line), budget);
    full := |found| > budget;
    if full {
      CutOff(newest, LineFound(line), AllFound(search, LineTop(search.buffer, n - 1)), budget);
      more := newest + found[..budget];
    } else {
      more := newest + found;
    }
  }

  lemma SearchEnds(search: Search)
    ensures AllFound(search, 0) == [] && Everything(search) == Reverse(AllFound(search, |search.buffer|))
  {
  }

  /** `findTerminalMatches`: a limited search gives exactly the newest matches of
      the unlimited one, and says it is capped exactly when it left some out. */
  method FindMatches(search: Search, limit: nat) returns (result: Result)
    ensures IsNewest(result, Everything(search), limit)
  {
    hide *;
    ghost var all := AllFound(search, |search.buffer|);
    var newest: seq<Match> := [];
    var n: nat := |search.buffer|;
    assert [] + all == all;
    SearchEnds(search);
    while n > 0
      invariant n <= |search.buffer| && |newest| <= limit && all == newest + AllFound(search, n)
      decreases n
    {
      var more, full := ScanLine(search, n, newest, limit);
      if full {
        LimitReached(all, limit);
        var matches := ReverseAll(more);
        return Result(matches, true);
      }
      newest := more;
      n := FindLineTop(search.buffer, n - 1);
    }
    assert newest + [] == newest;
    LimitNotReached(all, limit);
    var matches := ReverseAll(newest);
    result := Result(matches, false);
  }

  // ----- the shape of a match -----

  /** A match found in a line: it runs from a cell to a cell of that line. */
  ghost predicate FoundBetween(line: Line, found: Match, first: Spot, last: Spot) {
    && line.start <= first.row <= line.end && line.start <= last.row <= line.end
    && found.row == first.row && found.col == first.col
    && found.row * line.cols + found.col + found.length == last.row * line.cols + last.col + last.width
  }

  /** Every visited occurrence is a match, from the cell that draws its first
      unit to the end of the cell that draws its last. */
  lemma OccurrenceBetween(line: Line, index: nat) returns (first: Spot, last: Spot)
    requires Occurs(LineText(line), line.query, index)
    ensures Locate(line.fold, line.buffer, line.start, line.end, index) == Some(first)
    ensures Locate(line.fold, line.buffer, line.start, line.end, index + |line.query| - 1) == Some(last)
    ensures MatchAt(line, index).Some? && FoundBetween(line, MatchAt(line, index).value, first, last)
    ensures Located(line.fold, line.buffer, line.start, line.end, index, first)
    ensures Located(line.fold, line.buffer, line.start, line.end, index + |line.query| - 1, last)
  {
    hide Joined, Locate, RowTexts;
    assert index + |line.query| <= |LineText(line)|;
    assert LineText(line) == Joined(RowTexts(line.fold, line.buffer, line.start, line.end));
    LocateIsExact(line.fold, line.buffer, line.start, line.end, index);
    LocateIsExact(line.fold, line.buffer, line.start, line.end, index + |line.query| - 1);
    first := Locate(line.fold, line.buffer, line.start, line.end, index).value;
    last := Locate(line.fold, line.buffer, line.start, line.end, index + |line.query| - 1).value;
    assert MatchAt(line, index).Some? && FoundBetween(line, MatchAt(line, index).value, first, last) by {
      Cells(first.row, last.row, line.cols);
    }
  }

  lemma Cells(first: int, last: int, cols: nat)
    ensures first * cols + (last - first) * cols == last * cols
  {}

  /** `picks` are the visits whose matches are kept, each the first of those next
      to each other that give the same match. */
  ghost predicate Picks(given: seq<Option<Match>>, found: seq<Match>, picks: seq<nat>) {
    && |picks| == |found| && (forall i, j :: 0 <= i < j < |picks| ==> picks[i] < picks[j])
    && (forall j :: 0 <= j < |picks| ==> picks[j] < |given| && given[picks[j]] == Some(found[j]))
    && (forall i, j :: 0 <= i && j == i + 1 < |found| ==> found[i] != found[j])
    && (forall k :: 0 <= k < |given| && given[k].Some? ==> PickedFor(found, picks, k, given[k].value))
  }

  /** The last pick up to the `k`th visit has this match. */
  ghost predicate PickedFor(found: seq<Match>, picks: seq<nat>, k: nat, next: Match)
    requires |picks| == |found|
  {
    exists j :: 0 <= j < |picks| && found[j] == next && picks[j] <= k && forall i :: j < i < |picks| ==> k < picks[i]
  }

  lemma PicksOn(given: seq<Option<Match>>, found: seq<Match>, picks: seq<nat>, next: Option<Match>)
    requires Picks(given, found, picks)
    requires next.None? || (found != [] && found[|found| - 1] == next.value)
    ensures Picks(given + [next], found, picks)
  {
    hide PickedFor;
    if next.Some? {
      LastPicked(found, picks, |given|);
    }
  }

  lemma LastPicked(found: seq<Match>, picks: seq<nat>, k: nat)
    requires |picks| == |found| > 0 && picks[|picks| - 1] <= k
    ensures PickedFor(found, picks, k, found[|found| - 1])
  {}

  lemma PickedStays(found: seq<Match>, picks: seq<nat>, k: nat, next: Match, more: Match, at: nat)
    requires |picks| == |found| && PickedFor(found, picks, k, next) && k < at
    ensures PickedFor(found + [more], picks + [at], k, next)
  {
    var j :| 0 <= j < |picks| && found[j] == next && picks[j] <= k && forall i :: j < i < |picks| ==> k < picks[i];
    assert (found + [more])[j] == next && (picks + [at])[j] <= k;
  }

  lemma PicksMore(given: seq<Option<Match>>, found: seq<Match>, picks: seq<nat>, next: Match)
    requires Picks(given, found, picks) && (found == [] || found[|found| - 1] != next)
    ensures Picks(given + [Some(next)], found + [next], picks + [|given|])
  {
    hide PickedFor;
    var all := given + [Some(next)];
    forall k | 0 <= k < |all| && all[k].Some?
      ensures PickedFor(found + [next], picks + [|given|], k, all[k].value)
    {
      if k < |given| {
        PickedStays(found, picks, k, given[k].value, next, |given|);
      } else {
        LastPicked(found + [next], picks + [|given|], k);
      }
    }
  }

  /** The match of each visited occurrence. */
  ghost function Given(line: Line, visits: seq<nat>): (given: seq<Option<Match>>)
    ensures |given| == |visits| && forall k :: 0 <= k < |visits| ==> given[k] == MatchAt(line, visits[k])
  {
    seq(|visits|, k requires 0 <= k < |visits| => MatchAt(line, visits[k]))
  }

  lemma GivenNext(line: Line, visits: seq<nat>, last: nat)
    ensures Given(line, visits + [last]) == Given(line, visits) + [MatchAt(line, last)]
  {
    hide MatchAt;
  }

  lemma NothingPicked(line: Line)
    ensures Picks(Given(line, []), Collect(line, []), [])
  {}

  lemma {:induction false} CollectPicks(line: Line, visits: seq<nat>) returns (picks: seq<nat>)
    ensures Picks(Given(line, visits), Collect(line, visits), picks)
  {
    hide MatchAt, Picks, Given;
    if visits == [] {
      picks := [];
      NothingPicked(line);
    } else {
      var first, last := visits[..|visits| - 1], visits[|visits| - 1];
      var given, found, next := Given(line, first), Collect(line, first), MatchAt(line, last);
      picks := CollectPicks(line, first);
      assert visits == first + [last];
      GivenNext(line, first, last);
      if next.None? || (found != [] && found[|found| - 1] == next.value) {
        PicksOn(given, found, picks, next);
      } else {
        PicksMore(given, found, picks, next.value);
        picks := picks + [|given|];
      }
    }
  }

  /** A line's matches are those of all its visited occurrences, in their order;
      of neighbours that give the same match one is kept. */
  lemma LineFoundIs(line: Line) returns (picks: seq<nat>)
    ensures Picks(Given(line, Visits(LineText(line), line.query, |LineText(line)| - 1)), LineFound(line), picks)
    ensures forall m :: m in LineFound(line) <==>
      exists i :: i in Visits(LineText(line), line.query, |LineText(line)| - 1) && MatchAt(line, i) == Some(m)
  {
    hide MatchAt, Collect, LineText;
    var visits := Visits(LineText(line), line.query, |LineText(line)| - 1);
    picks := CollectPicks(line, visits);
    forall m
      ensures m in LineFound(line) <==> exists i :: i in visits && MatchAt(line, i) == Some(m)
    {
      if m in LineFound(line) {
        var j :| 0 <= j < |picks| && LineFound(line)[j] == m;
        assert visits[picks[j]] in visits;
      }
      if i :| i in visits && MatchAt(line, i) == Some(m) {
        var k :| 0 <= k < |visits| && visits[k] == i;
        assert PickedFor(LineFound(line), picks, k, m);
      }
    }
  }
}
