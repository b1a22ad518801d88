/** Why a count past the screen's size may be cut: scrolling, inserting or
    deleting more lines than the screen has, or tabbing more often than it has
    columns, ends as doing so that often does. */
module ScreenCounts {
  import opened VtScanner
  import opened RepeatScreen
  import opened SavedMeaning

  // ----- rows between two margins -----

  /** The row at the top goes, and a blank one comes in at the bottom, or the
      other way round. */
  function RollOnce(up: bool, lines: seq<Row>, top: nat, bottom: nat, blank: Row): (r: seq<Row>)
    requires top <= bottom < |lines|
    ensures |r| == |lines|
  {
    if up then lines[..top] + lines[top + 1..bottom + 1] + [blank] + lines[bottom + 1..]
    else lines[..top] + [blank] + lines[top..bottom] + lines[bottom + 1..]
  }

  function Roll(up: bool, lines: seq<Row>, top: nat, bottom: nat, blank: Row, n: nat): (r: seq<Row>)
    requires top <= bottom < |lines|
    ensures |r| == |lines|
  {
    if n == 0 then lines else RollOnce(up, Roll(up, lines, top, bottom, blank, n - 1), top, bottom, blank)
  }

  /** Row i once n rows came in. */
  function RolledRow(up: bool, lines: seq<Row>, top: nat, bottom: nat, blank: Row, n: nat, i: nat): Row
    requires top <= bottom < |lines| && i < |lines|
  {
    if i < top || i > bottom then lines[i]
    else if up then (if i + n <= bottom then lines[i + n] else blank)
    else if i >= top + n then lines[i - n]
    else blank
  }

  lemma RollOnceRow(up: bool, lines: seq<Row>, top: nat, bottom: nat, blank: Row, i: nat)
    requires top <= bottom < |lines| && i < |lines|
    ensures RollOnce(up, lines, top, bottom, blank)[i] == RolledRow(up, lines, top, bottom, blank, 1, i)
  {
  }

  /** Each step brings in one more blank row, until there are only blank rows. */
  lemma {:induction false} RolledRows(up: bool, lines: seq<Row>, top: nat, bottom: nat, blank: Row, n: nat, i: nat)
    requires top <= bottom < |lines| && i < |lines|
    ensures Roll(up, lines, top, bottom, blank, n)[i] == RolledRow(up, lines, top, bottom, blank, n, i)
  {
    hide RollOnce;
    if n > 0 {
      var before := Roll(up, lines, top, bottom, blank, n - 1);
      RollOnceRow(up, before, top, bottom, blank, i);
      RolledRows(up, lines, top, bottom, blank, n - 1, i);
      if up && i < bottom {
        RolledRows(up, lines, top, bottom, blank, n - 1, i + 1);
      } else if !up && i > top {
        RolledRows(up, lines, top, bottom, blank, n - 1, i - 1);
      }
    }
  }

  lemma RollSettles(up: bool, lines: seq<Row>, top: nat, bottom: nat, blank: Row, n: nat)
    requires top <= bottom < |lines| <= n
    ensures Roll(up, lines, top, bottom, blank, n) == Roll(up, lines, top, bottom, blank, |lines|)
  {
    forall i | 0 <= i < |lines|
      ensures Roll(up, lines, top, bottom, blank, n)[i] == Roll(up, lines, top, bottom, blank, |lines|)[i]
    {
      RolledRows(up, lines, top, bottom, blank, n, i);
      RolledRows(up, lines, top, bottom, blank, |lines|, i);
    }
  }

  lemma RollKeeps(up: bool, lines: seq<Row>, top: nat, bottom: nat, blank: Row, n: nat, cols: nat)
    requires top <= bottom < |lines| && |blank.cells| == cols
    requires forall i :: 0 <= i < |lines| ==> |lines[i].cells| == cols
    ensures forall i :: 0 <= i < |lines| ==> |Roll(up, lines, top, bottom, blank, n)[i].cells| == cols
  {
    forall i | 0 <= i < |lines|
      ensures |Roll(up, lines, top, bottom, blank, n)[i].cells| == cols
    {
      RolledRows(up, lines, top, bottom, blank, n, i);
    }
  }

  // ----- tab stops -----

  /** The next stop to the right, or the last column. */
  function NextStop(stops: set<nat>, cols: Cols, x: nat): (r: nat)
    requires x < cols
    ensures x <= r < cols && (r == x ==> x == cols - 1)
    decreases cols - x
  {
    if x + 1 >= cols then cols - 1 else if x + 1 in stops then x + 1 else NextStop(stops, cols, x + 1)
  }

  /** The next stop to the left, or the first column. */
  function StopBefore(stops: set<nat>, x: nat): (r: nat)
    ensures r <= x && (r == x ==> x == 0)
  {
    if x == 0 then 0 else if x - 1 in stops then x - 1 else StopBefore(stops, x - 1)
  }

  function Tab(forward: bool, stops: set<nat>, cols: Cols, x: nat, n: nat): (r: nat)
    requires x < cols
    ensures r < cols
  {
    if n == 0 then x
    else
      var before := Tab(forward, stops, cols, x, n - 1);
      if forward then NextStop(stops, cols, before) else StopBefore(stops, before)
  }

  /** The nearest stop to the right, or the last column. */
  lemma {:induction false} NextStopIs(stops: set<nat>, cols: Cols, x: nat)
    requires x < cols
    ensures
      var r := NextStop(stops, cols, x);
      (r < cols - 1 ==> r in stops) && (forall i :: x < i < r ==> i !in stops) && (x + 1 == cols ==> r == x)
    decreases cols - x
  {
    if x + 1 < cols && x + 1 !in stops {
      NextStopIs(stops, cols, x + 1);
    }
  }

  /** The nearest stop to the left, or the first column. */
  lemma {:induction false} StopBeforeIs(stops: set<nat>, x: nat)
    ensures
      var r := StopBefore(stops, x);
      (r > 0 ==> r in stops) && forall i :: r < i < x ==> i !in stops
  {
    if x > 0 && x - 1 !in stops {
      StopBeforeIs(stops, x - 1);
    }
  }

  lemma {:induction false} TabMoves(forward: bool, stops: set<nat>, cols: Cols, x: nat, n: nat)
    requires x < cols
    ensures
      var r := Tab(forward, stops, cols, x, n);
      if forward then r >= x + n || r == cols - 1 else r + n <= x || r == 0
  {
    if n > 0 {
      TabMoves(forward, stops, cols, x, n - 1);
    }
  }

  lemma TabSettles(forward: bool, stops: set<nat>, cols: Cols, x: nat, n: nat)
    requires x < cols <= n
    ensures Tab(forward, stops, cols, x, n) == Tab(forward, stops, cols, x, cols)
  {
    TabMoves(forward, stops, cols, x, n);
    TabMoves(forward, stops, cols, x, cols);
  }

  // ----- what a count does -----

  /** The view after a control sequence with a count: rows roll between the
      margins, or between the cursor and the bottom one, or the cursor tabs. */
  function Counted(v: View, blank: Row, stops: set<nat>, final: Text, n: nat): View
    requires |blank.cells| == v.cols
  {
    if final == [0x53] then Rolled(v, v.top, blank, true, n)
    else if final == [0x54] then Rolled(v, v.top, blank, false, n)
    else if final == [0x4c] then if v.top <= v.y <= v.bottom then Rolled(v, v.y, blank, false, n).(x := 0) else v
    else if final == [0x4d] then if v.top <= v.y <= v.bottom then Rolled(v, v.y, blank, true, n).(x := 0) else v
    else if v.x < v.cols then v.(x := Tab(final == [0x49], stops, v.cols, v.x, n))
    else v
  }

  function Rolled(v: View, top: nat, blank: Row, up: bool, n: nat): (w: View)
    requires |blank.cells| == v.cols && top <= v.bottom
    ensures w.cols == v.cols && |w.lines| == |v.lines|
  {
    RollKeeps(up, v.lines, top, v.bottom, blank, n, v.cols);
    v.(lines := Roll(up, v.lines, top, v.bottom, blank, n))
  }

  /** S and T scroll up and down between the margins; L and M insert and delete
      rows from the cursor's to the lower margin, and go to the first column, but
      only between the margins; I and Z tab right and left. */
  lemma CountedIs(v: View, blank: Row, stops: set<nat>, final: Text, n: nat, i: nat)
    requires |blank.cells| == v.cols && i < |v.lines|
    requires final in [[0x53], [0x54], [0x4c], [0x4d], [0x49], [0x5a]]
    ensures
      var w, inside := Counted(v, blank, stops, final, n), v.top <= v.y <= v.bottom;
      if final == [0x53] then
        w == v.(lines := w.lines) && w.lines[i] == RolledRow(true, v.lines, v.top, v.bottom, blank, n, i)
      else if final == [0x54] then
        w == v.(lines := w.lines) && w.lines[i] == RolledRow(false, v.lines, v.top, v.bottom, blank, n, i)
      else if final == [0x4c] then
        if inside then w == v.(lines := w.lines, x := 0)
                       && w.lines[i] == RolledRow(false, v.lines, v.y, v.bottom, blank, n, i)
        else w == v
      else if final == [0x4d] then
        if inside then w == v.(lines := w.lines, x := 0)
                       && w.lines[i] == RolledRow(true, v.lines, v.y, v.bottom, blank, n, i)
        else w == v
      else if v.x < v.cols then w == v.(x := Tab(final == [0x49], stops, v.cols, v.x, n))
      else w == v
  {
    hide Roll, RolledRow, Tab;
    if final == [0x53] || final == [0x54] {
      RolledRows(final == [0x53], v.lines, v.top, v.bottom, blank, n, i);
    } else if (final == [0x4c] || final == [0x4d]) && v.top <= v.y <= v.bottom {
      RolledRows(final == [0x4d], v.lines, v.y, v.bottom, blank, n, i);
    }
  }

  /** A count past the screen's size ends as the screen's size does. */
  lemma CutCountSettles(size: Size, v: View, blank: Row, stops: set<nat>, final: Text, count: nat)
    requires |blank.cells| == v.cols == size.cols && |v.lines| == size.rows
    requires CountsRows(final) || CountsCols(final)
    ensures Counted(v, blank, stops, final, count) == Counted(v, blank, stops, final, Least(count, Limit(size, final)))
  {
    if count > Limit(size, final) {
      if CountsRows(final) {
        var up, top := final == [0x53] || final == [0x4d], if final == [0x53] || final == [0x54] then v.top else v.y;
        if top <= v.bottom {
          RollSettles(up, v.lines, top, v.bottom, blank, count);
        }
      } else if v.x < v.cols {
        TabSettles(final == [0x49], stops, v.cols, v.x, count);
      }
    }
  }

  /** No smaller count does: below the limit one more still shows. */
  lemma LimitIsNeeded(size: Size, v: View, blank: Row, stops: set<nat>, final: Text)
    requires |blank.cells| == v.cols == size.cols && |v.lines| == size.rows && v.top == 0 && v.bottom == size.rows - 1
    requires final == [0x53] && v.lines[size.rows - 1] != blank
    ensures Counted(v, blank, stops, final, size.rows - 1) != Counted(v, blank, stops, final, size.rows)
  {
    RolledRows(true, v.lines, 0, v.bottom, blank, size.rows - 1, 0);
    RolledRows(true, v.lines, 0, v.bottom, blank, size.rows, 0);
    assert Counted(v, blank, stops, final, size.rows - 1).lines[0] == v.lines[size.rows - 1];
    assert Counted(v, blank, stops, final, size.rows).lines[0] == blank;
  }
}
