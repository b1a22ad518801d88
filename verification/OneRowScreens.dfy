/** A terminal of one row. The row that is copied for a shortened repeat is the
    one at the screen's top, which is then the cursor's own: the copies are right
    exactly when the repeat ends right before it would wrap, and what is read back
    is right exactly when they are or reading does not come so far. */
module OneRowScreens {
  import opened Basics
  import opened RepeatScreen
  import opened RowBudget
  import opened LeftOutRows
  import opened SavedOutput

  /** The row that the copies are drawn like. */
  function TopRow(v: View, pen: Pen, count: nat): Row
    requires |v.lines| > 0
  {
    var rule := RepeatRule(v.cols, |v.lines|);
    var kept := if rule.settled < count && 1 <= rule.period then Kept(rule, count) else count;
    PrintN(Screen([], v), pen, kept).view.lines[0]
  }

  /** Only long repeats leave rows out. */
  lemma LeavesOut(v: View, pen: Pen, count: nat)
    ensures 1 <= RepeatRule(v.cols, |v.lines|).period
    ensures LeftOutBy(v, pen, count) >= 0
    ensures LeftOutBy(v, pen, count) > 0 ==> RepeatRule(v.cols, |v.lines|).settled < count
  {
    PeriodIsWholeRows(v.cols, pen);
    WholeRowsLeftOut(v.cols, pen, PeriodsLeftOut(v.cols, |v.lines|, count));
    hide PerPeriod, Omitted;
    assert PeriodsLeftOut(v.cols, |v.lines|, count) == 0 ==> LeftOutBy(v, pen, count) == 0;
  }

  lemma EndsWith(x: seq<Row>, copies: seq<Row>, row: Row, top: Row)
    requires copies != [] && copies[|copies| - 1] == row
    ensures var rows := x + copies + [top]; |rows| >= 2 && rows[|rows| - 2..] == [row, top]
  {
  }

  /** The newest rows of a repeat on one row, as they are read and as they are. */
  lemma NewestRowsAre(full: Screen, pen: Pen, count: nat)
    requires |full.view.lines| == 1 && LeftOutBy(full.view, pen, count) > 0
    ensures 1 <= RepeatRule(full.view.cols, 1).period && RepeatRule(full.view.cols, 1).settled < count
    ensures
      var top := TopRow(full.view, pen, count);
      var read, printed := Rows(AsRead(full, pen, count)), Rows(PrintN(full, pen, count));
      && top.wrapped
      && |read| >= 2 && read[|read| - 2..] == [top, top]
      && |printed| >= 2 && printed[|printed| - 2..] == [FullRow(full.view.cols, pen), top]
      && (pen.chars != "" ==> (top == FullRow(full.view.cols, pen) <==> EndsFullRow(full.view, pen, count)))
  {
    LeavesOut(full.view, pen, count);
    hide PrintN, AsRead, LeftOutBy, EndsFullRow, FullRow, RepeatRule, TopRow, CutShort, Kept, SameButForRows;
    assert Pushes(full.view);
    TopRowIs(full.view, pen, count);
    TopRowAfter(Screen([], full.view), pen, count);
    var p0, p1, short := ShortPast(full, pen, count);
    CutShortRows(p0, p1, full, pen, count, short, 1);
    AsReadIs(p0, p1, full, pen, count, short, 1);
    CutShortFull(p0, p1, full, pen, count, short, 1);
    var top, left: nat := TopRow(full.view, pen, count), LeftOutBy(full.view, pen, count);
    ShortIs(p0, p1, full, pen, count, short);
    assert short.view.lines == [top];
    EndsWith(full.back + short.back, seq(left, _ => top), top, top);
    EndsWith(full.back + short.back, FullRows(full.view.cols, pen, left), FullRow(full.view.cols, pen), top);
  }

  lemma TopRowIs(v: View, pen: Pen, count: nat)
    requires |v.lines| > 0 && RepeatRule(v.cols, |v.lines|).settled < count && 1 <= RepeatRule(v.cols, |v.lines|).period
    ensures
      var kept := Kept(RepeatRule(v.cols, |v.lines|), count);
      TopRow(v, pen, count) == PrintN(Screen([], v), pen, kept).view.lines[0]
  {
    hide PrintN, RepeatRule;
  }

  lemma ShortIs(p0: SavedTerminal.Past, p1: SavedTerminal.Past, full: Screen, pen: Pen, count: nat, short: Screen)
    requires |full.view.lines| == 1 && CutShort(p0, p1, full, pen, count, short, 1)
    ensures short.view.lines == [TopRow(full.view, pen, count)]
  {
    hide PrintN;
  }

  // ----- the newest rows that are read back wrong -----

  /** A repeat that is not put back, and how many rows scrolled off since. */
  datatype Wrong = Wrong(view: View, pen: Pen, count: nat, since: nat)

  function CopyOf(w: Wrong): Row
    requires |w.view.lines| > 0
  {
    TopRow(w.view, w.pen, w.count)
  }

  function RowOf(w: Wrong): Row {
    FullRow(w.view.cols, w.pen)
  }

  /** What a step pushes off the screen. */
  function PushedBy<H>(m: Moment<H>, op: Op<H>): seq<Row> {
    match op
    case Other(effect) => effect(m.hidden, m.screen.view).pushed
    case Repeat(pen, count) => PrintN(Screen([], m.screen.view), pen, count).back
  }

  /** The newest repeat that is not put back. */
  function NewestWrong<H>(start: Moment<H>, ops: seq<Op<H>>): Option<Wrong> {
    if ops == [] then None
    else
      var front, op := ops[..|ops| - 1], ops[|ops| - 1];
      var m := RunAll(start, front);
      if !OpRestored(m, op) then Some(Wrong(m.screen.view, op.pen, op.count, 0))
      else
        var w := NewestWrong(start, front);
        if w.None? then None else Some(w.value.(since := w.value.since + |PushedBy(m, op)|))
  }

  lemma {:induction false} NoneWrong<H>(start: Moment<H>, ops: seq<Op<H>>)
    ensures NewestWrong(start, ops).None? <==> AllRestored(start, ops)
  {
    hide OpRestored, PushedBy, RunAll;
    if ops != [] {
      var front := ops[..|ops| - 1];
      NoneWrong(start, front);
      RestoredNext(start, ops);
    }
  }

  lemma RestoredNext<H>(start: Moment<H>, ops: seq<Op<H>>)
    requires ops != []
    ensures
      var front := ops[..|ops| - 1];
      AllRestored(start, ops) <==> AllRestored(start, front) && OpRestored(RunAll(start, front), ops[|front|])
  {
    hide OpRestored, RunAll;
    var front := ops[..|ops| - 1];
    assert forall i :: 0 <= i < |front| ==> front[..i] == ops[..i] && front[i] == ops[i];
    if AllRestored(start, ops) {
      assert OpRestored(RunAll(start, ops[..|front|]), ops[|front|]);
      forall i | 0 <= i < |front|
        ensures OpRestored(RunAll(start, front[..i]), front[i])
      {
        assert OpRestored(RunAll(start, ops[..i]), ops[i]);
      }
    }
    if AllRestored(start, front) && OpRestored(RunAll(start, front), ops[|front|]) {
      forall i | 0 <= i < |ops|
        ensures OpRestored(RunAll(start, ops[..i]), ops[i])
      {
        if i < |front| {
          assert OpRestored(RunAll(start, front[..i]), front[i]);
        }
      }
    }
  }

  /** Two terminals of one row that differ in the row before the newest d ones
      that scrolled off, and in none after it. */
  ghost predicate Diverge(read: Screen, full: Screen, copy: Row, row: Row, d: nat) {
    && read.view == full.view && |read.view.lines| == 1
    && d < |read.back| && d < |full.back| && Agree(read.back, full.back, d)
    && FromEnd(read.back, d) == copy && FromEnd(full.back, d) == row
  }

  lemma DivergeMore(read: Screen, full: Screen, copy: Row, row: Row, d: nat, pushed: seq<Row>, view: View)
    requires Diverge(read, full, copy, row, d) && |view.lines| == 1
    ensures Diverge(Screen(read.back + pushed, view), Screen(full.back + pushed, view), copy, row, d + |pushed|)
  {
    AgreePush(read.back, full.back, d, pushed);
  }

  /** A repeat that is not put back leaves a wrong copy as the newest row that
      scrolled off. */
  lemma WrongHere(read: Screen, full: Screen, pen: Pen, count: nat)
    requires read.view == full.view && |full.view.lines| == 1 && !Restored(full.view, pen, count)
    ensures Diverge(AsRead(read, pen, count), PrintN(full, pen, count), TopRow(full.view, pen, count),
      FullRow(full.view.cols, pen), 0)
    ensures pen.chars != "" ==> TopRow(full.view, pen, count) != FullRow(full.view.cols, pen)
  {
    hide PrintN, AsRead, LeftOutBy, EndsFullRow, FullRow, TopRow;
    LeavesOut(full.view, pen, count);
    NewestRowsAre(read, pen, count);
    NewestRowsAre(full, pen, count);
    ReadsAlike(read, pen, count);
    ReadsAlike(full, pen, count);
    BackIrrelevant(read, pen, count);
    BackIrrelevant(full, pen, count);
    NewestOff(AsRead(read, pen, count), TopRow(full.view, pen, count));
    NewestOff(PrintN(full, pen, count), FullRow(full.view.cols, pen));
  }

  lemma NewestOff(s: Screen, row: Row)
    requires |s.view.lines| == 1 && |Rows(s)| >= 2 && Rows(s)[|Rows(s)| - 2] == row
    ensures |s.back| > 0 && FromEnd(s.back, 0) == row
  {
  }

  lemma RestoredPushes<H>(m: Moment<H>, n: Moment<H>, op: Op<H>)
    requires Alike(m, n) && OpRestored(n, op)
    ensures ReadOp(m, op).screen == Screen(m.screen.back + PushedBy(n, op), SavedOutput.Run(n, op).screen.view)
    ensures SavedOutput.Run(n, op).screen == Screen(n.screen.back + PushedBy(n, op), SavedOutput.Run(n, op).screen.view)
  {
    hide PrintN, AsRead, Restored;
    if op.Repeat? {
      RestoredIsFull(m.screen, op.pen, op.count);
      BackIrrelevant(m.screen, op.pen, op.count);
      BackIrrelevant(n.screen, op.pen, op.count);
    }
  }

  /** What is read back and what was printed differ first at the newest repeat
      that is not put back. */
  lemma {:induction false} WrongDiverges<H(!new)>(start: Moment<H>, ops: seq<Op<H>>)
    requires KeepAll(ops) && |start.screen.view.lines| == 1 && NewestWrong(start, ops).Some?
    ensures
      var w := NewestWrong(start, ops).value;
      && |w.view.lines| == 1 && (w.pen.chars != "" ==> CopyOf(w) != RowOf(w))
      && Diverge(ReadAll(start, ops).screen, RunAll(start, ops).screen, CopyOf(w), RowOf(w), w.since)
  {
    hide ReadOp, SavedOutput.Run, PushedBy, Restored, FullRow, TopRow, Diverge;
    var front, op := ops[..|ops| - 1], ops[|ops| - 1];
    var m, n := ReadAll(start, front), RunAll(start, front);
    AllAlike(start, front);
    RunKeeps(start, front);
    RunKeeps(start, ops);
    if OpRestored(n, op) {
      WrongDiverges(start, front);
      var w, pushed := NewestWrong(start, front).value, PushedBy(n, op);
      RestoredPushes(m, n, op);
      DivergeMore(m.screen, n.screen, CopyOf(w), RowOf(w), w.since, pushed, SavedOutput.Run(n, op).screen.view);
    } else {
      WrongHere(m.screen, n.screen, op.pen, op.count);
      RepeatRuns(m, n, op);
    }
  }

  lemma RepeatRuns<H>(m: Moment<H>, n: Moment<H>, op: Op<H>)
    requires op.Repeat?
    ensures ReadOp(m, op).screen == AsRead(m.screen, op.pen, op.count)
    ensures SavedOutput.Run(n, op).screen == PrintN(n.screen, op.pen, op.count)
  {
    hide PrintN, AsRead;
  }

  // ----- exactly when that is seen -----

  /** How many newer texts are drawn than the row that is wrong. */
  function NewerTexts(w: Wrong, last: Row, draw: Draw): nat {
    w.since + if NothingDrawn(last, draw) then 0 else 1
  }

  /** Below the screen's row the rows differ first where those that scrolled off do. */
  lemma RowsDiverge(read: Screen, full: Screen, copy: Row, row: Row, d: nat)
    requires Diverge(read, full, copy, row, d)
    ensures
      var x, y := Rows(read), Rows(full);
      && d + 1 < |x| && d + 1 < |y| && Agree(x, y, d + 1) && FromEnd(x, d) == FromEnd(y, d)
      && FromEnd(x, d + 1) == copy && FromEnd(y, d + 1) == row
  {
    AgreePush(read.back, full.back, d, full.view.lines);
    assert FromEnd(Rows(read), d + 1) == FromEnd(read.back, d) && FromEnd(Rows(full), d + 1) == FromEnd(full.back, d);
  }

  /** The texts differ first where the rows do. */
  lemma TextsDiverge(read: Screen, full: Screen, copy: Row, row: Row, d: nat, draw: Draw)
    requires Diverge(read, full, copy, row, d) && forall whole :: draw(copy, whole) != draw(row, whole)
    ensures
      var a, b := Shown(Rows(read), 1, draw), Shown(Rows(full), 1, draw);
      var k := d + if NothingDrawn(full.view.lines[0], draw) then 0 else 1;
      k < |a| && k < |b| && Agree(a, b, k) && FromEnd(a, k) != FromEnd(b, k)
  {
    hide Undrawn, Render, FromEnd, Rows, Agree, NothingDrawn;
    var x, y, u := Rows(read), Rows(full), if NothingDrawn(full.view.lines[0], draw) then 1 else 0;
    var k := d + 1 - u;
    RowsDiverge(read, full, copy, row, d);
    UndrawnOne(read, draw);
    UndrawnOne(full, draw);
    ShownAgree(x, y, u, draw, k);
    ShownAt(x, u, draw, k);
    ShownAt(y, u, draw, k);
  }

  lemma UndrawnOne(s: Screen, draw: Draw)
    requires |s.view.lines| == 1
    ensures Undrawn(Rows(s), 1, draw) == if NothingDrawn(s.view.lines[0], draw) then 1 else 0
  {
    assert Rows(s)[|Rows(s)| - 1] == s.view.lines[0];
  }

  /** The drawing tells the wrong copies from the rows they stand for, if those differ. */
  ghost predicate Telling(w: Option<Wrong>, draw: Draw) {
    w.Some? && |w.value.view.lines| == 1 ==>
      var copy, row := CopyOf(w.value), RowOf(w.value);
      w.value.pen.chars != "" && forall whole :: draw(copy, whole) == draw(row, whole) ==> copy == row
  }

  /** Reading comes as far as the newest row that is wrong. */
  ghost predicate SeesWrong<H(!new)>(ops: seq<Op<H>>, start: View, hidden: H, budget: nat, chars: nat, draw: Draw)
    requires KeepAll(ops)
  {
    var begin := Begins(start, hidden);
    var a, b := ReadTexts(ops, start, hidden, draw), SegmentTexts(ops, start, hidden, draw);
    NewestWrong(begin, ops).Some? && RunAll(begin, ops).screen.view.lines != []
    && var k := NewerTexts(NewestWrong(begin, ops).value, RunAll(begin, ops).screen.view.lines[0], draw);
       k < |a| && k < |b| && InReach(a, b, k, budget, chars)
  }

  /** A segment reads back right exactly when every repeat is put back, or
      reading does not come as far as the newest that is not. A repeat is put
      back on two rows or more always, and on one row when it leaves nothing out
      or ends right before it would wrap, which can be told before it is printed. */
  lemma ReadsBackExactlyWhen<H(!new)>(ops: seq<Op<H>>, start: View, hidden: H, budget: nat, chars: nat, draw: Draw)
    requires KeepAll(ops) && Telling(NewestWrong(Begins(start, hidden), ops), draw)
    ensures Newest(ReadTexts(ops, start, hidden, draw), budget, chars)
         == Newest(SegmentTexts(ops, start, hidden, draw), budget, chars)
        <==> AllRestored(Begins(start, hidden), ops) || !SeesWrong(ops, start, hidden, budget, chars, draw)
  {
    hide Newest, Shown, PrintN, AllRestored, InReach, Diverge, ReadAll, RunAll, NewestWrong, TopRow, FullRow;
    var begin := Begins(start, hidden);
    NoneWrong(begin, ops);
    RunKeeps(begin, ops);
    AllAlike(begin, ops);
    if AllRestored(begin, ops) {
      ReadIsRun(begin, ops);
    } else {
      WrongIsOneRow(begin, ops);
      WrongDiverges(begin, ops);
      var w := NewestWrong(begin, ops).value;
      var read, full := ReadAll(begin, ops).screen, RunAll(begin, ops).screen;
      TextsDiverge(read, full, CopyOf(w), RowOf(w), w.since, draw);
      NewestDiffer(Shown(Rows(read), 1, draw), Shown(Rows(full), 1, draw),
        NewerTexts(w, full.view.lines[0], draw), budget, chars);
    }
  }

  /** Only on one row is a repeat not put back. */
  lemma {:induction false} WrongIsOneRow<H(!new)>(start: Moment<H>, ops: seq<Op<H>>)
    requires KeepAll(ops) && NewestWrong(start, ops).Some?
    ensures |start.screen.view.lines| == 1
  {
    hide LeftOutBy, EndsFullRow, SavedOutput.Run, PushedBy;
    var front, op := ops[..|ops| - 1], ops[|ops| - 1];
    RunKeeps(start, front);
    if OpRestored(RunAll(start, front), op) {
      WrongIsOneRow(start, front);
    }
  }

  // ----- one such screen -----

  lemma NewestFirst(texts: seq<string>, budget: nat, chars: nat)
    requires texts != [] && 1 <= budget && |texts[|texts| - 1]| <= chars
    ensures
      var last, rest := texts[|texts| - 1], Newest(texts[..|texts| - 1], budget - 1, chars - |texts[|texts| - 1]|);
      Newest(texts, budget, chars).kept == [last] + rest.kept
  {
  }

  /** The text of the newest row above a screen of one row, where that is read. */
  lemma ReadsAbove(rows: seq<Row>, first: Row, top: Row, draw: Draw, budget: nat, chars: nat)
    requires |rows| >= 2 && rows[|rows| - 2..] == [first, top] && top.wrapped
    requires 2 <= budget && |draw(top, false)| + |draw(first, true)| <= chars
    ensures
      var kept, i := Newest(Shown(rows, 1, draw), budget, chars).kept, if NothingDrawn(top, draw) then 0 else 1;
      i < |kept| && kept[i] == draw(first, true)
  {
    assert rows[|rows| - 1] == rows[|rows| - 2..][1] == top && rows[|rows| - 2] == rows[|rows| - 2..][0] == first;
    var u := Undrawn(rows, 1, draw);
    assert u == if NothingDrawn(top, draw) then 1 else 0;
    var texts := Shown(rows, 1, draw);
    assert texts == Render(rows, draw)[..|rows| - u];
    if u == 1 {
      assert texts[|texts| - 1] == draw(first, true);
      NewestFirst(texts, budget, chars);
    } else {
      assert texts[|texts| - 1] == draw(top, false) && texts[|texts| - 2] == draw(first, true);
      NewestFirst(texts, budget, chars);
      var front := texts[..|texts| - 1];
      assert front[|front| - 1] == draw(first, true);
      NewestFirst(front, budget - 1, chars - |draw(top, false)|);
    }
  }

  const EXAMPLE: Pen := Pen("a", 1, 0, 0)

  /** The characters of a row's cells. */
  function Plainly(cells: seq<Cell>): string {
    if cells == [] then "" else cells[0].chars + Plainly(cells[1..])
  }

  function DrawPlainly(row: Row, whole: bool): string {
    Plainly(row.cells)
  }

  lemma ExampleRule()
    ensures RepeatRule(2, 1) == Rule(2, 8) && Kept(Rule(2, 8), 11) == 9 && Omitted(Rule(2, 8), 11) == 1
    ensures LeftOutBy(SMALLEST, EXAMPLE, 11) == 1 && Room(SMALLEST, EXAMPLE) == 2
  {
    assert Divisor(2, 1) == Divisor(1, 0) == 1;
    assert Period(2) == 2;
  }

  lemma SettledRow(v: View, pen: Pen, k: nat)
    requires Settled(v, pen, k) && |v.lines| == 1
    ensures v.lines[0] == PartRow(v.cols, pen, k)
  {
    hide PartRow;
  }

  /** The row that a print ends in on a screen of one row. */
  lemma LastRowOf(s: Screen, pen: Pen, n: nat)
    requires |s.view.lines| == 1 && Fits(s.view.cols, pen) == 2
    requires n >= ScreenAndRow(s.view.cols, 1) && n > Room(s.view, pen) && (n - Room(s.view, pen)) % 2 != 0
    ensures PrintN(s, pen, n).view.lines[0] == PartRow(s.view.cols, pen, 1)
  {
    hide PrintN, PartRow, Room, ScreenAndRow;
    var k := Settles(s, pen, n);
    LandsAt(s, pen, n, k);
    SettledRow(PrintN(s, pen, n).view, pen, k);
  }

  /** Eleven characters on one row of two columns end in a row of one. */
  lemma ExampleRows()
    ensures 1 <= RepeatRule(2, 1).period && RepeatRule(2, 1).settled < 11
    ensures TopRow(SMALLEST, EXAMPLE, 11) == PartRow(2, EXAMPLE, 1)
    ensures Plainly(PartRow(2, EXAMPLE, 1).cells) == "a" && Plainly(FullRow(2, EXAMPLE).cells) == "aa"
  {
    hide PrintN, LeftOutBy, RepeatRule, Kept, Room, PartRow, FullRow, Plainly;
    ExampleRule();
    LastRowOf(Screen([], SMALLEST), EXAMPLE, 9);
    ExampleCells();
    ExampleTexts();
  }

  lemma ExampleCells()
    ensures PartRow(2, EXAMPLE, 1).cells == [Cell("a", 1, 0), Cell("", 1, 0)]
    ensures FullRow(2, EXAMPLE).cells == [Cell("a", 1, 0), Cell("a", 1, 0)]
  {
  }

  lemma ExampleTexts()
    ensures Plainly([Cell("a", 1, 0), Cell("", 1, 0)]) == "a" && Plainly([Cell("a", 1, 0), Cell("a", 1, 0)]) == "aa"
  {
    var a, e := Cell("a", 1, 0), Cell("", 1, 0);
    assert [a, e][1..] == [e] && [a, a][1..] == [a] && [e][1..] == [] && [a][1..] == [];
    assert Plainly([a]) == "a" && Plainly([e]) == "";
  }

  /** There a row of two is read back as a row of one. */
  lemma ReadsOneForTwo()
    ensures
      var ops: seq<Op<bool>> := [Repeat(EXAMPLE, 11)];
      var read := Newest(ReadTexts(ops, SMALLEST, false, DrawPlainly), 10, 100);
      var printed := Newest(SegmentTexts(ops, SMALLEST, false, DrawPlainly), 10, 100);
      && 1 < |read.kept| && 1 < |printed.kept| && read.kept[1] == "a" && printed.kept[1] == "aa"
  {
    hide Newest, Shown, PrintN, AsRead, LeftOutBy, EndsFullRow, RepeatRule, PartRow, FullRow, Plainly;
    var ops: seq<Op<bool>> := [Repeat(EXAMPLE, 11)];
    var begin := Begins(SMALLEST, false);
    NothingRestored(begin);
    assert ops[..0] == [] && ops[..|ops| - 1] == [];
    ExampleRule();
    ExampleRows();
    NewestRowsAre(begin.screen, EXAMPLE, 11);
    AllAlike(begin, ops);
    RunKeeps(begin, ops);
    var top, full := PartRow(2, EXAMPLE, 1), FullRow(2, EXAMPLE);
    var read, printed := Rows(AsRead(begin.screen, EXAMPLE, 11)), Rows(PrintN(begin.screen, EXAMPLE, 11));
    assert ReadTexts(ops, SMALLEST, false, DrawPlainly) == Shown(read, 1, DrawPlainly);
    assert SegmentTexts(ops, SMALLEST, false, DrawPlainly) == Shown(printed, 1, DrawPlainly);
    ReadsAbove(read, top, top, DrawPlainly, 10, 100);
    ReadsAbove(printed, full, top, DrawPlainly, 10, 100);
  }
}
