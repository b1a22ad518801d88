/** Why a huge repeat may be shortened.

    Printing one character far more often than the screen has cells ends in a
    screen that no longer depends on how often it was printed, except for the
    cursor's place in its row.  `RepeatRule` picks a period after which that
    place comes back for one- and two-column characters alike, and a count
    after which the screen has settled. */
module RepeatScreen {
  import opened Arithmetic

  /** One screen cell: its text, its width in columns and its rendition. */
  datatype Cell = Cell(chars: string, width: nat, style: int)

  datatype Row = Row(cells: seq<Cell>, wrapped: bool)

  /** What is printed: a character of one or two columns, the rendition it is
      printed in and the rendition that erased cells take. */
  datatype PenData = Pen(chars: string, width: nat, style: int, erase: int)
  type Pen = p: PenData | p.width == 1 || p.width == 2 witness Pen("a", 1, 0, 0)

  /** A terminal is never narrower than one wide character. */
  type Cols = c: nat | 2 <= c witness 2

  /** The visible part of a terminal: its screen rows, the cursor and the
      scrolling margins.  `x == cols` is the wrap that is still pending. */
  datatype ViewData = View(cols: Cols, lines: seq<Row>, x: nat, y: nat, top: nat, bottom: nat)

  ghost predicate ValidView(v: ViewData) {
    && (forall i :: 0 <= i < |v.lines| ==> |v.lines[i].cells| == v.cols)
    && v.x <= v.cols && v.y < |v.lines|
    && v.top <= v.bottom < |v.lines|
    && (|v.lines| == 1 || v.top < v.bottom)
  }

  ghost const SMALLEST := View(2, [Row([Cell("", 1, 0), Cell("", 1, 0)], false)], 0, 0, 0, 0)
  type View = v: ViewData | ValidView(v) ghost witness SMALLEST

  /** A terminal that forgets nothing: the rows scrolled off, oldest first. */
  datatype Screen = Screen(back: seq<Row>, view: View)

  function GlyphCell(pen: Pen): Cell { Cell(pen.chars, pen.width, pen.style) }
  function StubCell(pen: Pen): Cell { Cell("", 0, pen.style) }
  function PadCell(pen: Pen): Cell { Cell("", 1, pen.style) }
  function EraseCell(pen: Pen): Cell { Cell("", 1, pen.erase) }

  /** The cell that a row printed from its first column holds at column i. */
  function Printed(pen: Pen, i: nat): Cell {
    if pen.width == 2 && i % 2 == 1 then StubCell(pen) else GlyphCell(pen)
  }

  /** The columns that k characters take. */
  function Span(pen: Pen, k: nat): nat {
    if pen.width == 2 then 2 * k else k
  }

  /** How many characters fit in some columns: columns / width. */
  function Fits(cols: nat, pen: Pen): (m: nat)
    ensures Span(pen, m) <= cols < Span(pen, m + 1)
  {
    if pen.width == 2 then cols / 2 else cols
  }

  /** The row that a line of nothing but this character leaves behind. */
  function FullRow(cols: nat, pen: Pen): (row: Row)
    ensures |row.cells| == cols && row.wrapped
  {
    var used := Span(pen, Fits(cols, pen));
    Row(seq(cols, i requires 0 <= i => if i < used then Printed(pen, i) else PadCell(pen)), true)
  }

  /** A row that scrolled in erased and holds k characters so far. */
  function PartRow(cols: nat, pen: Pen, k: nat): (row: Row)
    ensures |row.cells| == cols && row.wrapped
  {
    Row(seq(cols, i requires 0 <= i => if i < Span(pen, k) then Printed(pen, i) else EraseCell(pen)), true)
  }

  // ----- one character -----

  predicate SameFrame(v: View, w: View) {
    v.cols == w.cols && |v.lines| == |w.lines| && v.top == w.top && v.bottom == w.bottom
  }

  function SetLine(v: View, i: nat, row: Row): View
    requires i < |v.lines| && |row.cells| == v.cols
  {
    v.(lines := v.lines[i := row])
  }

  /** The cells a character that no longer fits leaves at the row's end. */
  function PadTail(row: Row, from: nat, pen: Pen): (r: Row)
    requires from <= |row.cells|
    ensures |r.cells| == |row.cells|
  {
    row.(cells := row.cells[..from] + seq(|row.cells| - from, i => PadCell(pen)))
  }

  /** The margins' rows move up; a row pushed off the screen's top is kept. */
  function ScrollUp(s: Screen, pen: Pen): Screen {
    var v := s.view;
    var lines :=
      v.lines[..v.top] + v.lines[v.top + 1..v.bottom + 1] + [PartRow(v.cols, pen, 0)] + v.lines[v.bottom + 1..];
    Screen(if v.top == 0 then s.back + [v.lines[0]] else s.back, v.(lines := lines))
  }

  function NextLine(s: Screen, pen: Pen): Screen {
    var v := SetLine(s.view, s.view.y, PadTail(s.view.lines[s.view.y], s.view.x, pen)).(x := 0);
    if v.y == v.bottom then ScrollUp(Screen(s.back, v), pen)
    else
      var y := if v.y + 1 < |v.lines| then v.y + 1 else v.y;
      Screen(s.back, SetLine(v, y, v.lines[y].(wrapped := true)).(y := y))
  }

  function PutRow(row: Row, x: nat, pen: Pen): (r: Row)
    requires x + pen.width <= |row.cells|
    ensures |r.cells| == |row.cells|
  {
    var cells := row.cells[x := GlyphCell(pen)];
    row.(cells := if pen.width == 2 then cells[x + 1 := StubCell(pen)] else cells)
  }

  function Put(v: View, pen: Pen): View
    requires v.x + pen.width <= v.cols
  {
    SetLine(v, v.y, PutRow(v.lines[v.y], v.x, pen)).(x := v.x + pen.width)
  }

  /** Prints one character with autowrap on. */
  function Print(s: Screen, pen: Pen): (r: Screen)
    ensures SameFrame(s.view, r.view)
  {
    var t := if s.view.x + pen.width > s.view.cols then NextLine(s, pen) else s;
    Screen(t.back, Put(t.view, pen))
  }

  function PrintN(s: Screen, pen: Pen, n: nat): (r: Screen)
    ensures SameFrame(s.view, r.view)
  {
    if n == 0 then s else Print(PrintN(s, pen, n - 1), pen)
  }

  lemma PrintNext(s: Screen, pen: Pen, n: nat)
    requires n > 0
    ensures PrintN(s, pen, n) == Print(PrintN(s, pen, n - 1), pen)
  {
  }

  lemma PrintNone(s: Screen, pen: Pen)
    ensures PrintN(s, pen, 0) == s
  {
  }

  lemma {:induction false} PrintSum(s: Screen, pen: Pen, a: nat, b: nat)
    ensures PrintN(PrintN(s, pen, a), pen, b) == PrintN(s, pen, a + b)
  {
    hide Print;
    if b != 0 {
      PrintSum(s, pen, a, b - 1);
    }
  }

  // ----- rows -----

  /** The row begins with k of the character, printed from its first column. */
  ghost predicate Begun(row: Row, pen: Pen, k: nat) {
    row.wrapped && Span(pen, k) <= |row.cells| && forall i :: 0 <= i < Span(pen, k) ==> row.cells[i] == Printed(pen, i)
  }

  /** Another character in a row that holds k of them, in a row of nothing
      else, and in a row that began with them. */
  lemma PutRows(cols: nat, pen: Pen, k: nat, row: Row)
    requires k < Fits(cols, pen) && |row.cells| == cols
    ensures Span(pen, k) + pen.width == Span(pen, k + 1) <= cols
    ensures PutRow(PartRow(cols, pen, k), Span(pen, k), pen) == PartRow(cols, pen, k + 1)
    ensures PutRow(FullRow(cols, pen), Span(pen, k), pen) == FullRow(cols, pen)
    ensures Begun(row, pen, k) ==> Begun(PutRow(row, Span(pen, k), pen), pen, k + 1)
  {
    var x := Span(pen, k);
    assert PutRow(PartRow(cols, pen, k), x, pen).cells == PartRow(cols, pen, k + 1).cells;
    assert PutRow(FullRow(cols, pen), x, pen).cells == FullRow(cols, pen).cells;
  }

  lemma PadRows(cols: nat, pen: Pen, row: Row)
    requires |row.cells| == cols && Begun(row, pen, Fits(cols, pen))
    ensures PadTail(row, Span(pen, Fits(cols, pen)), pen) == FullRow(cols, pen)
    ensures PadTail(FullRow(cols, pen), Span(pen, Fits(cols, pen)), pen) == FullRow(cols, pen)
    ensures PadTail(PartRow(cols, pen, Fits(cols, pen)), Span(pen, Fits(cols, pen)), pen) == FullRow(cols, pen)
  {
    var x, full := Span(pen, Fits(cols, pen)), FullRow(cols, pen);
    assert PadTail(row, x, pen).cells == full.cells;
    assert PadTail(full, x, pen).cells == full.cells;
    assert PadTail(PartRow(cols, pen, Fits(cols, pen)), x, pen).cells == full.cells;
  }

  function FullRows(cols: nat, pen: Pen, n: nat): (rows: seq<Row>)
    ensures |rows| == n
    ensures forall i :: 0 <= i < n ==> rows[i] == FullRow(cols, pen)
  {
    seq(n, i => FullRow(cols, pen))
  }

  // ----- the settled screen -----

  /** Whether a wrap at the cursor's row scrolls, rather than staying below
      the bottom margin. */
  predicate Scrolls(v: View) { v.y <= v.bottom }

  /** Whether what scrolls off the margins enters the scrollback. */
  predicate Pushes(v: View) { Scrolls(v) && v.top == 0 }

  /** The screen once the character fills all that it can reach, with k of
      it in the cursor's row. */
  ghost predicate Settled(v: View, pen: Pen, k: nat) {
    && 1 <= k <= Fits(v.cols, pen) && v.x == Span(pen, k)
    && (if Scrolls(v)
        then v.y == v.bottom && v.lines[v.bottom] == PartRow(v.cols, pen, k)
          && forall i :: v.top <= i < v.bottom ==> v.lines[i] == FullRow(v.cols, pen)
        else v.y == |v.lines| - 1 && v.lines[v.y] == FullRow(v.cols, pen))
  }

  /** The settled screen v with k characters in the cursor's row instead. */
  function Moved(v: View, pen: Pen, k: nat): View
    requires k <= Fits(v.cols, pen)
  {
    var at := v.(x := Span(pen, k));
    if Scrolls(v) then SetLine(at, v.bottom, PartRow(v.cols, pen, k)) else at
  }

  /** Another character in the cursor's row. */
  lemma SettledPut(v: View, pen: Pen, k0: nat, k: nat)
    requires Settled(v, pen, k0) && k < Fits(v.cols, pen)
    ensures v == Moved(v, pen, k0) && Span(pen, k) + pen.width == Span(pen, k + 1) <= v.cols
    ensures Put(Moved(v, pen, k), pen) == Moved(v, pen, k + 1)
  {
    hide PutRow, PartRow, FullRow;
    PutRows(v.cols, pen, k, v.lines[v.y]);
    assert v.lines == Moved(v, pen, k0).lines;
    assert Put(Moved(v, pen, k), pen).lines == Moved(v, pen, k + 1).lines;
  }

  /** The wrap a full row ends in brings the same rows again. */
  lemma SettledWrap(s: Screen, pen: Pen, k: nat)
    requires Settled(s.view, pen, k) && k == Fits(s.view.cols, pen)
    ensures NextLine(s, pen).view == Moved(s.view, pen, 0)
    ensures NextLine(s, pen).back == if Pushes(s.view) then s.back + [FullRow(s.view.cols, pen)] else s.back
  {
    var v := s.view;
    assert Begun(PartRow(v.cols, pen, k), pen, k);
    PadRows(v.cols, pen, PartRow(v.cols, pen, k));
    hide PadTail, PartRow, FullRow;
    assert NextLine(s, pen).view.lines == Moved(v, pen, 0).lines;
  }

  lemma SettledStep(s: Screen, pen: Pen, k: nat)
    requires Settled(s.view, pen, k)
    ensures var m := Fits(s.view.cols, pen); var next := if k < m then k + 1 else 1;
      && 1 <= m && Print(s, pen).view == Moved(s.view, pen, next) && Settled(Moved(s.view, pen, next), pen, next)
      && Print(s, pen).back == if k == m && Pushes(s.view) then s.back + [FullRow(s.view.cols, pen)] else s.back
  {
    hide NextLine, Put;
    if k < Fits(s.view.cols, pen) {
      SettledPut(s.view, pen, k, k);
    } else {
      SettledWrap(s, pen, k);
      SettledPut(s.view, pen, k, 0);
    }
  }

  lemma MovedTwice(v: View, pen: Pen, a: nat, b: nat)
    requires a <= Fits(v.cols, pen) && b <= Fits(v.cols, pen)
    ensures Moved(Moved(v, pen, a), pen, b) == Moved(v, pen, b) && Pushes(Moved(v, pen, a)) == Pushes(v)
  {
    assert Moved(Moved(v, pen, a), pen, b).lines == Moved(v, pen, b).lines;
  }

  /** t is s after n more characters: q rows were completed on the way and
      the cursor's row now holds c. */
  ghost predicate Ran(s: Screen, t: Screen, pen: Pen, k: nat, n: nat, q: nat, c: nat) {
    var m := Fits(s.view.cols, pen);
    && 1 <= c <= m && k + n == q * m + c
    && t.view == Moved(s.view, pen, c) && Settled(t.view, pen, c)
    && t.back == s.back + FullRows(s.view.cols, pen, if Pushes(s.view) then q else 0)
  }

  lemma RanStep(s: Screen, t: Screen, pen: Pen, k: nat, n: nat, q: nat, c: nat) returns (q': nat, c': nat)
    requires Ran(s, t, pen, k, n, q, c)
    ensures Ran(s, Print(t, pen), pen, k, n + 1, q', c')
  {
    hide Print;
    var cols, m := s.view.cols, Fits(s.view.cols, pen);
    assert t.view.cols == cols;
    q', c' := if c < m then q else q + 1, if c < m then c + 1 else 1;
    SettledStep(t, pen, c);
    MovedTwice(s.view, pen, c, c');
    MulSum(q, 1, m);
    assert FullRows(cols, pen, q) + [FullRow(cols, pen)] == FullRows(cols, pen, q + 1);
  }

  lemma {:induction false} SettledRun(s: Screen, pen: Pen, k: nat, n: nat) returns (q: nat, c: nat)
    requires Settled(s.view, pen, k)
    ensures Ran(s, PrintN(s, pen, n), pen, k, n, q, c)
    decreases n
  {
    if n == 0 {
      q, c := 0, k;
      SettledPut(s.view, pen, k, 0);
    } else {
      hide *;
      q, c := SettledRun(s, pen, k, n - 1);
      q, c := RanStep(s, PrintN(s, pen, n - 1), pen, k, n - 1, q, c);
      PrintNext(s, pen, n);
    }
  }

  // ----- every screen settles -----

  /** How many of the margins' rows have moved up after j wraps. */
  function Scrolled(v0: View, j: nat): nat {
    if v0.y + j > v0.bottom then v0.y + j - v0.bottom else 0
  }

  /** The screen after j wraps, with k characters in the cursor's row: the
      rows that the earlier wraps completed end just above the cursor. */
  ghost predicate Filling(v0: View, v: View, pen: Pen, j: nat, k: nat) {
    && SameFrame(v0, v)
    && 1 <= j && k <= Fits(v.cols, pen) && v.x == Span(pen, k)
    && Begun(v.lines[v.y], pen, k)
    && (if Scrolls(v0) then FillingScroll(v0, v, pen, j, k) else FillingBelow(v0, v, pen, j))
  }

  ghost predicate FillingScroll(v0: View, v: View, pen: Pen, j: nat, k: nat) {
    && v.y == (if v0.y + j < v.bottom then v0.y + j else v.bottom)
    && (Scrolled(v0, j) > 0 ==> v.lines[v.y] == PartRow(v.cols, pen, k))
    && forall i :: v.top <= i < v.y && v0.y < i + Scrolled(v0, j) ==> v.lines[i] == FullRow(v.cols, pen)
  }

  ghost predicate FillingBelow(v0: View, v: View, pen: Pen, j: nat) {
    && v.y == (if v0.y + j < |v.lines| then v0.y + j else |v.lines| - 1)
    && (2 <= j && |v.lines| <= v0.y + j ==> v.lines[v.y] == FullRow(v.cols, pen))
  }

  lemma FillPut(v0: View, v: View, pen: Pen, j: nat, k: nat)
    requires Filling(v0, v, pen, j, k) && k < Fits(v.cols, pen)
    ensures v.x + pen.width <= v.cols && Filling(v0, Put(v, pen), pen, j, k + 1)
  {
    hide PutRow, PartRow, FullRow, Begun;
    PutRows(v.cols, pen, k, v.lines[v.y]);
  }

  lemma FillWrap(v0: View, s: Screen, pen: Pen, j: nat)
    requires Filling(v0, s.view, pen, j, Fits(s.view.cols, pen))
    ensures Filling(v0, NextLine(s, pen).view, pen, j + 1, 0)
  {
    hide FullRow, PadTail;
    PadRows(s.view.cols, pen, s.view.lines[s.view.y]);
  }

  lemma FillStep(v0: View, s: Screen, pen: Pen, j: nat, k: nat)
    requires Filling(v0, s.view, pen, j, k)
    ensures if k < Fits(s.view.cols, pen) then Filling(v0, Print(s, pen).view, pen, j, k + 1)
            else Filling(v0, Print(s, pen).view, pen, j + 1, 1)
  {
    hide NextLine, Put, Begun, FillingScroll, FillingBelow;
    if k < Fits(s.view.cols, pen) {
      FillPut(v0, s.view, pen, j, k);
    } else {
      FillWrap(v0, s, pen, j);
      FillPut(v0, NextLine(s, pen).view, pen, j + 1, 0);
    }
  }

  /** How many characters still fit in the cursor's row. */
  function Room(v: View, pen: Pen): nat {
    Fits(v.cols - v.x, pen)
  }

  /** Before the first wrap only the cursor's row and column change. */
  lemma {:induction false} FirstRow(s: Screen, pen: Pen, n: nat)
    requires s.view.x + Span(pen, n) <= s.view.cols
    ensures PrintN(s, pen, n).view.y == s.view.y && PrintN(s, pen, n).view.x == s.view.x + Span(pen, n)
  {
    hide NextLine, PutRow;
    if n != 0 {
      FirstRow(s, pen, n - 1);
    }
  }

  lemma FirstWrap(v0: View, s: Screen, pen: Pen)
    requires SameFrame(v0, s.view) && s.view.y == v0.y && s.view.x + pen.width > s.view.cols
    ensures Filling(v0, Print(s, pen).view, pen, 1, 1)
  {
    hide Put, PadTail;
    assert Filling(v0, NextLine(s, pen).view, pen, 1, 0);
    FillPut(v0, NextLine(s, pen).view, pen, 1, 0);
  }

  /** After n characters, j wraps happened and k characters followed the last. */
  ghost predicate FillingAfter(s: Screen, pen: Pen, n: nat, j: nat, k: nat) {
    && 1 <= j && 1 <= k && Filling(s.view, PrintN(s, pen, n).view, pen, j, k)
    && n == Room(s.view, pen) + (j - 1) * Fits(s.view.cols, pen) + k
  }

  lemma FillFirst(s: Screen, pen: Pen)
    ensures FillingAfter(s, pen, Room(s.view, pen) + 1, 1, 1)
  {
    var room := Room(s.view, pen);
    hide Print, Filling;
    FirstRow(s, pen, room);
    FirstWrap(s.view, PrintN(s, pen, room), pen);
  }

  lemma FillNext(s: Screen, pen: Pen, n: nat, j: nat, k: nat) returns (j': nat, k': nat)
    requires FillingAfter(s, pen, n, j, k)
    ensures FillingAfter(s, pen, n + 1, j', k')
  {
    hide PrintN;
    var m, t := Fits(s.view.cols, pen), PrintN(s, pen, n);
    assert k <= m == Fits(t.view.cols, pen);
    PrintNext(s, pen, n + 1);
    FillStep(s.view, t, pen, j, k);
    j', k' := if k < m then j else j + 1, if k < m then k + 1 else 1;
    MulSum(j - 1, 1, m);
  }

  /** Once the cursor's row is used up the screen is filling. */
  lemma {:induction false} Fill(s: Screen, pen: Pen, n: nat) returns (j: nat, k: nat)
    requires n > Room(s.view, pen)
    ensures FillingAfter(s, pen, n, j, k)
    decreases n
  {
    hide *;
    if n == Room(s.view, pen) + 1 {
      FillFirst(s, pen);
      j, k := 1, 1;
    } else {
      j, k := Fill(s, pen, n - 1);
      j, k := FillNext(s, pen, n - 1, j, k);
    }
  }

  lemma FillSettles(v0: View, v: View, pen: Pen, j: nat, k: nat)
    requires Filling(v0, v, pen, j, k) && 1 <= k && |v.lines| <= j
    ensures Settled(v, pen, k) && Pushes(v) == Pushes(v0)
  {
    hide PartRow, FullRow, Begun;
  }

  /** The characters in a screen of rows and one row more. */
  function ScreenAndRow(cols: nat, rows: nat): nat {
    (rows + 1) * cols
  }

  lemma EnoughWraps(s: Screen, pen: Pen, n: nat, j: nat, k: nat)
    requires FillingAfter(s, pen, n, j, k) && n >= ScreenAndRow(s.view.cols, |s.view.lines|)
    ensures |s.view.lines| <= j
  {
    var cols, rows, m, room := s.view.cols, |s.view.lines|, Fits(s.view.cols, pen), Room(s.view, pen);
    assert room <= m <= cols && k <= m;
    hide Filling, Room, Fits;
    MulSum(rows - 2, 3, m);
    MulMono(m, cols, rows + 1);
    if j < rows {
      MulMono(j - 1, rows - 2, m);
      assert false;
    }
  }

  /** Whatever the screen and the cursor were, a screen and a row of one
      character settle it, and the wraps then push or drop rows as the first
      one would have. */
  lemma Settles(s: Screen, pen: Pen, n: nat) returns (k: nat)
    requires n >= ScreenAndRow(s.view.cols, |s.view.lines|)
    ensures Settled(PrintN(s, pen, n).view, pen, k) && Pushes(PrintN(s, pen, n).view) == Pushes(s.view)
  {
    RoomBelow(s.view, pen);
    var j;
    j, k := Fill(s, pen, n);
    EnoughWraps(s, pen, n, j, k);
    assert |PrintN(s, pen, n).view.lines| == |s.view.lines|;
    FillSettles(s.view, PrintN(s, pen, n).view, pen, j, k);
  }

  // ----- the rule -----

  /** Euclid's greatest common divisor, as the view computes it. */
  function Divisor(a: nat, b: nat): nat
    decreases b
  {
    if b == 0 then a else Divisor(b, a % b)
  }

  lemma {:induction false} DivisorDivides(a: nat, b: nat)
    requires 0 < a
    ensures 0 < Divisor(a, b) && Divides(Divisor(a, b), a) && Divides(Divisor(a, b), b)
    decreases b
  {
    hide Divides;
    var d := Divisor(a, b);
    if b == 0 {
      DividesTimes(d, 1);
      DividesTimes(d, 0);
    } else {
      DivisorDivides(b, a % b);
      DivMod(a, b);
      DividesSum(d, b, a % b, a / b);
    }
  }

  datatype Rule = Rule(period: nat, settled: nat)

  function Half(cols: nat): (half: nat)
    ensures 1 <= half
  {
    if cols / 2 < 1 then 1 else cols / 2
  }

  function Period(cols: Cols): nat {
    DivisorDivides(cols, Half(cols));
    var times: nat := cols / Divisor(cols, Half(cols));
    times * Half(cols)
  }

  function RepeatRule(cols: Cols, rows: nat): Rule {
    Rule(Period(cols), (2 * rows + 1) * cols + Period(cols))
  }

  function PerPeriod(cols: Cols, pen: Pen): int {
    Period(cols) / Fits(cols, pen)
  }

  /** A period is whole rows of one-column characters and whole rows of
      two-column ones, whether the number of columns is even or odd. */
  lemma PeriodIsWholeRows(cols: Cols, pen: Pen)
    ensures 1 <= PerPeriod(cols, pen) && Period(cols) == PerPeriod(cols, pen) * Fits(cols, pen)
    ensures 1 <= Period(cols)
  {
    var half, m := Half(cols), Fits(cols, pen);
    var d := Divisor(cols, half);
    DivisorDivides(cols, half);
    var c: nat :| cols == c * d;
    var h: nat :| half == h * d;
    DivUnique(cols, d, c, 0);
    MulAssoc(c, h, d);
    MulAssoc(h, c, d);
    var perPeriod := if pen.width == 2 then c else h;
    assert perPeriod != 0;
    DivUnique(Period(cols), m, perPeriod, 0);
    MulMono(1, perPeriod, m);
  }

  /** The count a longer repeat is cut to, and the whole periods left out. */
  function Kept(rule: Rule, count: nat): nat
    requires 1 <= rule.period && rule.settled < count
  {
    rule.settled + (count - rule.settled) % rule.period
  }

  function Omitted(rule: Rule, count: nat): nat
    requires 1 <= rule.period && rule.settled < count
  {
    (count - rule.settled) / rule.period
  }

  /** What is kept is bounded whatever the count is, and nothing is lost. */
  lemma KeptBounds(rule: Rule, count: nat)
    requires 1 <= rule.period && rule.settled < count
    ensures rule.settled <= Kept(rule, count) < rule.settled + rule.period
    ensures count == Kept(rule, count) + Omitted(rule, count) * rule.period
    ensures (count - Kept(rule, count)) / rule.period == Omitted(rule, count)
  {
    DivMod(count - rule.settled, rule.period);
    DivUnique(count - Kept(rule, count), rule.period, Omitted(rule, count), 0);
  }

  /** Rows left out of the scrollback with some periods of a character. */
  function RowsLeftOut(cols: Cols, width: nat, periods: nat): int
    requires 1 <= width <= 2
  {
    periods * Period(cols) / (cols / width)
  }

  lemma WholeRowsLeftOut(cols: Cols, pen: Pen, periods: nat)
    ensures 0 <= RowsLeftOut(cols, pen.width, periods) == periods * PerPeriod(cols, pen)
  {
    PeriodIsWholeRows(cols, pen);
    hide Period, PerPeriod;
    assert cols / pen.width == Fits(cols, pen);
    MulAssoc(periods, PerPeriod(cols, pen), Fits(cols, pen));
    MulMono(0, periods, PerPeriod(cols, pen));
    DivUnique(periods * Period(cols), Fits(cols, pen), periods * PerPeriod(cols, pen), 0);
  }

  // ----- the main result -----

  /** The scrollback only grows, and not at all where no row scrolls off. */
  ghost predicate Appends(s: Screen, t: Screen) {
    && s.back <= t.back
    && (!Pushes(s.view) ==> !Pushes(t.view) && t.back == s.back)
  }

  lemma PrintAppends(s: Screen, pen: Pen)
    ensures Appends(s, Print(s, pen))
  {
    hide PartRow, PadTail, PutRow;
  }

  lemma AppendsThen(s: Screen, t: Screen, u: Screen)
    requires Appends(s, t) && Appends(t, u)
    ensures Appends(s, u)
  {
    hide Pushes;
  }

  lemma {:induction false} PrintsAppend(s: Screen, pen: Pen, n: nat)
    ensures Appends(s, PrintN(s, pen, n))
    decreases n
  {
    hide PrintN;
    if n == 0 {
      PrintNone(s, pen);
    } else {
      PrintNext(s, pen, n);
      PrintsAppend(s, pen, n - 1);
      PrintAppends(PrintN(s, pen, n - 1), pen);
      AppendsThen(s, PrintN(s, pen, n - 1), PrintN(s, pen, n));
    }
  }

  /** The characters in n rows. */
  function CharsIn(cols: nat, pen: Pen, n: nat): nat {
    n * Fits(cols, pen)
  }

  /** The counts from the settled screen to the ends of both prints. */
  lemma KeptRoom(cols: Cols, rows: nat, pen: Pen, count: nat) returns (a: nat, b: nat, left: nat)
    requires RepeatRule(cols, rows).settled < count
    ensures 1 <= RepeatRule(cols, rows).period
    ensures left == RowsLeftOut(cols, pen.width, Omitted(RepeatRule(cols, rows), count))
    ensures Kept(RepeatRule(cols, rows), count) == ScreenAndRow(cols, rows) + a
    ensures count == ScreenAndRow(cols, rows) + b
    ensures b == a + CharsIn(cols, pen, left) && CharsIn(cols, pen, rows + 1) <= a
  {
    var rule := RepeatRule(cols, rows);
    var m, p := Fits(cols, pen), PerPeriod(cols, pen);
    PeriodIsWholeRows(cols, pen);
    KeptBounds(rule, count);
    WholeRowsLeftOut(cols, pen, Omitted(rule, count));
    MulSum(2 * rows, 1, cols);
    MulSum(rows, rows, cols);
    MulSum(rows, 1, cols);
    MulMono(m, cols, rows);
    MulMono(1, p, m);
    MulSum(rows, 1, m);
    MulAssoc(Omitted(rule, count), p, m);
    hide Period, PerPeriod, Kept, Omitted, Fits;
    left := RowsLeftOut(cols, pen.width, Omitted(rule, count));
    a, b := Kept(rule, count) - ScreenAndRow(cols, rows), count - ScreenAndRow(cols, rows);
  }

  /** Settled screens a whole number of rows apart. */
  lemma FromSettled(s: Screen, pen: Pen, k: nat, a: nat, b: nat, more: nat) returns (q: nat)
    requires Settled(s.view, pen, k) && b == a + CharsIn(s.view.cols, pen, more)
    ensures PrintN(s, pen, a).view == PrintN(s, pen, b).view && exists c :: Settled(PrintN(s, pen, a).view, pen, c)
    ensures a < CharsIn(s.view.cols, pen, q + 1) && Pushes(PrintN(s, pen, a).view) == Pushes(s.view)
    ensures PrintN(s, pen, a).back == s.back + FullRows(s.view.cols, pen, if Pushes(s.view) then q else 0)
    ensures PrintN(s, pen, b).back
         == PrintN(s, pen, a).back + FullRows(s.view.cols, pen, if Pushes(s.view) then more else 0)
  {
    hide PrintN;
    var m := Fits(s.view.cols, pen);
    var c;
    q, c := SettledRun(s, pen, k, a);
    var q2, c2 := SettledRun(s, pen, k, b);
    MovedTwice(s.view, pen, c, c);
    MulSum(q, more, m);
    DivUnique(k + b - 1, m, q2, c2 - 1);
    DivUnique(k + b - 1, m, q + more, c - 1);
    MulSum(q, 1, m);
  }

  /** The last n rows that scrolled off are all full rows of the character. */
  ghost predicate EndsFull(back: seq<Row>, row: Row, n: nat) {
    n <= |back| && forall i :: |back| - n <= i < |back| ==> back[i] == row
  }

  lemma RowsPushed(back: seq<Row>, settled: seq<Row>, cols: nat, pen: Pen, q: nat, a: nat, rows: nat)
    requires back <= settled && CharsIn(cols, pen, rows + 1) <= a < CharsIn(cols, pen, q + 1)
    ensures EndsFull(settled + FullRows(cols, pen, q), FullRow(cols, pen), rows)
    ensures back < settled + FullRows(cols, pen, q)
  {
    var m := Fits(cols, pen);
    hide Fits, FullRow;
    if q <= rows {
      MulMono(q + 1, rows + 1, m);
      assert false;
    }
  }

  /** Two prints of one character on s end alike: full did what short did
      and pushed `left` more full rows, if the margins let rows scroll off. */
  ghost predicate SameButForRows(s: Screen, pen: Pen, short: Screen, full: Screen, left: nat) {
    && full.view == short.view
    && (exists c :: Settled(short.view, pen, c)) && Pushes(short.view) == Pushes(s.view)
    && (if Pushes(s.view)
        then full.back == short.back + FullRows(s.view.cols, pen, left)
          && s.back < short.back && EndsFull(short.back, FullRow(s.view.cols, pen), |s.view.lines|)
        else full.back == short.back == s.back)
  }

  lemma SameEnd(s: Screen, pen: Pen, n: nat, k: nat, a: nat, b: nat, left: nat)
    requires Settled(PrintN(s, pen, n).view, pen, k) && Pushes(PrintN(s, pen, n).view) == Pushes(s.view)
    requires b == a + CharsIn(s.view.cols, pen, left) && CharsIn(s.view.cols, pen, |s.view.lines| + 1) <= a
    ensures SameButForRows(s, pen, PrintN(s, pen, n + a), PrintN(s, pen, n + b), left)
  {
    hide PrintN;
    var t := PrintN(s, pen, n);
    assert t.view.cols == s.view.cols;
    PrintSum(s, pen, n, a);
    PrintSum(s, pen, n, b);
    PrintsAppend(s, pen, n);
    var q := FromSettled(t, pen, k, a, b, left);
    if Pushes(s.view) {
      RowsPushed(s.back, t.back, s.view.cols, pen, q, a, |s.view.lines|);
    } else {
      PrintsAppend(s, pen, n + a);
      PrintsAppend(s, pen, n + b);
    }
  }

  /** The main result.  Cutting a long repeat to Kept changes neither the
      screen nor the cursor, whatever they were and wherever the margins are.
      All that is missing is a run of full rows at the scrollback's end, as
      many as the periods left out hold, or none where the margins keep rows
      from scrolling off.  What was kept already pushed a screen of full rows. */
  lemma ShortenedRepeat(s: Screen, pen: Pen, count: nat)
    requires RepeatRule(s.view.cols, |s.view.lines|).settled < count
    ensures 1 <= RepeatRule(s.view.cols, |s.view.lines|).period
    ensures var rule := RepeatRule(s.view.cols, |s.view.lines|);
      var left := RowsLeftOut(s.view.cols, pen.width, Omitted(rule, count));
      0 <= left && SameButForRows(s, pen, PrintN(s, pen, Kept(rule, count)), PrintN(s, pen, count), left)
  {
    hide *;
    var cols, rows := s.view.cols, |s.view.lines|;
    var a, b, left := KeptRoom(cols, rows, pen, count);
    var k := Settles(s, pen, ScreenAndRow(cols, rows));
    SameEnd(s, pen, ScreenAndRow(cols, rows), k, a, b, left);
  }

  /** The copies are drawn like the row at the screen's top.  That row is the
      full row on every screen of two rows or more.  A screen of one row shows
      the cursor's row there, which is full only right before it wraps. */
  lemma TopRowIsFull(v: View, pen: Pen, k: nat)
    requires Settled(v, pen, k) && Pushes(v)
    ensures |v.lines| > 1 || (k == Fits(v.cols, pen) && (Span(pen, k) == v.cols || pen.style == pen.erase)) ==>
      v.lines[0] == FullRow(v.cols, pen)
    ensures v.lines[0] == FullRow(v.cols, pen) && pen.chars != "" ==>
      |v.lines| > 1 || (k == Fits(v.cols, pen) && (Span(pen, k) == v.cols || pen.style == pen.erase))
    ensures v.lines[0].wrapped && |v.lines[0].cells| == v.cols && v.lines[0].cells[0] == GlyphCell(pen)
  {
    var m := Fits(v.cols, pen);
    var full, part := FullRow(v.cols, pen), PartRow(v.cols, pen, k);
    if |v.lines| == 1 {
      if k < m {
        assert full.cells[Span(pen, k)] == GlyphCell(pen) && part.cells[Span(pen, k)] == EraseCell(pen);
      } else if Span(pen, m) < v.cols {
        assert full.cells[Span(pen, m)] == PadCell(pen) && part.cells[Span(pen, m)] == EraseCell(pen);
      }
      if k == m && (Span(pen, k) == v.cols || pen.style == pen.erase) {
        assert full.cells == part.cells;
      }
    }
  }

  /** A print of this many characters uses up its last row, which is then drawn
      like a row that wrapped. */
  predicate EndsFullRow(v: View, pen: Pen, count: nat) {
    && Room(v, pen) < count && (count - Room(v, pen)) % Fits(v.cols, pen) == 0
    && (Span(pen, Fits(v.cols, pen)) == v.cols || pen.style == pen.erase)
  }

  /** How many characters stand in the last row of a print that wrapped. */
  lemma LandsAt(s: Screen, pen: Pen, n: nat, k: nat)
    requires n > Room(s.view, pen) && Settled(PrintN(s, pen, n).view, pen, k)
    ensures k == Fits(s.view.cols, pen) <==> (n - Room(s.view, pen)) % Fits(s.view.cols, pen) == 0
  {
    hide *;
    var m := Fits(s.view.cols, pen);
    var j, k' := Fill(s, pen, n);
    SameColumn(s, pen, n, j, k', k);
    ModShift(k, j - 1, m);
    InRowMod(k, m);
  }

  lemma SameColumn(s: Screen, pen: Pen, n: nat, j: nat, k: nat, c: nat)
    requires FillingAfter(s, pen, n, j, k) && Settled(PrintN(s, pen, n).view, pen, c)
    ensures k == c && 1 <= k <= Fits(s.view.cols, pen)
    ensures n - Room(s.view, pen) == k + (j - 1) * Fits(s.view.cols, pen)
  {
    hide PrintN, Room, FillingScroll, FillingBelow, Begun, PartRow, FullRow;
  }

  lemma InRowMod(k: nat, m: nat)
    requires 1 <= k <= m
    ensures k % m == 0 <==> k == m
  {
  }

  /** Periods leave the place in the row as it is. */
  lemma SamePlace(v: View, pen: Pen, count: nat)
    requires RepeatRule(v.cols, |v.lines|).settled < count
    ensures 1 <= RepeatRule(v.cols, |v.lines|).period
    ensures var kept := Kept(RepeatRule(v.cols, |v.lines|), count);
      Room(v, pen) < kept && EndsFullRow(v, pen, count) == EndsFullRow(v, pen, kept)
  {
    hide RepeatRule, Kept, ScreenAndRow, Room, Fits, RowsLeftOut, Omitted;
    var a, b, left := KeptRoom(v.cols, |v.lines|, pen, count);
    RoomBelow(v, pen);
    ModShift(Kept(RepeatRule(v.cols, |v.lines|), count) - Room(v, pen), left, Fits(v.cols, pen));
  }

  lemma RoomBelow(v: View, pen: Pen)
    ensures Room(v, pen) < ScreenAndRow(v.cols, |v.lines|)
  {
    MulMono(1, |v.lines| + 1, v.cols);
    MulSum(|v.lines|, 1, v.cols);
    MulMono(1, |v.lines|, v.cols);
  }

  /** Whether a shortened repeat leaves the full row at the screen's top can be
      told before it is printed. */
  lemma TopRowAfter(s: Screen, pen: Pen, count: nat)
    requires RepeatRule(s.view.cols, |s.view.lines|).settled < count && Pushes(s.view)
    ensures 1 <= RepeatRule(s.view.cols, |s.view.lines|).period
    ensures
      var rule := RepeatRule(s.view.cols, |s.view.lines|);
      var top := PrintN(s, pen, Kept(rule, count)).view.lines[0];
      && top.wrapped && |top.cells| == s.view.cols && top.cells[0] == GlyphCell(pen)
      && (|s.view.lines| > 1 || EndsFullRow(s.view, pen, count) ==> top == FullRow(s.view.cols, pen))
      && (top == FullRow(s.view.cols, pen) && pen.chars != "" ==> |s.view.lines| > 1 || EndsFullRow(s.view, pen, count))
  {
    hide PrintN, RepeatRule, Kept, ScreenAndRow, Room, Settled;
    SamePlace(s.view, pen, count);
    var rule := RepeatRule(s.view.cols, |s.view.lines|);
    var kept := Kept(rule, count);
    KeptSettles(s.view.cols, |s.view.lines|, pen, count);
    var k := Settles(s, pen, kept);
    LandsAt(s, pen, kept, k);
    TopRowIsFull(PrintN(s, pen, kept).view, pen, k);
  }

  lemma KeptSettles(cols: Cols, rows: nat, pen: Pen, count: nat)
    requires RepeatRule(cols, rows).settled < count
    ensures 1 <= RepeatRule(cols, rows).period && ScreenAndRow(cols, rows) <= Kept(RepeatRule(cols, rows), count)
  {
    var a, b, left := KeptRoom(cols, rows, pen, count);
  }
}
