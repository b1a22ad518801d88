/** Saved output read back whole: segments are parsed in terminals that trim
    and shorten, and read as if nothing had been trimmed or shortened. */
module SavedOutput {
  import opened Basics
  import opened RepeatScreen
  import opened RowBudget
  import opened LeftOutRows
  import opened SavedTerminal

  /** What any other output does: the rows it scrolls off, the view it leaves,
      and what else the terminal remembers (modes, a saved cursor, the alternate
      screen). */
  datatype Effect<+H> = Effect(pushed: seq<Row>, view: View, hidden: H)

  /** A step of a segment's output: a repeat, on the normal screen, of the
      character before it, or anything else. */
  datatype Op<!H> = Other(effect: (H, View) -> Effect<H>) | Repeat(pen: Pen, count: nat)

  /** A terminal that forgets nothing, with all it remembers. */
  datatype Moment<+H> = Moment(screen: Screen, hidden: H)

  /** Output never resizes the terminal. */
  ghost predicate Keeps<H(!new)>(op: Op<H>) {
    op.Other? ==> forall hidden: H, v: View :: SameSize(v, op.effect(hidden, v).view)
  }

  ghost predicate KeepAll<H(!new)>(ops: seq<Op<H>>) {
    forall i :: 0 <= i < |ops| ==> Keeps(ops[i])
  }

  predicate SameSize(v: View, w: View) {
    v.cols == w.cols && |v.lines| == |w.lines|
  }

  /** The step in a terminal that forgets nothing. */
  function Run<H>(m: Moment<H>, op: Op<H>): Moment<H> {
    match op
    case Other(effect) =>
      var e := effect(m.hidden, m.screen.view);
      Moment(Screen(m.screen.back + e.pushed, e.view), e.hidden)
    case Repeat(pen, count) => m.(screen := PrintN(m.screen, pen, count))
  }

  function RunAll<H>(m: Moment<H>, ops: seq<Op<H>>): Moment<H> {
    if ops == [] then m else Run(RunAll(m, ops[..|ops| - 1]), ops[|ops| - 1])
  }

  function Rows(s: Screen): seq<Row> {
    s.back + s.view.lines
  }

  /** Printing does not look at the rows that scrolled off. */
  lemma {:induction false} BackIrrelevant(s: Screen, pen: Pen, n: nat)
    ensures PrintN(s, pen, n).view == PrintN(Screen([], s.view), pen, n).view
    ensures PrintN(s, pen, n).back == s.back + PrintN(Screen([], s.view), pen, n).back
    decreases n
  {
    hide *;
    if n == 0 {
      PrintNone(s, pen);
      PrintNone(Screen([], s.view), pen);
    } else {
      BackIrrelevant(s, pen, n - 1);
      PrintNext(s, pen, n);
      PrintNext(Screen([], s.view), pen, n);
      PrintBack(PrintN(s, pen, n - 1), s.back, PrintN(Screen([], s.view), pen, n - 1), pen);
    }
  }

  lemma NextLineBack(s: Screen, back: seq<Row>, t: Screen, pen: Pen)
    requires s.view == t.view && s.back == back + t.back
    ensures NextLine(s, pen).view == NextLine(t, pen).view && NextLine(s, pen).back == back + NextLine(t, pen).back
  {
    hide PadTail, PartRow;
    var v := SetLine(s.view, s.view.y, PadTail(s.view.lines[s.view.y], s.view.x, pen)).(x := 0);
    assert back + t.back + [v.lines[0]] == back + (t.back + [v.lines[0]]);
  }

  lemma PrintBack(s: Screen, back: seq<Row>, t: Screen, pen: Pen)
    requires s.view == t.view && s.back == back + t.back
    ensures Print(s, pen).view == Print(t, pen).view && Print(s, pen).back == back + Print(t, pen).back
  {
    NextLineBack(s, back, t, pen);
    hide NextLine, Put;
  }

  // ----- the terminal that was not shortened, step by step -----

  lemma {:induction false} SameCopies(rows: seq<Row>, left: Runs, more: Runs, a: nat)
    requires a <= |rows| && forall k :: k < a ==> (k in left <==> k in more) && (k in left ==> left[k] == more[k])
    ensures Expand(rows, left, 0, a) == Expand(rows, more, 0, a)
    decreases a
  {
    if a != 0 {
      SameCopies(rows, left, more, a - 1);
    }
  }

  /** Output above the screen's rows appends to the unshortened terminal. */
  lemma AllOutput(p: Past, p': Past, pushed: seq<Row>, view: seq<Row>)
    requires |view| <= |p.history| && p'.left == p.left && (forall k :: k in p.left ==> k + |view| < |p.history|)
    requires p'.history == p.history[..|p.history| - |view|] + pushed + view
    ensures |view| <= |All(p)| && All(p') == All(p)[..|All(p)| - |view|] + pushed + view
  {
    hide CopiesAt, Expand, Length;
    var a := |p.history| - |view|;
    NothingBelow(p.history, p.left, 0, a, |p.history|);
    NothingBelow(p'.history, p.left, 0, a, |p'.history|);
    ExpandSame(p.history, p'.history, p.left, 0, a);
    assert p'.history[a..] == pushed + view;
  }

  /** A recorded run appends its copies above the screen. */
  lemma AllRecorded(p: Past, p': Past, at: nat, run: LeftOutRows.Run, screen: nat)
    requires p'.history == p.history && p'.left == p.left[at := run] && at + screen + 1 == |p.history|
    requires forall k :: k in p.left ==> k < at
    ensures screen <= |All(p)|
    ensures All(p') == All(p)[..|All(p)| - screen] + seq(run.count, i => run.row) + p.history[at + 1..]
  {
    hide CopiesAt, Expand, Length;
    var h := p.history;
    NothingBelow(h, p.left, 0, at + 1, |h|);
    NothingBelow(h, p'.left, 0, at + 1, |h|);
    AtCopies(h, p.left, at, run);
    assert (Expand(h, p.left, 0, at + 1) + h[at + 1..])[..at + 1 + Length(p.left, 0, at + 1) - (at + 1)]
      == Expand(h, p.left, 0, at + 1) by { ExpandLength(h, p.left, 0, at + 1); }
  }

  lemma AtCopies(h: seq<Row>, left: Runs, at: nat, run: LeftOutRows.Run)
    requires at < |h| && forall k :: k in left ==> k < at
    ensures Expand(h, left[at := run], 0, at + 1) == Expand(h, left, 0, at + 1) + seq(run.count, i => run.row)
  {
    SameCopies(h, left, left[at := run], at);
    assert CopiesAt(left, 0, at) == [] && CopiesAt(left[at := run], 0, at) == seq(run.count, i => run.row);
    hide CopiesAt;
  }

  // ----- one segment -----

  /** The terminal's past is that of `full`, which was neither trimmed nor
      shortened, and whose screen it shows. */
  ghost predicate Follows(p: Past, full: Screen, screen: nat) {
    && |full.view.lines| == screen <= |p.history| && All(p) == Rows(full)
    && p.history[|p.history| - screen..] == full.view.lines
    && (forall k :: k in p.left ==> k + screen < |p.history|)
  }

  lemma OutputFollows(p: Past, p': Past, full: Screen, pushed: seq<Row>, view: View, screen: nat)
    requires Follows(p, full, screen) && |view.lines| == screen && p'.left == p.left
    requires p'.history == p.history[..|p.history| - screen] + pushed + view.lines
    ensures Follows(p', Screen(full.back + pushed, view), screen)
  {
    AllOutput(p, p', pushed, view.lines);
    hide All;
    assert Rows(full)[..|Rows(full)| - screen] == full.back;
    assert p'.history[|p'.history| - screen..] == view.lines;
  }

  lemma RecordFollows(p: Past, p': Past, full: Screen, at: nat, run: LeftOutRows.Run, screen: nat)
    requires Follows(p, full, screen) && p'.history == p.history && p'.left == p.left[at := run]
    requires at + screen + 1 == |p.history| && forall k :: k in p.left ==> k < at
    ensures Follows(p', Screen(full.back + seq(run.count, i => run.row), full.view), screen)
  {
    AllRecorded(p, p', at, run, screen);
    hide All;
    assert Rows(full)[..|Rows(full)| - screen] == full.back;
    assert p.history[at + 1..] == full.view.lines;
  }

  /** A long repeat on view v was cut to `short`: p0 before it, p1 after. */
  ghost predicate CutShort(p0: Past, p1: Past, full: Screen, pen: Pen, count: nat, short: Screen, screen: nat) {
    var v := full.view; var rule := RepeatRule(v.cols, screen);
    && Follows(p0, full, screen) && rule.settled < count && 1 <= rule.period
    && short == PrintN(Screen([], v), pen, RepeatScreen.Kept(rule, count))
    && p1.history == p0.history[..|p0.history| - screen] + short.back + short.view.lines && p1.left == p0.left
    && p1.mark == |p0.history| - screen
  }

  function PeriodsLeftOut(cols: Cols, screen: nat, count: nat): nat {
    var rule := RepeatRule(cols, screen);
    if 1 <= rule.period && rule.settled < count then Omitted(rule, count) else 0
  }

  /** The rows that a shortened repeat leaves out. */
  function LeftOutBy(v: View, pen: Pen, count: nat): int {
    RowsLeftOut(v.cols, pen.width, PeriodsLeftOut(v.cols, |v.lines|, count))
  }

  /** A repeat whose rows are put back as they were: any on two rows or more,
      and on one row those that leave out nothing or end right before wrapping. */
  predicate Restored(v: View, pen: Pen, count: nat) {
    |v.lines| > 1 || LeftOutBy(v, pen, count) == 0 || EndsFullRow(v, pen, count)
  }

  lemma CutShortRows(p0: Past, p1: Past, full: Screen, pen: Pen, count: nat, short: Screen, screen: nat)
    requires CutShort(p0, p1, full, pen, count, short, screen)
    ensures SameSize(full.view, short.view) && |full.view.lines| == screen <= |p0.history| && screen >= 1
    ensures 0 <= LeftOutBy(full.view, pen, count)
    ensures SameButForRows(Screen([], full.view), pen, short, PrintN(Screen([], full.view), pen, count),
      LeftOutBy(full.view, pen, count))
  {
    assert |full.view.lines| == screen <= |p0.history|;
    ShortenedRepeat(Screen([], full.view), pen, count);
    assert SameSize(full.view, short.view);
  }

  /** The row at the top of the screen that a shortened repeat left. */
  lemma CutShortTop(p0: Past, p1: Past, full: Screen, pen: Pen, count: nat, short: Screen, screen: nat)
    requires CutShort(p0, p1, full, pen, count, short, screen) && Pushes(full.view) && |full.view.lines| == screen
    ensures |short.view.lines| > 0
    ensures
      var top := short.view.lines[0];
      && top.wrapped && |top.cells| == full.view.cols && top.cells[0] == GlyphCell(pen)
      && (screen > 1 || EndsFullRow(full.view, pen, count) ==> top == FullRow(full.view.cols, pen))
  {
    hide PrintN, RepeatRule, EndsFullRow;
    TopRowAfter(Screen([], full.view), pen, count);
  }

  lemma CutShortFollows(p0: Past, p1: Past, full: Screen, pen: Pen, count: nat, short: Screen, screen: nat)
    requires CutShort(p0, p1, full, pen, count, short, screen)
    ensures Follows(p1, Screen(full.back + short.back, short.view), screen)
    ensures Pushes(full.view) <==> p1.mark < |p1.history| - screen
    ensures p1.mark >= 0 && p1.mark == |p0.history| - screen
  {
    CutShortRows(p0, p1, full, pen, count, short, screen);
    assert |short.view.lines| == screen;
    OutputFollows(p0, p1, full, short.back, short.view, screen);
    assert Pushes(full.view) <==> short.back != [];
  }

  /** The full repeat shows what the short one does, and pushed the left-out rows too. */
  lemma CutShortFull(p0: Past, p1: Past, full: Screen, pen: Pen, count: nat, short: Screen, screen: nat)
    requires CutShort(p0, p1, full, pen, count, short, screen)
    ensures
      var left := LeftOutBy(full.view, pen, count);
      var rows := if Pushes(full.view) && left >= 0 then FullRows(full.view.cols, pen, left) else [];
      PrintN(full, pen, count) == Screen(full.back + short.back + rows, short.view)
  {
    hide CutShort, EndsFull, FullRow, FullRows, PeriodsLeftOut, PrintN, Pushes, RowsLeftOut, Settled;
    CutShortRows(p0, p1, full, pen, count, short, screen);
    BackIrrelevant(full, pen, count);
  }

  /** The rows of a shortened repeat as they are read back: the rows left out
      are copies of the one at the screen's top. */
  function AsRead(full: Screen, pen: Pen, count: nat): Screen {
    var rule := RepeatRule(full.view.cols, |full.view.lines|);
    if 1 <= rule.period && rule.settled < count then
      var short := PrintN(Screen([], full.view), pen, RepeatScreen.Kept(rule, count));
      var left := LeftOutBy(full.view, pen, count);
      var copies :=
        if Pushes(full.view) && left >= 0 && short.view.lines != [] then seq(left, _ => short.view.lines[0]) else [];
      Screen(full.back + short.back + copies, short.view)
    else PrintN(full, pen, count)
  }

  lemma AsReadIs(p0: Past, p1: Past, full: Screen, pen: Pen, count: nat, short: Screen, screen: nat)
    requires CutShort(p0, p1, full, pen, count, short, screen)
    ensures
      var left := LeftOutBy(full.view, pen, count);
      var copies :=
        if Pushes(full.view) && left >= 0 && short.view.lines != [] then seq(left, _ => short.view.lines[0]) else [];
      AsRead(full, pen, count) == Screen(full.back + short.back + copies, short.view)
  {
    CutShortRows(p0, p1, full, pen, count, short, screen);
    hide PrintN, LeftOutBy;
  }

  /** Where the top row is the full one, that is the full repeat. */
  lemma ReadsInFull(p0: Past, p1: Past, full: Screen, pen: Pen, count: nat, short: Screen, screen: nat)
    requires CutShort(p0, p1, full, pen, count, short, screen)
    ensures AsRead(full, pen, count).view == PrintN(full, pen, count).view
    ensures Restored(full.view, pen, count) ==> AsRead(full, pen, count) == PrintN(full, pen, count)
  {
    hide CutShort, PrintN, LeftOutBy, Pushes, EndsFullRow, FullRow, AsRead;
    CutShortRows(p0, p1, full, pen, count, short, screen);
    AsReadIs(p0, p1, full, pen, count, short, screen);
    CutShortFull(p0, p1, full, pen, count, short, screen);
    var left := LeftOutBy(full.view, pen, count);
    if Pushes(full.view) && Restored(full.view, pen, count) {
      CutShortTop(p0, p1, full, pen, count, short, screen);
      assert seq(left as nat, _ => short.view.lines[0]) == FullRows(full.view.cols, pen, left);
    }
  }

  /** On two rows or more the rows above the screen repeat the full row, so the
      copies are backed. */
  lemma CopiesBacked(p0: Past, p1: Past, full: Screen, pen: Pen, count: nat, short: Screen, screen: nat)
    requires CutShort(p0, p1, full, pen, count, short, screen) && Pushes(full.view)
    ensures screen < |p1.history| && short.view.lines != [] && LeftOutBy(full.view, pen, count) >= 0
    ensures
      var at: nat := |p1.history| - screen - 1;
      Backed(p1.history, map[at := LeftOutRows.Run(LeftOutBy(full.view, pen, count), short.view.lines[0])], screen, at)
  {
    CutShortRows(p0, p1, full, pen, count, short, screen);
    CutShortTop(p0, p1, full, pen, count, short, screen);
    hide FullRow, PrintN, LeftOutBy, EndsFullRow, RepeatRule;
    var w, row, at := p0.history[..|p0.history| - screen], FullRow(full.view.cols, pen), |p1.history| - screen - 1;
    assert p1.history == w + short.back + short.view.lines;
    if screen > 1 {
      assert EndsFull(short.back, row, screen);
      forall i | at + 1 - screen <= i <= at
        ensures p1.history[i] == row
      {
        assert p1.history[i] == short.back[i - |w|];
      }
    }
  }

  lemma CutShortLeft(p0: Past, p1: Past, full: Screen, pen: Pen, count: nat, short: Screen, screen: nat, at: nat)
    requires CutShort(p0, p1, full, pen, count, short, screen) && p1.mark <= at
    ensures forall k :: k in p1.left ==> k < at
  {
  }

  lemma SameLeftFollows(p: Past, p': Past, full: Screen, screen: nat)
    requires Follows(p, full, screen) && p'.history == p.history && p'.left == p.left
    ensures Follows(p', full, screen)
  {
  }

  lemma RunOfTop(left: Runs, at: nat, top: Row, pen: Pen, cols: Cols, periods: nat)
    requires |top.cells| > 0 && top.cells[0] == GlyphCell(pen) && 0 <= RowsLeftOut(cols, pen.width, periods)
    ensures WithRun(left, at, top, cols, periods)
      == left[at := LeftOutRows.Run(RowsLeftOut(cols, pen.width, periods), top)]
  {
  }

  /** What the hook records makes up for the rows left out, as they are read. */
  lemma HookFollows(p0: Past, p1: Past, p2: Past, full: Screen, pen: Pen, count: nat, short: Screen, screen: nat)
    requires CutShort(p0, p1, full, pen, count, short, screen) && p2.history == p1.history
    requires |p1.history| >= screen > 0 && (Pushes(full.view) ==> |p1.history| > screen)
    requires !Pushes(full.view) ==> p2.left == p1.left
    requires Pushes(full.view) ==>
      p2.left == WithRun(p1.left, |p1.history| - screen - 1, p1.history[|p1.history| - screen],
      full.view.cols, PeriodsLeftOut(full.view.cols, screen, count))
    ensures Follows(p2, AsRead(full, pen, count), screen)
    ensures Solid(p1.history, p1.left, screen) ==> Solid(p2.history, p2.left, screen)
  {
    hide All, Backed, Solid, CutShort, Follows, FullRow, PeriodsLeftOut, PrintN, Pushes, RowsLeftOut, WithRun, AsRead,
      Restored, EndsFullRow;
    CutShortFollows(p0, p1, full, pen, count, short, screen);
    CutShortRows(p0, p1, full, pen, count, short, screen);
    AsReadIs(p0, p1, full, pen, count, short, screen);
    var v, at := full.view, |p1.history| - screen - 1;
    var mid := Screen(full.back + short.back, short.view);
    if Pushes(v) {
      CutShortTop(p0, p1, full, pen, count, short, screen);
      var top, left := short.view.lines[0], LeftOutBy(v, pen, count);
      TopOfHistory(p0, p1, full, pen, count, short, screen);
      RunOfTop(p1.left, at, top, pen, v.cols, PeriodsLeftOut(v.cols, screen, count));
      CutShortLeft(p0, p1, full, pen, count, short, screen, at);
      RecordFollows(p1, p2, mid, at, LeftOutRows.Run(left, top), screen);
      assert seq(left as nat, i => top) == seq(left as nat, _ => top);
      if Solid(p1.history, p1.left, screen) {
        CopiesBacked(p0, p1, full, pen, count, short, screen);
        SolidMore(p1.history, p1.left, screen, at, LeftOutRows.Run(left, top));
      }
    } else {
      SameLeftFollows(p1, p2, mid, screen);
      assert mid.back + [] == mid.back;
    }
  }

  lemma TopOfHistory(p0: Past, p1: Past, full: Screen, pen: Pen, count: nat, short: Screen, screen: nat)
    requires CutShort(p0, p1, full, pen, count, short, screen) && |short.view.lines| == screen > 0
    ensures |p1.history| >= screen && p1.history[|p1.history| - screen] == short.view.lines[0]
  {
  }

  /** The hook may run: where rows were pushed, there is a row to copy. */
  lemma HookReadyIn(m: Memory, p0: Past, p1: Past, full: Screen, pen: Pen, count: nat, short: Screen, screen: nat,
    budget: nat, draw: Draw)
    requires CutShort(p0, p1, full, pen, count, short, screen) && Inv(m, p1, screen, budget, draw)
    requires Solid(p1.history, p1.left, screen)
    ensures 1 <= screen <= |m.lines| <= |p1.history| && m.lines[|m.lines| - screen] == p1.history[|p1.history| - screen]
    ensures Pushes(full.view) <==> p1.mark < |p1.history| - screen
    ensures Pushes(full.view) ==> |p1.history| > screen
    ensures Pushes(full.view) ==>
      Repeatable(p1, screen, m.lines, full.view.cols, PeriodsLeftOut(full.view.cols, screen, count))
  {
    hide Inv, CutShort, Solid, PrintN, Pushes, RowsLeftOut, PeriodsLeftOut, FullRow, EndsFullRow;
    TopLine(m, p1, screen, budget, draw);
    CutShortFollows(p0, p1, full, pen, count, short, screen);
    CutShortRows(p0, p1, full, pen, count, short, screen);
    TopOfHistory(p0, p1, full, pen, count, short, screen);
    if Pushes(full.view) {
      CutShortTop(p0, p1, full, pen, count, short, screen);
    }
  }

  /** A long repeat is cut short and followed by its hook. */
  method RunLong(term: Terminal, v: View, pen: Pen, count: nat, rule: Rule, ghost full: Screen) returns (v': View)
    requires term.Valid() && Follows(term.past, full, term.screen) && full.view == v
    requires Solid(term.past.history, term.past.left, term.screen)
    requires term.cols == v.cols && rule == RepeatRule(v.cols, term.screen) && rule.settled < count && 1 <= rule.period
    modifies term
    ensures term.Valid() && v' == PrintN(full, pen, count).view
      && Follows(term.past, AsRead(full, pen, count), term.screen)
    ensures Restored(v, pen, count) ==> AsRead(full, pen, count) == PrintN(full, pen, count)
    ensures Solid(term.past.history, term.past.left, term.screen)
  {
    hide Inv, PrintN, Solid, AsRead, Restored;
    var screen := term.screen;
    ghost var p0 := term.past;
    var s := PrintN(Screen([], v), pen, RepeatScreen.Kept(rule, count));
    v' := s.view;
    assert |v'.lines| == screen;
    term.BeforeRepeat(false);
    term.Output(s.back, v'.lines);
    ghost var p1 := term.past;
    assert CutShort(p0, p1, full, pen, count, s, screen);
    HookReadyIn(term.State(), p0, p1, full, pen, count, s, screen, term.budget, term.draw);
    assert term.lines == term.State().lines;
    assert Omitted(rule, count) == PeriodsLeftOut(v.cols, screen, count);
    term.Hook(Omitted(rule, count));
    HookFollows(p0, p1, term.past, full, pen, count, s, screen);
    ReadsInFull(p0, p1, full, pen, count, s, screen);
    AsReadIs(p0, p1, full, pen, count, s, screen);
  }

  lemma ShortIsRead(full: Screen, pen: Pen, count: nat)
    requires count <= RepeatRule(full.view.cols, |full.view.lines|).settled
    ensures AsRead(full, pen, count) == PrintN(full, pen, count)
  {
    hide PrintN;
  }

  /** One repeat. */
  method RunRepeat(term: Terminal, v: View, pen: Pen, count: nat, ghost full: Screen) returns (v': View)
    requires term.Valid() && Follows(term.past, full, term.screen) && full.view == v
    requires Solid(term.past.history, term.past.left, term.screen) && term.cols == v.cols
    modifies term
    ensures term.Valid() && v' == PrintN(full, pen, count).view
      && Follows(term.past, AsRead(full, pen, count), term.screen)
    ensures Restored(v, pen, count) ==> AsRead(full, pen, count) == PrintN(full, pen, count)
    ensures Solid(term.past.history, term.past.left, term.screen)
  {
    hide PrintN, Terminal.Valid, Solid, AsRead, Restored;
    var screen := term.screen;
    var rule := RepeatRule(v.cols, screen);
    if count <= rule.settled {
      ghost var p0 := term.past;
      var s := PrintN(Screen([], v), pen, count);
      v' := s.view;
      assert |v'.lines| == screen;
      term.Output(s.back, v'.lines);
      BackIrrelevant(full, pen, count);
      OutputFollows(p0, term.past, full, s.back, v', screen);
      ShortIsRead(full, pen, count);
    } else {
      PeriodIsWholeRows(v.cols, pen);
      v' := RunLong(term, v, pen, count, rule, full);
    }
  }

  /** One step, as it is read back. */
  function ReadOp<H>(m: Moment<H>, op: Op<H>): Moment<H> {
    match op
    case Other(_) => Run(m, op)
    case Repeat(pen, count) => m.(screen := AsRead(m.screen, pen, count))
  }

  predicate OpRestored<H>(m: Moment<H>, op: Op<H>) {
    op.Repeat? ==> Restored(m.screen.view, op.pen, op.count)
  }

  method RunOp<H(!new)>(term: Terminal, v: View, hidden: H, op: Op<H>, ghost m: Moment<H>)
    returns (v': View, hidden': H)
    requires term.Valid() && Follows(term.past, m.screen, term.screen) && m.screen.view == v && m.hidden == hidden
      && Keeps(op)
    requires Solid(term.past.history, term.past.left, term.screen) && term.cols == v.cols
    modifies term
    ensures term.Valid() && v' == Run(m, op).screen.view && hidden' == Run(m, op).hidden
    ensures Follows(term.past, ReadOp(m, op).screen, term.screen)
    ensures Solid(term.past.history, term.past.left, term.screen)
  {
    hide Terminal.Valid, Solid, AsRead, Restored;
    match op
    case Other(effect) =>
      var e := effect(hidden, v);
      v', hidden' := e.view, e.hidden;
      assert |e.view.lines| == term.screen;
      ghost var p0 := term.past;
      term.Output(e.pushed, e.view.lines);
      OutputFollows(p0, term.past, m.screen, e.pushed, e.view, term.screen);
    case Repeat(pen, count) =>
      v' := RunRepeat(term, v, pen, count, m.screen);
      hidden' := hidden;
  }

  // ----- a whole segment -----

  /** Every repeat is restored. */
  ghost predicate AllRestored<H>(start: Moment<H>, ops: seq<Op<H>>) {
    forall i :: 0 <= i < |ops| ==> OpRestored(RunAll(start, ops[..i]), ops[i])
  }

  /** What is read back of a segment. */
  function ReadAll<H>(start: Moment<H>, ops: seq<Op<H>>): Moment<H> {
    if ops == [] then start else ReadOp(ReadAll(start, ops[..|ops| - 1]), ops[|ops| - 1])
  }

  /** The same terminal, but perhaps for rows that scrolled off. */
  ghost predicate Alike<H>(m: Moment<H>, n: Moment<H>) {
    m.screen.view == n.screen.view && m.hidden == n.hidden && |m.screen.back| == |n.screen.back|
  }

  lemma {:induction false} RunKeeps<H(!new)>(start: Moment<H>, ops: seq<Op<H>>)
    requires KeepAll(ops)
    ensures SameSize(start.screen.view, RunAll(start, ops).screen.view)
  {
    hide Print;
    if ops != [] {
      var front, op := ops[..|ops| - 1], ops[|ops| - 1];
      RunKeeps(start, front);
      assert Keeps(op);
    }
  }

  /** A repeat as it is read back leaves the view that it does in full, and has
      scrolled off as many rows. */
  lemma ReadsAlike(full: Screen, pen: Pen, count: nat)
    ensures AsRead(full, pen, count).view == PrintN(full, pen, count).view
    ensures |AsRead(full, pen, count).back| == |PrintN(full, pen, count).back|
  {
    hide PrintN, AsRead, LeftOutBy, Pushes;
    var rule := RepeatRule(full.view.cols, |full.view.lines|);
    if rule.settled < count {
      PeriodIsWholeRows(full.view.cols, pen);
      var p0, p1, short := ShortPast(full, pen, count);
      ReadsInFull(p0, p1, full, pen, count, short, |full.view.lines|);
      AsReadIs(p0, p1, full, pen, count, short, |full.view.lines|);
      CutShortFull(p0, p1, full, pen, count, short, |full.view.lines|);
      CutShortRows(p0, p1, full, pen, count, short, |full.view.lines|);
    } else {
      ShortIsRead(full, pen, count);
    }
  }

  lemma OpAlike<H>(m: Moment<H>, n: Moment<H>, op: Op<H>)
    requires Alike(m, n)
    ensures Alike(ReadOp(m, op), Run(n, op))
  {
    hide PrintN, AsRead;
    if op.Repeat? {
      ReadsAlike(m.screen, op.pen, op.count);
      BackIrrelevant(m.screen, op.pen, op.count);
      BackIrrelevant(n.screen, op.pen, op.count);
    }
  }

  lemma {:induction false} AllAlike<H>(start: Moment<H>, ops: seq<Op<H>>)
    ensures Alike(ReadAll(start, ops), RunAll(start, ops))
  {
    hide ReadOp, Run;
    if ops != [] {
      AllAlike(start, ops[..|ops| - 1]);
      OpAlike(ReadAll(start, ops[..|ops| - 1]), RunAll(start, ops[..|ops| - 1]), ops[|ops| - 1]);
    }
  }

  lemma RunNext<H(!new)>(start: Moment<H>, ops: seq<Op<H>>, i: nat)
    requires i < |ops| && KeepAll(ops)
    ensures RunAll(start, ops[..i + 1]) == Run(RunAll(start, ops[..i]), ops[i])
    ensures ReadAll(start, ops[..i + 1]) == ReadOp(ReadAll(start, ops[..i]), ops[i])
    ensures SameSize(start.screen.view, RunAll(start, ops[..i]).screen.view) && Keeps(ops[i])
    ensures Alike(ReadAll(start, ops[..i]), RunAll(start, ops[..i]))
  {
    RunKeeps(start, ops[..i]);
    AllAlike(start, ops[..i]);
    assert ops[..i + 1][..i] == ops[..i];
  }

  lemma Started(start: View)
    ensures Follows(Past(start.lines, 0, map[], [], 0, 0, 0, 0), Screen([], start), |start.lines|)
  {
    NothingBelow(start.lines, map[], 0, 0, |start.lines|);
  }

  lemma NothingRestored<H>(start: Moment<H>)
    ensures RunAll(start, []) == start && ReadAll(start, []) == start
  {
  }

  ghost function Begins<H>(start: View, hidden: H): Moment<H> {
    Moment(Screen([], start), hidden)
  }

  /** The texts of a segment printed in full by a terminal that forgets nothing. */
  ghost function SegmentTexts<H(!new)>(ops: seq<Op<H>>, start: View, hidden: H, draw: Draw): seq<string>
    requires KeepAll(ops)
  {
    RunKeeps(Begins(start, hidden), ops);
    Shown(Rows(RunAll(Begins(start, hidden), ops).screen), |start.lines|, draw)
  }

  /** Those that are read back. */
  ghost function ReadTexts<H(!new)>(ops: seq<Op<H>>, start: View, hidden: H, draw: Draw): seq<string>
    requires KeepAll(ops)
  {
    RunKeeps(Begins(start, hidden), ops);
    AllAlike(Begins(start, hidden), ops);
    Shown(Rows(ReadAll(Begins(start, hidden), ops).screen), |start.lines|, draw)
  }

  /** With every repeat restored they are the rows printed in full. */
  lemma {:induction false} ReadIsRun<H(!new)>(start: Moment<H>, ops: seq<Op<H>>)
    requires AllRestored(start, ops)
    ensures ReadAll(start, ops) == RunAll(start, ops)
  {
    hide AsRead, PrintN, Restored;
    if ops != [] {
      var front, op := ops[..|ops| - 1], ops[|ops| - 1];
      assert forall i :: 0 <= i < |front| ==> front[..i] == ops[..i] && front[i] == ops[i];
      ReadIsRun(start, front);
      assert OpRestored(RunAll(start, ops[..|front|]), op);
      if op.Repeat? {
        RestoredIsFull(RunAll(start, front).screen, op.pen, op.count);
      }
    }
  }

  lemma RestoredIsFull(full: Screen, pen: Pen, count: nat)
    requires Restored(full.view, pen, count)
    ensures AsRead(full, pen, count) == PrintN(full, pen, count)
  {
    hide PrintN, AsRead, LeftOutBy, EndsFullRow;
    var rule := RepeatRule(full.view.cols, |full.view.lines|);
    if rule.settled < count {
      PeriodIsWholeRows(full.view.cols, pen);
      var p0, p1, short := ShortPast(full, pen, count);
      ReadsInFull(p0, p1, full, pen, count, short, |full.view.lines|);
    } else {
      ShortIsRead(full, pen, count);
    }
  }

  /** Any screen is that of some terminal, and so is a repeat cut short on it. */
  lemma ShortPast(full: Screen, pen: Pen, count: nat) returns (p0: Past, p1: Past, short: Screen)
    requires RepeatRule(full.view.cols, |full.view.lines|).settled < count
    requires 1 <= RepeatRule(full.view.cols, |full.view.lines|).period
    ensures CutShort(p0, p1, full, pen, count, short, |full.view.lines|)
  {
    var n := |full.view.lines|;
    short := PrintN(Screen([], full.view), pen, RepeatScreen.Kept(RepeatRule(full.view.cols, n), count));
    p0 := Past(Rows(full), 0, map[], [], 0, 0, 0, 0);
    p1 := p0.(history := full.back + short.back + short.view.lines, mark := |full.back|);
    NothingBelow(p0.history, map[], 0, 0, |p0.history|);
    hide PrintN;
    assert p0.history[..|p0.history| - n] == full.back;
    assert p0.history[|p0.history| - n..] == full.view.lines;
  }

  /** A segment parsed at the view's size in a terminal that keeps only the
      newest budget + 1 rows, and its newest rows: those that one terminal without
      that limit ends with, every long repeat printed in full, with copies of the
      wrong row where a repeat is not restored. */
  method SegmentRows<H(!new)>(ops: seq<Op<H>>, start: View, hidden: H, budget: nat, chars: nat, draw: Draw)
    returns (kept: seq<string>, size: nat, dropped: bool)
    requires KeepAll(ops)
    ensures Read(kept, size, dropped) == Newest(ReadTexts(ops, start, hidden, draw), budget, chars)
    ensures AllRestored(Begins(start, hidden), ops) ==>
      Read(kept, size, dropped) == Newest(SegmentTexts(ops, start, hidden, draw), budget, chars)
  {
    hide Shown, Run, ReadOp, Solid, Newest, AllRestored;
    var screen := |start.lines|;
    var term := new Terminal(screen, budget, start.cols, draw, start.lines);
    Started(start);
    StartsSolid(start.lines, screen);
    ghost var begin := Begins(start, hidden);
    NothingRestored(begin);
    assert ops[..0] == [];
    var v, h := start, hidden;
    for i := 0 to |ops|
      invariant term.Valid() && term.screen == screen && term.cols == start.cols && term.budget == budget
        && term.draw == draw
      invariant fresh(term) && Follows(term.past, ReadAll(begin, ops[..i]).screen, screen)
      invariant Solid(term.past.history, term.past.left, screen)
      invariant v == ReadAll(begin, ops[..i]).screen.view && h == ReadAll(begin, ops[..i]).hidden
    {
      RunNext(begin, ops, i);
      ghost var m := ReadAll(begin, ops[..i]);
      v, h := RunOp(term, v, h, ops[i], m);
      OpAlike(m, m, ops[i]);
    }
    assert ops[..|ops|] == ops;
    kept, size, dropped := term.Rows(chars);
    RunKeeps(begin, ops);
    AllAlike(begin, ops);
    assert All(term.past) == Rows(ReadAll(begin, ops).screen);
    if AllRestored(begin, ops) {
      ReadIsRun(begin, ops);
    }
  }

  lemma StartsSolid(history: seq<Row>, screen: nat)
    ensures Solid(history, map[], screen)
  {
  }
}
