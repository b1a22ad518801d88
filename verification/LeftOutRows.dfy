/** Reading a saved terminal back, with the rows that shortened repeats left
    out put back in their place. */
module LeftOutRows {
  import opened RepeatScreen
  import opened RowBudget

  // ----- the terminal that was not shortened -----

  /** Copies of one row that are missing after some row. */
  datatype Run = Run(count: nat, row: Row)

  /** The runs left out, by the absolute row that each follows. */
  type Runs = map<nat, Run>

  /** The copies missing after row i, unless runs before `cut` are forgotten. */
  ghost function CopiesAt(runs: Runs, cut: nat, i: nat): (rows: seq<Row>)
    ensures |rows| == if cut <= i && i in runs then runs[i].count else 0
    ensures forall k :: 0 <= k < |rows| ==> i in runs && rows[k] == runs[i].row
  {
    if cut <= i && i in runs then seq(runs[i].count, k => runs[i].row) else []
  }

  /** The first a rows with the copies put back. */
  ghost function Expand(rows: seq<Row>, runs: Runs, cut: nat, a: nat): seq<Row>
    requires a <= |rows|
  {
    if a == 0 then [] else Expand(rows, runs, cut, a - 1) + [rows[a - 1]] + CopiesAt(runs, cut, a - 1)
  }

  /** How many rows that makes. */
  ghost function Length(runs: Runs, cut: nat, a: nat): nat {
    if a == 0 then 0 else Length(runs, cut, a - 1) + 1 + |CopiesAt(runs, cut, a - 1)|
  }

  lemma {:induction false} ExpandLength(rows: seq<Row>, runs: Runs, cut: nat, a: nat)
    requires a <= |rows|
    ensures |Expand(rows, runs, cut, a)| == Length(runs, cut, a)
  {
    if a != 0 {
      ExpandLength(rows, runs, cut, a - 1);
    }
  }

  lemma {:induction false} LengthGrows(runs: Runs, cut: nat, a: nat, b: nat)
    requires a <= b
    ensures Length(runs, cut, a) + (b - a) <= Length(runs, cut, b)
    ensures forall i :: a <= i < b && cut <= i && i in runs ==>
      Length(runs, cut, a) + (b - a) + runs[i].count <= Length(runs, cut, b)
    decreases b
  {
    if a < b {
      LengthGrows(runs, cut, a, b - 1);
    }
  }

  /** An expansion starts with the expansion of fewer rows, and goes on with
      the next row itself. */
  lemma {:induction false} ExpandPrefix(rows: seq<Row>, runs: Runs, cut: nat, a: nat, b: nat)
    requires a <= b <= |rows|
    ensures var x, y := Expand(rows, runs, cut, a), Expand(rows, runs, cut, b);
      |x| <= |y| && y[..|x|] == x && (a < b ==> |x| < |y| && y[|x|] == rows[a])
    decreases b
  {
    if a < b {
      ExpandPrefix(rows, runs, cut, a, b - 1);
      var x, z := Expand(rows, runs, cut, a), Expand(rows, runs, cut, b - 1);
      assert Expand(rows, runs, cut, b) == z + ([rows[b - 1]] + CopiesAt(runs, cut, b - 1));
    }
  }

  /** Later rows do not change the expansion of earlier ones. */
  lemma {:induction false} ExpandSame(rows: seq<Row>, more: seq<Row>, runs: Runs, cut: nat, a: nat)
    requires a <= |rows| && a <= |more| && rows[..a] == more[..a]
    ensures Expand(rows, runs, cut, a) == Expand(more, runs, cut, a)
    decreases a
  {
    if a != 0 {
      assert rows[..a][..a - 1] == rows[..a - 1] && more[..a][..a - 1] == more[..a - 1];
      assert rows[a - 1] == rows[..a][a - 1] == more[a - 1];
      ExpandSame(rows, more, runs, cut, a - 1);
    }
  }

  // ----- runs that were forgotten -----

  /** The row a run copies also fills the `screen` rows up to the one that it
      follows, unless the screen has only one row. */
  ghost predicate Backed(rows: seq<Row>, runs: Runs, screen: nat, at: nat) {
    && at in runs && at < |rows| && screen <= at + 1
    && (screen > 1 ==> forall i :: at + 1 - screen <= i <= at ==> rows[i] == runs[at].row)
  }

  /** How many rows before a forgotten run still look right. */
  function Backing(screen: nat): nat {
    if screen > 1 then screen else 0
  }

  ghost predicate BackedUpTo(rows: seq<Row>, runs: Runs, screen: nat, at: nat) {
    forall k :: k in runs && k <= at ==> Backed(rows, runs, screen, k)
  }

  /** Forgetting runs up to the cut leaves the rows themselves below it. */
  lemma {:induction false} ExpandBelow(rows: seq<Row>, runs: Runs, cut: nat, a: nat)
    requires a <= cut && a <= |rows|
    ensures Expand(rows, runs, cut, a) == rows[..a]
  {
    if a != 0 {
      ExpandBelow(rows, runs, cut, a - 1);
      assert rows[..a] == rows[..a - 1] + [rows[a - 1]];
    }
  }

  /** The newest n rows are all the same row. */
  ghost predicate EndsIn(rows: seq<Row>, row: Row, n: nat) {
    n <= |rows| && forall i: nat :: i < n ==> FromEnd(rows, i) == row
  }

  lemma EndsInMore(rows: seq<Row>, row: Row, n: nat, more: seq<Row>)
    requires EndsIn(rows, row, n) && forall i :: 0 <= i < |more| ==> more[i] == row
    ensures EndsIn(rows + more, row, n + |more|)
  {
    forall i: nat | i < n + |more|
      ensures FromEnd(rows + more, i) == row
    {
      if |more| <= i {
        assert FromEnd(rows + more, i) == FromEnd(rows, i - |more|);
      } else {
        assert FromEnd(rows + more, i) == more[|more| - 1 - i];
      }
    }
  }

  /** The row that a backed run copies is also the row of a run it covers. */
  lemma CopiesAlike(rows: seq<Row>, runs: Runs, screen: nat, at: nat, k: nat)
    requires Backed(rows, runs, screen, at) && at + 1 - screen <= k <= at && 1 < screen
    requires k in runs ==> Backed(rows, runs, screen, k)
    ensures rows[k] == runs[at].row
    ensures forall i :: 0 <= i < |CopiesAt(runs, 0, k)| ==> CopiesAt(runs, 0, k)[i] == runs[at].row
  {
    if k in runs {
      assert rows[k] == runs[k].row;
    }
  }

  lemma ExpandNext(rows: seq<Row>, runs: Runs, cut: nat, a: nat)
    requires 0 < a <= |rows|
    ensures Expand(rows, runs, cut, a) == Expand(rows, runs, cut, a - 1) + ([rows[a - 1]] + CopiesAt(runs, cut, a - 1))
    ensures Length(runs, cut, a) == Length(runs, cut, a - 1) + 1 + |CopiesAt(runs, cut, a - 1)|
  {
    var x, c := Expand(rows, runs, cut, a - 1), CopiesAt(runs, cut, a - 1);
    assert x + [rows[a - 1]] + c == x + ([rows[a - 1]] + c);
  }

  /** The rows that back the newest forgotten run look like its copies. */
  lemma {:induction false} BackedRows(rows: seq<Row>, runs: Runs, screen: nat, at: nat, a: nat)
    requires Backed(rows, runs, screen, at) && at + 1 - screen <= a <= at + 1
    requires BackedUpTo(rows, runs, screen, at) && 1 < screen
    ensures EndsIn(Expand(rows, runs, 0, a), runs[at].row, a - (at + 1 - screen))
    decreases a
  {
    hide Expand, CopiesAt;
    if at + 1 - screen < a {
      var w, c, n := Expand(rows, runs, 0, a - 1), CopiesAt(runs, 0, a - 1), a - 1 - (at + 1 - screen);
      BackedRows(rows, runs, screen, at, a - 1);
      CopiesAlike(rows, runs, screen, at, a - 1);
      EndsInMore(w, runs[at].row, n, [rows[a - 1]] + c);
      ExpandNext(rows, runs, 0, a);
    }
  }

  lemma ForgetHere(rows: seq<Row>, runs: Runs, screen: nat, at: nat)
    requires Backed(rows, runs, screen, at) && 1 <= screen && BackedUpTo(rows, runs, screen, at)
    ensures Length(runs, at + 1, at + 1) == at + 1
    ensures Agree(Expand(rows, runs, 0, at + 1), Expand(rows, runs, at + 1, at + 1), Backing(screen))
  {
    var a := at + 1;
    var all, less := Expand(rows, runs, 0, a), Expand(rows, runs, a, a);
    ExpandBelow(rows, runs, a, a);
    ExpandLength(rows, runs, a, a);
    ExpandNext(rows, runs, 0, a);
    if screen > 1 {
      BackedRows(rows, runs, screen, at, a);
    }
    hide Expand, CopiesAt, Length;
    forall i: nat | i < Backing(screen)
      ensures FromEnd(all, i) == FromEnd(less, i)
    {
      assert FromEnd(less, i) == rows[at - i];
    }
  }

  /** What is still right once the run after `at` and all older ones are
      forgotten: every newer row, and on two rows or more a screen of rows
      before those. */
  lemma {:induction false} Forget(rows: seq<Row>, runs: Runs, screen: nat, at: nat, a: nat)
    requires Backed(rows, runs, screen, at) && at < a <= |rows| && 1 <= screen && BackedUpTo(rows, runs, screen, at)
    ensures at + 1 <= Length(runs, at + 1, a)
    ensures Agree(Expand(rows, runs, 0, a), Expand(rows, runs, at + 1, a),
      Length(runs, at + 1, a) - (at + 1) + Backing(screen))
    decreases a
  {
    hide Expand, CopiesAt, Length, Agree;
    if a == at + 1 {
      ForgetHere(rows, runs, screen, at);
    } else {
      Forget(rows, runs, screen, at, a - 1);
      SameCopiesAt(runs, at + 1, a - 1);
      var more := [rows[a - 1]] + CopiesAt(runs, 0, a - 1);
      ExpandNext(rows, runs, 0, a);
      ExpandNext(rows, runs, at + 1, a);
      AgreePush(Expand(rows, runs, 0, a - 1), Expand(rows, runs, at + 1, a - 1),
        Length(runs, at + 1, a - 1) - (at + 1) + Backing(screen), more);
    }
  }

  lemma SameCopiesAt(runs: Runs, cut: nat, i: nat)
    requires cut <= i
    ensures CopiesAt(runs, cut, i) == CopiesAt(runs, 0, i)
  {
  }

  // ----- how rows are drawn -----

  /** How a row is drawn, given whether the next row wraps from it. */
  type Draw = (Row, bool) -> string

  predicate Wraps(rows: seq<Row>, i: nat) {
    i < |rows| && rows[i].wrapped
  }

  function Render(rows: seq<Row>, draw: Draw): (texts: seq<string>)
    ensures |texts| == |rows|
    ensures forall i :: 0 <= i < |rows| ==> texts[i] == draw(rows[i], Wraps(rows, i + 1))
  {
    seq(|rows|, i requires 0 <= i < |rows| => draw(rows[i], Wraps(rows, i + 1)))
  }

  predicate NothingDrawn(row: Row, draw: Draw) {
    draw(row, false) == "" || draw(row, false) == "\r\n"
  }

  /** The screen's rows below its last drawn one. */
  function Undrawn(rows: seq<Row>, screen: nat, draw: Draw): (n: nat)
    requires screen <= |rows|
    ensures n <= screen
  {
    if screen == 0 || !NothingDrawn(rows[|rows| - 1], draw) then 0
    else 1 + Undrawn(rows[..|rows| - 1], screen - 1, draw)
  }

  lemma {:induction false} UndrawnAgree(a: seq<Row>, b: seq<Row>, screen: nat, draw: Draw)
    requires Agree(a, b, screen)
    ensures Undrawn(a, screen, draw) == Undrawn(b, screen, draw)
    decreases screen
  {
    if screen != 0 {
      AgreePop(a, b, screen);
      UndrawnAgree(a[..|a| - 1], b[..|b| - 1], screen - 1, draw);
    }
  }

  /** The texts of all rows that a terminal shows, oldest first. */
  function Shown(rows: seq<Row>, screen: nat, draw: Draw): seq<string>
    requires screen <= |rows|
  {
    Render(rows, draw)[..|rows| - Undrawn(rows, screen, draw)]
  }

  /** What is shown ends after the last screen row that draws more than a line
      start, or above the screen, and is every row up to there, each drawn by
      whether the next one wraps. */
  lemma ShownExactly(rows: seq<Row>, screen: nat, draw: Draw)
    requires screen <= |rows|
    ensures
      var texts := Shown(rows, screen, draw);
      && |rows| - screen <= |texts| <= |rows|
      && (forall i :: |texts| <= i < |rows| ==> draw(rows[i], false) == "" || draw(rows[i], false) == "\r\n")
      && (|texts| > |rows| - screen ==>
        draw(rows[|texts| - 1], false) != "" && draw(rows[|texts| - 1], false) != "\r\n")
      && (forall i :: 0 <= i < |texts| ==> texts[i] == draw(rows[i], i + 1 < |rows| && rows[i + 1].wrapped))
  {
    hide Undrawn, NothingDrawn, Render;
    UndrawnExactly(rows, screen, draw);
    var all, texts := Render(rows, draw), Shown(rows, screen, draw);
    forall i | 0 <= i < |texts|
      ensures texts[i] == draw(rows[i], i + 1 < |rows| && rows[i + 1].wrapped)
    {
      assert texts[i] == all[i];
    }
  }

  lemma {:induction false} UndrawnExactly(rows: seq<Row>, screen: nat, draw: Draw)
    requires screen <= |rows|
    ensures
      var end := |rows| - Undrawn(rows, screen, draw);
      && (forall i :: end <= i < |rows| ==> draw(rows[i], false) == "" || draw(rows[i], false) == "\r\n")
      && (end > |rows| - screen ==> draw(rows[end - 1], false) != "" && draw(rows[end - 1], false) != "\r\n")
  {
    if screen != 0 && NothingDrawn(rows[|rows| - 1], draw) {
      UndrawnExactly(rows[..|rows| - 1], screen - 1, draw);
    }
  }

  /** The i-th newest text shown, with the last u rows not drawn. */
  lemma ShownAt(rows: seq<Row>, u: nat, draw: Draw, i: nat)
    requires i + u < |rows|
    ensures FromEnd(Render(rows, draw)[..|rows| - u], i)
         == draw(FromEnd(rows, i + u), i + u > 0 && FromEnd(rows, i + u - 1).wrapped)
  {
  }

  lemma ShownAgree(a: seq<Row>, b: seq<Row>, u: nat, draw: Draw, n: nat)
    requires Agree(a, b, n + u) && n + u < |a| && n + u < |b|
    ensures Agree(Render(a, draw)[..|a| - u], Render(b, draw)[..|b| - u], n)
  {
    hide Render;
    var s, t := Render(a, draw)[..|a| - u], Render(b, draw)[..|b| - u];
    hide FromEnd;
    forall i: nat | i < n
      ensures FromEnd(s, i) == FromEnd(t, i)
    {
      ShownAt(a, u, draw, i);
      ShownAt(b, u, draw, i);
      assert FromEnd(a, i + u) == FromEnd(b, i + u);
      assert i + u > 0 ==> FromEnd(a, i + u - 1) == FromEnd(b, i + u - 1);
    }
  }

  /** Two terminals whose newest rows agree, and that have more, read the same. */
  lemma ReadAgree(a: seq<Row>, b: seq<Row>, screen: nat, draw: Draw, budget: nat, chars: nat)
    requires Agree(a, b, budget + screen) && budget + screen < |a| && budget + screen < |b|
    ensures Newest(Shown(a, screen, draw), budget, chars) == Newest(Shown(b, screen, draw), budget, chars)
  {
    var u := Undrawn(a, screen, draw);
    AgreeLess(a, b, budget + screen, screen);
    AgreeLess(a, b, budget + screen, budget + u);
    UndrawnAgree(a, b, screen, draw);
    ShownAgree(a, b, u, draw, budget);
    var s, t := Render(a, draw)[..|a| - u], Render(b, draw)[..|b| - u];
    NewestAgree(s, t, budget, chars);
    assert s == Shown(a, screen, draw) && t == Shown(b, screen, draw);
  }
}
