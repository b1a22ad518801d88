/** The terminal that a saved segment is parsed in: it keeps only the newest
    rows and records what shortened repeats left out, and its newest rows read
    back as if it had done neither. */
module SavedTerminal {
  import opened RepeatScreen
  import opened RowBudget
  import opened LeftOutRows

  /** A run as it is kept while the segment is parsed: the row it follows,
      counting the rows trimmed, and the copy drawn where the next row wraps
      from it or not. */
  datatype Kept = Kept(at: int, count: int, whole: string, last: string)

  /** A marker follows its row until the row is trimmed. */
  datatype Marker = Unset | At(line: int) | Disposed
  datatype Trims = Infinite | Trims(n: int)

  function Shifted(m: Marker, n: nat): Marker {
    match m
    case At(line) => if line < n then Disposed else At(line - n)
    case _ => m
  }

  /** A marker is on absolute row `row` once `lost` rows were trimmed. */
  ghost predicate Marks(m: Marker, row: int, lost: nat) {
    && (m.At? ==> m.line + lost == row)
    && (m.Disposed? ==> row < lost)
  }

  /** The state of reading T[..e] after its newest texts down to p were kept. */
  ghost predicate Reading(texts: seq<string>, e: nat, p: nat, kept: seq<string>, size: nat, budget: nat, chars: nat) {
    && p <= e <= |texts| && |kept| <= budget && size <= chars
    && Newest(texts[..e], budget, chars) == After(kept, size, Newest(texts[..p], budget - |kept|, chars - size))
  }

  predicate Full(text: string, kept: seq<string>, size: nat, budget: nat, chars: nat) {
    |kept| >= budget || size + |text| > chars
  }

  lemma ReadNext(texts: seq<string>, e: nat, p: nat, kept: seq<string>, size: nat, budget: nat, chars: nat)
    requires Reading(texts, e, p, kept, size, budget, chars) && 0 < p
    ensures var text := texts[p - 1];
      if Full(text, kept, size, budget, chars) then Newest(texts[..e], budget, chars) == Read(kept, size, true)
      else Reading(texts, e, p - 1, kept + [text], size + |text|, budget, chars)
  {
    var text := texts[p - 1];
    assert texts[..p][..p - 1] == texts[..p - 1];
    if !Full(text, kept, size, budget, chars) {
      var rest := Newest(texts[..p - 1], budget - |kept| - 1, chars - size - |text|);
      assert kept + ([text] + rest.kept) == (kept + [text]) + rest.kept;
    }
  }

  /** The runs that were let go, if any, lie further back than the budget
      reaches, and on two rows or more repeat the rows before them. */
  ghost predicate LeftOut(history: seq<Row>, left: Runs, cut: nat, screen: nat, budget: nat) {
    && Within(history, left, screen)
    && (cut == 0 || (cut - 1 in left && cut + budget + 1 <= Length(left, cut, |history|)
                     && BackedUpTo(history, left, screen, cut - 1)))
  }

  ghost predicate Within(history: seq<Row>, left: Runs, screen: nat) {
    forall k :: k in left ==> k + screen < |history| && left[k].row.wrapped
  }

  /** Each run repeats the row that fills a screen of two rows or more before it. */
  ghost predicate Solid(history: seq<Row>, left: Runs, screen: nat) {
    forall k :: k in left ==> Backed(history, left, screen, k)
  }

  lemma BackedGrows(was: seq<Row>, history: seq<Row>, left: Runs, screen: nat, k: nat)
    requires Backed(was, left, screen, k) && k + screen < |was|
    requires screen <= |was| <= |history| && was[..|was| - screen] == history[..|was| - screen]
    ensures Backed(history, left, screen, k)
  {
    assert forall i :: 0 <= i <= k ==> history[i] == history[..|was| - screen][i] == was[i];
  }

  lemma SolidGrows(was: seq<Row>, history: seq<Row>, left: Runs, screen: nat)
    requires Solid(was, left, screen) && Within(was, left, screen)
    requires screen <= |was| <= |history| && was[..|was| - screen] == history[..|was| - screen]
    ensures Solid(history, left, screen)
  {
    forall k | k in left
      ensures Backed(history, left, screen, k)
    {
      BackedGrows(was, history, left, screen, k);
    }
  }

  lemma SolidMore(history: seq<Row>, left: Runs, screen: nat, at: nat, run: Run)
    requires Solid(history, left, screen) && at !in left && Backed(history, map[at := run], screen, at)
    ensures Solid(history, left[at := run], screen)
  {
    var more := left[at := run];
    forall k | k in more
      ensures Backed(history, more, screen, k)
    {
      assert k != at ==> Backed(history, left, screen, k);
    }
  }

  lemma LeftOutGrows(was: seq<Row>, history: seq<Row>, left: Runs, cut: nat, screen: nat, budget: nat)
    requires LeftOut(was, left, cut, screen, budget)
    requires screen <= |was| <= |history| && was[..|was| - screen] == history[..|was| - screen]
    ensures LeftOut(history, left, cut, screen, budget)
  {
    LengthGrows(left, cut, |was|, |history|);
    hide Length;
    forall k | k in left && k < cut
      ensures Backed(history, left, screen, k)
    {
      BackedGrows(was, history, left, screen, k);
    }
  }

  /** What the view's terminal remembers: the normal buffer it still has, and
      what is recorded of shortened repeats while it is written. */
  datatype Memory = Memory(lines: seq<Row>, runs: seq<Kept>, before: Marker, gauge: Marker, placed: int, trimmed: int)

  /** What really happened: every row ever written and how many of them were
      trimmed, every run left out, the rows that the recorded ones follow, the
      row up to which older ones were let go, the trimmed rows that recorded
      positions do not count, and the rows that the two markers were put on. */
  datatype Past = Past(history: seq<Row>, lost: nat, left: Runs, keys: seq<nat>, cut: nat, base: nat, mark: int,
      gauged: int)

  /** The buffer holds the newest rows, at most the budget and one more above
      the screen. */
  ghost predicate Trimmed(m: Memory, p: Past, screen: nat, budget: nat) {
    && 1 <= screen <= |m.lines| <= budget + 1 + screen
    && p.lost + |m.lines| == |p.history| && m.lines == p.history[p.lost..]
    && (p.lost > 0 ==> |m.lines| == budget + 1 + screen)
  }

  ghost predicate Recorded(m: Memory, p: Past, draw: Draw) {
    && Matches(m.runs, p.keys, p.left, p.cut, p.base, draw)
    && (forall k :: k in p.left ==> k <= p.gauged)
  }

  ghost predicate Marked(m: Memory, p: Past, screen: nat) {
    && p.base <= p.lost
    && Marks(m.before, p.mark, p.lost)
    && (m.before != Unset ==> 0 <= p.mark <= |p.history| - screen && forall k :: k in p.left ==> k < p.mark)
    && Marks(m.gauge, p.gauged, p.lost)
    && (if m.gauge == Unset then m.runs == [] && m.placed == 0 && m.trimmed == 0 && p.base == 0
        else m.placed + m.trimmed + p.base == p.gauged)
  }

  ghost predicate Inv(m: Memory, p: Past, screen: nat, budget: nat, draw: Draw) {
    && Trimmed(m, p, screen, budget) && LeftOut(p.history, p.left, p.cut, screen, budget)
    && Recorded(m, p, draw) && Marked(m, p, screen)
  }

  /** Rows scroll off and a screen is left; rows past the limit are trimmed
      and the markers move. */
  function AfterOutput(m: Memory, pushed: seq<Row>, view: seq<Row>, budget: nat): Memory
    requires |view| <= |m.lines|
  {
    var lines := m.lines[..|m.lines| - |view|] + pushed + view;
    var excess := if |lines| > budget + 1 + |view| then |lines| - (budget + 1 + |view|) else 0;
    Memory(lines[excess..], m.runs, Shifted(m.before, excess), Shifted(m.gauge, excess), m.placed, m.trimmed)
  }

  function Grown(p: Past, pushed: seq<Row>, view: seq<Row>, kept: nat): Past
    requires |view| <= |p.history| && kept <= |p.history| + |pushed|
  {
    p.(history := p.history[..|p.history| - |view|] + pushed + view, lost := |p.history| + |pushed| - kept)
  }

  lemma OutputTrims(m: Memory, p: Past, pushed: seq<Row>, view: seq<Row>, budget: nat)
    requires Trimmed(m, p, |view|, budget)
    ensures
      var m' := AfterOutput(m, pushed, view, budget);
      Trimmed(m', Grown(p, pushed, view, |m'.lines|), |view|, budget)
  {
    var p' := Grown(p, pushed, view, |AfterOutput(m, pushed, view, budget).lines|);
    assert p.history[p.lost..] == m.lines;
    assert m.lines[..|m.lines| - |view|] + pushed + view == p'.history[p.lost..];
  }

  lemma OutputMarks(m: Memory, p: Past, pushed: seq<Row>, view: seq<Row>, budget: nat)
    requires Marked(m, p, |view|) && Trimmed(m, p, |view|, budget)
    ensures var m' := AfterOutput(m, pushed, view, budget); Marked(m', Grown(p, pushed, view, |m'.lines|), |view|)
  {
  }

  lemma OutputKeeps(m: Memory, p: Past, pushed: seq<Row>, view: seq<Row>, budget: nat, draw: Draw)
    requires Inv(m, p, |view|, budget, draw)
    ensures
      var m' := AfterOutput(m, pushed, view, budget);
      Inv(m', Grown(p, pushed, view, |m'.lines|), |view|, budget, draw)
  {
    hide LeftOut, Matches, Marked;
    var m' := AfterOutput(m, pushed, view, budget);
    var p' := Grown(p, pushed, view, |m'.lines|);
    OutputTrims(m, p, pushed, view, budget);
    OutputMarks(m, p, pushed, view, budget);
    LeftOutGrows(p.history, p'.history, p.left, p.cut, |view|, budget);
  }

  lemma OutputSolid(m: Memory, p: Past, pushed: seq<Row>, view: seq<Row>, budget: nat, draw: Draw)
    requires Inv(m, p, |view|, budget, draw)
    ensures var p' := Grown(p, pushed, view, |AfterOutput(m, pushed, view, budget).lines|);
      Solid(p.history, p.left, |view|) ==> Solid(p'.history, p'.left, |view|)
  {
    hide Solid, Backed;
    if Solid(p.history, p.left, |view|) {
      SolidGrows(p.history, p.history[..|p.history| - |view|] + pushed + view, p.left, |view|);
    }
  }

  // ----- recording one more run -----

  lemma {:induction false} LengthBelow(left: Runs, cut: nat, a: nat)
    requires a <= cut
    ensures Length(left, cut, a) == a
  {
    if a != 0 {
      LengthBelow(left, cut, a - 1);
    }
  }

  lemma {:induction false} LengthMore(left: Runs, at: nat, run: Run, cut: nat, a: nat)
    requires at !in left
    ensures Length(left, cut, a) <= Length(left[at := run], cut, a)
  {
    if a != 0 {
      LengthMore(left, at, run, cut, a - 1);
    }
  }

  /** Runs up to the cut may be let go once that many rows follow them, be it
      rows of the terminal or copies of a later run. */
  lemma FarBack(history: seq<Row>, left: Runs, cut: nat, screen: nat, budget: nat, at: nat)
    requires Within(history, left, screen) && 1 <= cut <= at && cut - 1 in left && at in left
    requires BackedUpTo(history, left, screen, cut - 1)
    requires cut + budget + 1 <= |history| || budget < left[at].count
    ensures LeftOut(history, left, cut, screen, budget)
  {
    LengthBelow(left, cut, cut);
    LengthGrows(left, cut, cut, |history|);
  }

  lemma LeftOutMore(history: seq<Row>, left: Runs, cut: nat, screen: nat, budget: nat, at: nat, run: Run)
    requires LeftOut(history, left, cut, screen, budget) && at !in left && cut <= at
    requires at + screen < |history| && run.row.wrapped
    ensures LeftOut(history, left[at := run], cut, screen, budget)
  {
    LengthMore(left, at, run, cut, |history|);
    if cut > 0 {
      BackedAlso(history, left, screen, at, run, cut - 1);
    }
  }

  /** Runs below another are as they were. */
  lemma BackedAlso(history: seq<Row>, left: Runs, screen: nat, at: nat, run: Run, upTo: nat)
    requires BackedUpTo(history, left, screen, upTo) && upTo < at
    ensures BackedUpTo(history, left[at := run], screen, upTo)
  {
    var more := left[at := run];
    forall k | k in more && k <= upTo
      ensures Backed(history, more, screen, k)
    {
      assert Backed(history, left, screen, k);
    }
  }

  /** The recorded runs are those of `left` from the cut on. */
  ghost predicate Matches(runs: seq<Kept>, keys: seq<nat>, left: Runs, cut: nat, base: nat, draw: Draw) {
    && |keys| == |runs|
    && (forall i, j :: 0 <= i < j < |keys| ==> keys[i] < keys[j])
    && (forall i :: 0 <= i < |keys| ==> cut <= keys[i] && keys[i] in left)
    && (forall i :: 0 <= i < |keys| ==> runs[i] == Kept(keys[i] - base, left[keys[i]].count,
      draw(left[keys[i]].row, true), draw(left[keys[i]].row, false)))
    && (forall k :: k in left && cut <= k ==> k in keys)
  }

  lemma MatchesFewer(runs: seq<Kept>, keys: seq<nat>, left: Runs, cut: nat, base: nat, draw: Draw, n: nat)
    requires Matches(runs, keys, left, cut, base, draw) && n < |keys|
    ensures Matches(runs[n + 1..], keys[n + 1..], left, keys[n] + 1, base, draw)
  {
    forall k | k in left && keys[n] + 1 <= k
      ensures k in keys[n + 1..]
    {
      var i :| 0 <= i < |keys| && keys[i] == k;
      assert keys[n + 1..][i - n - 1] == k;
    }
  }

  lemma MatchesMore(runs: seq<Kept>, keys: seq<nat>, left: Runs, cut: nat, base: nat, draw: Draw, at: nat, run: Run)
    requires Matches(runs, keys, left, cut, base, draw) && cut <= at && forall k :: k in left ==> k < at
    ensures Matches(runs + [Kept(at - base, run.count, draw(run.row, true), draw(run.row, false))],
      keys + [at], left[at := run], cut, base, draw)
  {
  }

  /** While a run at `at` is being recorded: the runs that are still kept, and
      no harm in having let go of the others once that run is. */
  ghost predicate Letting(runs: seq<Kept>, keys: seq<nat>, cut: nat, base: nat, p: Past, at: nat, run: Run,
    screen: nat, budget: nat, draw: Draw)
  {
    && Matches(runs, keys, p.left, cut, base, draw) && LeftOut(p.history, p.left[at := run], cut, screen, budget)
    && cut <= at && (forall k :: k in p.left ==> k < at) && Solid(p.history, p.left, screen)
  }

  ghost predicate Recordable(m: Memory, p: Past, at: nat, run: Run, screen: nat, budget: nat, draw: Draw) {
    && Inv(m, p, screen, budget, draw) && m.before == Unset && Solid(p.history, p.left, screen)
    && at + screen + 1 == |p.history| && run.row.wrapped
    && (forall k :: k in p.left ==> k < at)
  }

  lemma RecordableLines(m: Memory, p: Past, at: nat, run: Run, screen: nat, budget: nat, draw: Draw)
    requires Recordable(m, p, at, run, screen, budget, draw)
    ensures Inv(m, p, screen, budget, draw)
    ensures m.before == Unset && |m.lines| + p.lost == |p.history| == at + screen + 1 && p.base <= p.lost
  {
  }

  lemma LettingStart(m: Memory, p: Past, at: nat, run: Run, screen: nat, budget: nat, draw: Draw)
    requires Recordable(m, p, at, run, screen, budget, draw)
    ensures Letting(m.runs, p.keys, p.cut, p.base, p, at, run, screen, budget, draw)
  {
    LeftOutMore(p.history, p.left, p.cut, screen, budget, at, run);
  }

  /** All runs go when their rows were trimmed or one run fills the budget. */
  lemma LetGoAll(m: Memory, p: Past, at: nat, run: Run, screen: nat, budget: nat, draw: Draw) returns (cut: nat)
    requires Recordable(m, p, at, run, screen, budget, draw)
    requires m.gauge == Disposed || budget < run.count
    ensures Letting([], [], cut, p.base, p, at, run, screen, budget, draw)
  {
    LettingStart(m, p, at, run, screen, budget, draw);
    cut := p.cut;
    if m.runs != [] {
      LetGo(m.runs, p.keys, p.cut, p.base, p, at, run, screen, budget, draw, |m.runs| - 1);
      cut := p.keys[|m.runs| - 1] + 1;
    }
  }

  lemma LettingAt(runs: seq<Kept>, keys: seq<nat>, cut: nat, base: nat, p: Past, at: nat, run: Run,
    screen: nat, budget: nat, draw: Draw, n: nat)
    requires Letting(runs, keys, cut, base, p, at, run, screen, budget, draw) && n < |keys|
    ensures keys[n] in p.left && keys[n] < at && BackedUpTo(p.history, p.left, screen, keys[n])
  {
  }

  lemma LetGo(runs: seq<Kept>, keys: seq<nat>, cut: nat, base: nat, p: Past, at: nat, run: Run,
    screen: nat, budget: nat, draw: Draw, n: nat)
    requires Letting(runs, keys, cut, base, p, at, run, screen, budget, draw) && n < |keys|
    requires keys[n] + budget + 2 <= |p.history| || budget < run.count
    ensures Letting(runs[n + 1..], keys[n + 1..], keys[n] + 1, base, p, at, run, screen, budget, draw)
  {
    hide Matches, Backed, Length;
    LettingAt(runs, keys, cut, base, p, at, run, screen, budget, draw, n);
    MatchesFewer(runs, keys, p.left, cut, base, draw, n);
    BackedAlso(p.history, p.left, screen, at, run, keys[n]);
    FarBack(p.history, p.left[at := run], keys[n] + 1, screen, budget, at);
  }

  lemma LettingRebased(m: Memory, p: Past, at: nat, run: Run, screen: nat, budget: nat, draw: Draw,
    runs: seq<Kept>, keys: seq<nat>, cut: nat)
    requires Recordable(m, p, at, run, screen, budget, draw)
    requires Letting(runs, keys, cut, p.base, p, at, run, screen, budget, draw)
    requires runs == [] || (runs == m.runs && m.gauge == Unset)
    ensures Letting(runs, keys, cut, p.lost, p, at, run, screen, budget, draw)
  {
  }

  lemma LettingDone(m: Memory, p: Past, at: nat, run: Run, screen: nat, budget: nat, draw: Draw,
    runs: seq<Kept>, keys: seq<nat>, cut: nat, base: nat)
    requires Recordable(m, p, at, run, screen, budget, draw)
    requires Letting(runs, keys, cut, base, p, at, run, screen, budget, draw) && base <= p.lost
    ensures var all := runs + [Kept(at - base, run.count, draw(run.row, true), draw(run.row, false))];
      var m' := Memory(m.lines, all, Unset, At(at - p.lost), at - p.lost, p.lost - base);
      Inv(m', Past(p.history, p.lost, p.left[at := run], keys + [at], cut, base, p.mark, at), screen, budget, draw)
  {
    MatchesMore(runs, keys, p.left, cut, base, draw, at, run);
  }

  /** What the same output left in a terminal that neither trims rows nor
      shortens repeats. */
  ghost function All(p: Past): (rows: seq<Row>)
    ensures |rows| >= |p.history|
  {
    ExpandLength(p.history, p.left, 0, |p.history|);
    LengthGrows(p.left, 0, 0, |p.history|);
    Expand(p.history, p.left, 0, |p.history|)
  }

  // ----- reading it back -----

  /** The texts of the recorded runs and of the rows they stand between. */
  ghost function Texts(p: Past, draw: Draw): seq<string> {
    Render(Expand(p.history, p.left, p.cut, |p.history|), draw)
  }

  /** From m on, x holds `row` and c copies, with or without a wrap after. */
  ghost predicate RowThere(x: seq<Row>, m: nat, c: nat, row: Row, copy: Row, next: bool) {
    && m + c < |x| && x[m] == row && (c > 0 ==> copy.wrapped)
    && (forall k :: m < k <= m + c ==> x[k] == copy) && Wraps(x, m + 1 + c) == next
  }

  /** The same as it is drawn. */
  ghost predicate Drawn(texts: seq<string>, m: nat, c: nat, row: Row, copy: Row, next: bool, draw: Draw) {
    && m + c < |texts| && texts[m] == draw(row, c > 0 || next)
    && forall k :: m < k <= m + c ==> texts[k] == draw(copy, k < m + c || next)
  }

  lemma DrawnRows(x: seq<Row>, m: nat, c: nat, row: Row, copy: Row, next: bool, draw: Draw)
    requires RowThere(x, m, c, row, copy, next)
    ensures Drawn(Render(x, draw), m, c, row, copy, next, draw)
  {
    hide Render;
    forall k | m < k <= m + c
      ensures Wraps(x, k)
    {
    }
  }

  /** Row a - 1 and the copies after it. */
  lemma RowsAt(rows: seq<Row>, left: Runs, cut: nat, a: nat, copy: Row)
    requires 1 <= a <= |rows| && (a - 1 in left ==> left[a - 1].row == copy && copy.wrapped)
    ensures Length(left, cut, a) == Length(left, cut, a - 1) + 1 + |CopiesAt(left, cut, a - 1)|
    ensures RowThere(Expand(rows, left, cut, |rows|), Length(left, cut, a - 1), |CopiesAt(left, cut, a - 1)|,
      rows[a - 1], copy, Wraps(rows, a))
  {
    ExpandPrefix(rows, left, cut, a, |rows|);
    ExpandLength(rows, left, cut, a);
    ExpandLength(rows, left, cut, a - 1);
    var w, copies := Expand(rows, left, cut, a - 1), CopiesAt(left, cut, a - 1);
    var x, y := Expand(rows, left, cut, |rows|), Expand(rows, left, cut, a);
    var m, c := |w|, |copies|;
    assert y == w + [rows[a - 1]] + copies;
    assert |x| == |y| <==> a == |rows|;
    hide Expand;
    assert x[m] == x[..|y|][m] == y[m] == rows[a - 1];
    forall k | m < k <= m + c
      ensures x[k] == copy
    {
      assert x[k] == x[..|y|][k] == y[k] == copies[k - m - 1];
    }
  }

  lemma RowTexts(p: Past, draw: Draw, a: nat, copy: Row)
    requires 1 <= a <= |p.history| && (a - 1 in p.left ==> p.left[a - 1].row == copy && copy.wrapped)
    ensures Length(p.left, p.cut, a) == Length(p.left, p.cut, a - 1) + 1 + |CopiesAt(p.left, p.cut, a - 1)|
    ensures Drawn(Texts(p, draw), Length(p.left, p.cut, a - 1), |CopiesAt(p.left, p.cut, a - 1)|,
      p.history[a - 1], copy, Wraps(p.history, a), draw)
  {
    RowsAt(p.history, p.left, p.cut, a, copy);
    DrawnRows(Expand(p.history, p.left, p.cut, |p.history|), Length(p.left, p.cut, a - 1),
      |CopiesAt(p.left, p.cut, a - 1)|, p.history[a - 1], copy, Wraps(p.history, a), draw);
  }

  /** The first r runs follow rows before a, the others a or later rows. */
  ghost predicate Split(keys: seq<nat>, a: nat, r: nat) {
    && r <= |keys|
    && (forall i :: 0 <= i < r ==> keys[i] < a)
    && (forall i :: r <= i < |keys| ==> a <= keys[i])
  }

  lemma SplitDown(keys: seq<nat>, a: nat, r: nat)
    requires Split(keys, a + 1, r) && forall i, j :: 0 <= i < j < |keys| ==> keys[i] < keys[j]
    ensures Split(keys, a, if r > 0 && keys[r - 1] == a then r - 1 else r)
  {
  }

  /** Everything but the first a rows, and the copies after them, was read. */
  ghost predicate ReadDown(p: Past, draw: Draw, e: nat, a: nat, r: nat, kept: seq<string>, size: nat, budget: nat,
      chars: nat) {
    && a <= |p.history| && Split(p.keys, a, r)
    && Reading(Texts(p, draw), e, Length(p.left, p.cut, a), kept, size, budget, chars)
    && |kept| + Length(p.left, p.cut, a) == e
  }

  /** Keeps a text as the next older row, unless the budget is full. */
  method Keep(text: string, kept: seq<string>, size: nat, budget: nat, chars: nat, ghost texts: seq<string>,
      ghost e: nat, ghost p: nat)
    returns (ok: bool, kept': seq<string>, size': nat)
    requires Reading(texts, e, p + 1, kept, size, budget, chars) && texts[p] == text
    ensures if ok then Reading(texts, e, p, kept', size', budget, chars) && |kept'| == |kept| + 1
            else Newest(texts[..e], budget, chars) == Read(kept', size', true)
  {
    ReadNext(texts, e, p + 1, kept, size, budget, chars);
    if |kept| >= budget || size + |text| > chars { return false, kept, size; }
    return true, kept + [text], size + |text|;
  }

  /** The copies of one run, newest first. */
  method KeepCopies(run: Kept, full: bool, kept: seq<string>, size: nat, budget: nat, chars: nat,
    ghost texts: seq<string>, ghost e: nat, ghost m: nat, ghost row: Row, ghost copy: Row, ghost draw: Draw)
    returns (ok: bool, kept': seq<string>, size': nat, full': bool)
    requires 0 <= run.count && Drawn(texts, m, run.count, row, copy, full, draw)
    requires Reading(texts, e, m + 1 + run.count, kept, size, budget, chars)
    requires run.whole == draw(copy, true) && run.last == draw(copy, false)
    ensures if ok then Reading(texts, e, m + 1, kept', size', budget, chars) && |kept'| == |kept| + run.count
              && full' == (run.count > 0 || full)
            else Newest(texts[..e], budget, chars) == Read(kept', size', true)
  {
    hide Newest, Reading;
    ok, kept', size', full' := true, kept, size, full;
    var i := 0;
    while i < run.count
      invariant 0 <= i <= run.count && full' == (i > 0 || full) && |kept'| == |kept| + i
      invariant Reading(texts, e, m + 1 + run.count - i, kept', size', budget, chars)
    {
      ok, kept', size' :=
        Keep(if full' then run.whole else run.last, kept', size', budget, chars, texts, e, m + run.count - i);
      if !ok { return; }
      full' := true;
      i := i + 1;
    }
  }

  /** The copies after row a - 1 are those of the recorded run that is next
      to be read, if it follows that row. */
  lemma NextRun(m: Memory, p: Past, draw: Draw, a: nat, r: nat)
    requires Matches(m.runs, p.keys, p.left, p.cut, p.base, draw) && 1 <= a && Split(p.keys, a, r)
    ensures if r > 0 && p.keys[r - 1] == a - 1
            then a - 1 in p.left && |CopiesAt(p.left, p.cut, a - 1)| == m.runs[r - 1].count
              && m.runs[r - 1].whole == draw(p.left[a - 1].row, true)
                 && m.runs[r - 1].last == draw(p.left[a - 1].row, false)
            else |CopiesAt(p.left, p.cut, a - 1)| == 0
  {
    if a - 1 in p.left && p.cut <= a - 1 {
      var i :| 0 <= i < |p.keys| && p.keys[i] == a - 1;
      assert i < r;
    }
  }

  /** What trims() answers for these markers. */
  ghost predicate TrimsOf(m: Memory, p: Past, total: Trims) {
    total == if m.gauge.Disposed? then Infinite else Trims(if m.gauge.Unset? then 0 else p.lost - p.base)
  }

  /** What the terminal remembers says where its rows and runs really are. */
  lemma Places(m: Memory, p: Past, screen: nat, budget: nat, draw: Draw, y: nat, total: Trims)
    requires Inv(m, p, screen, budget, draw) && y < |m.lines|
    requires TrimsOf(m, p, total)
    ensures p.lost + |m.lines| == |p.history| && m.lines[y] == p.history[p.lost + y]
    ensures (y + 1 < |m.lines| && m.lines[y + 1].wrapped) == Wraps(p.history, p.lost + y + 1)
    ensures Matches(m.runs, p.keys, p.left, p.cut, p.base, draw)
    ensures p.lost + y in p.left ==> p.left[p.lost + y].row.wrapped
    ensures forall i :: 0 <= i < |m.runs| ==>
      ((total != Infinite && m.runs[i].at - total.n >= y) <==> p.keys[i] >= p.lost + y)
    ensures forall i :: 0 <= i < |m.runs| && total != Infinite ==>
      (m.runs[i].at - total.n == y <==> p.keys[i] == p.lost + y)
  {
  }

  /** Everything but the first a rows, row a itself included, was read. */
  ghost predicate ReadCopies(p: Past, draw: Draw, e: nat, a: nat, r: nat, kept: seq<string>, size: nat, budget: nat,
      chars: nat) {
    && Split(p.keys, a, r)
    && Reading(Texts(p, draw), e, Length(p.left, p.cut, a) + 1, kept, size, budget, chars)
    && |kept| + Length(p.left, p.cut, a) + 1 == e
  }

  /** Row a and the copies after it are where they are drawn. */
  ghost predicate Located(p: Past, draw: Draw, a: nat, copy: Row, full: bool) {
    && a < |p.history| && full == Wraps(p.history, a + 1)
    && (a in p.left ==> copy == p.left[a].row)
    && Length(p.left, p.cut, a + 1) == Length(p.left, p.cut, a) + 1 + |CopiesAt(p.left, p.cut, a)|
    && Drawn(Texts(p, draw), Length(p.left, p.cut, a), |CopiesAt(p.left, p.cut, a)|, p.history[a], copy, full, draw)
  }

  lemma NothingFollows(m: Memory, p: Past, draw: Draw, e: nat, a: nat, r: nat, kept: seq<string>, size: nat,
    budget: nat, chars: nat, copy: Row, full: bool)
    requires Matches(m.runs, p.keys, p.left, p.cut, p.base, draw) && Located(p, draw, a, copy, full)
    requires r <= |p.keys| && (r > 0 ==> p.keys[r - 1] < a) && ReadDown(p, draw, e, a + 1, r, kept, size, budget, chars)
    ensures |CopiesAt(p.left, p.cut, a)| == 0 && ReadCopies(p, draw, e, a, r, kept, size, budget, chars)
  {
    NextRun(m, p, draw, a + 1, r);
    SplitDown(p.keys, a, r);
  }

  /** The recorded run that follows row a. */
  method KeepFollowing(m: Memory, run: nat, full: bool, kept: seq<string>, size: nat, budget: nat, chars: nat,
    ghost p: Past, ghost draw: Draw, ghost e: nat, ghost a: nat, ghost copy: Row)
    returns (ok: bool, kept': seq<string>, size': nat, full': bool)
    requires Matches(m.runs, p.keys, p.left, p.cut, p.base, draw) && Located(p, draw, a, copy, full)
    requires run < |p.keys| && p.keys[run] == a && ReadDown(p, draw, e, a + 1, run + 1, kept, size, budget, chars)
    ensures if ok then full' == (|CopiesAt(p.left, p.cut, a)| > 0 || full)
              && ReadCopies(p, draw, e, a, run, kept', size', budget, chars)
            else Newest(Texts(p, draw)[..e], budget, chars) == Read(kept', size', true)
  {
    hide CopiesAt, Length, Newest, Texts;
    assert run < |m.runs|;
    NextRun(m, p, draw, a + 1, run + 1);
    SplitDown(p.keys, a, run + 1);
    ok, kept', size', full' := KeepCopies(m.runs[run], full, kept, size, budget, chars, Texts(p, draw), e,
      Length(p.left, p.cut, a), p.history[a], copy, draw);
  }

  lemma RunsBelow(m: Memory, p: Past, draw: Draw, e: nat, a: nat, run: int, kept: seq<string>, size: nat,
    budget: nat, chars: nat)
    requires Matches(m.runs, p.keys, p.left, p.cut, p.base, draw) && -1 <= run < |m.runs|
    requires ReadDown(p, draw, e, a + 1, run + 1, kept, size, budget, chars)
    ensures |m.runs| == |p.keys| && forall i, j :: 0 <= i < j < |p.keys| ==> p.keys[i] < p.keys[j]
    ensures run >= 0 ==> p.keys[run] <= a
  {
  }

  /** The copies that follow row y of the buffer, if a recorded run does. */
  method KeepRun(m: Memory, y: nat, run: int, total: Trims, full: bool, kept: seq<string>, size: nat,
    budget: nat, chars: nat, draw: Draw, ghost p: Past, ghost screen: nat, ghost e: nat, ghost copy: Row)
    returns (ok: bool, run': int, kept': seq<string>, size': nat, full': bool)
    requires Inv(m, p, screen, budget, draw) && TrimsOf(m, p, total) && y < |m.lines| && -1 <= run < |m.runs|
    requires ReadDown(p, draw, e, p.lost + y + 1, run + 1, kept, size, budget, chars)
    requires Located(p, draw, p.lost + y, copy, full)
    ensures if ok then -1 <= run' <= run && full' == (|CopiesAt(p.left, p.cut, p.lost + y)| > 0 || full)
              && ReadCopies(p, draw, e, p.lost + y, run' + 1, kept', size', budget, chars)
            else Newest(Texts(p, draw)[..e], budget, chars) == Read(kept', size', true)
  {
    hide *;
    ghost var a := p.lost + y;
    Places(m, p, screen, budget, draw, y, total);
    RunsBelow(m, p, draw, e, a, run, kept, size, budget, chars);
    ok, run', kept', size', full' := true, run, kept, size, full;
    while run' >= 0 && total != Infinite && m.runs[run'].at - total.n >= y
      invariant run' == run || (run' == run - 1 && run >= 0 && p.keys[run] == a)
      invariant run' == run ==> kept' == kept && size' == size && full' == full
      invariant run' == run - 1 ==> full' == (|CopiesAt(p.left, p.cut, a)| > 0 || full)
      invariant run' == run - 1 ==> ReadCopies(p, draw, e, a, run, kept', size', budget, chars)
    {
      if m.runs[run'].at - total.n == y {
        ok, kept', size', full' := KeepFollowing(m, run', full', kept', size', budget, chars, p, draw, e, a, copy);
        if !ok { return; }
      }
      run' := run' - 1;
    }
    if run' == run {
      NothingFollows(m, p, draw, e, a, run + 1, kept, size, budget, chars, copy, full);
    }
  }

  /** Row y of the buffer, after the copies that follow it. */
  method KeepRow(m: Memory, y: nat, run: int, total: Trims, kept: seq<string>, size: nat,
    budget: nat, chars: nat, draw: Draw, ghost p: Past, ghost screen: nat, ghost e: nat)
    returns (ok: bool, run': int, kept': seq<string>, size': nat)
    requires Inv(m, p, screen, budget, draw) && TrimsOf(m, p, total) && y < |m.lines| && -1 <= run < |m.runs|
    requires ReadDown(p, draw, e, p.lost + y + 1, run + 1, kept, size, budget, chars)
    ensures if ok then -1 <= run' < |m.runs| && ReadDown(p, draw, e, p.lost + y, run' + 1, kept', size', budget, chars)
            else Newest(Texts(p, draw)[..e], budget, chars) == Read(kept', size', true)
  {
    hide Inv, Texts;
    ghost var a := p.lost + y;
    Places(m, p, screen, budget, draw, y, total);
    ghost var copy := if a in p.left then p.left[a].row else p.history[a];
    RowTexts(p, draw, a + 1, copy);
    var full := y + 1 < |m.lines| && m.lines[y + 1].wrapped;
    assert Located(p, draw, a, copy, full);
    ok, run', kept', size', full :=
      KeepRun(m, y, run, total, full, kept, size, budget, chars, draw, p, screen, e, copy);
    if !ok { return; }
    assert Texts(p, draw)[Length(p.left, p.cut, a)] == draw(m.lines[y], full);
    ok, kept', size' :=
      Keep(draw(m.lines[y], full), kept', size', budget, chars, Texts(p, draw), e, Length(p.left, p.cut, a));
  }

  /** The screen's end with its undrawn rows left out. */
  method DrawnEnd(lines: seq<Row>, screen: nat, draw: Draw) returns (end: int)
    requires screen <= |lines|
    ensures end == |lines| - Undrawn(lines, screen, draw)
    ensures |lines| - screen <= end <= |lines|
    ensures forall i :: end <= i < |lines| ==> draw(lines[i], false) == "" || draw(lines[i], false) == "\r\n"
    ensures end > |lines| - screen ==> draw(lines[end - 1], false) != "" && draw(lines[end - 1], false) != "\r\n"
  {
    UndrawnExactly(lines, screen, draw);
    var baseY := |lines| - screen;
    end := |lines|;
    assert lines[..end] == lines;
    while end > baseY && draw(lines[end - 1], false) in ["", "\r\n"]
      invariant baseY <= end <= |lines|
      invariant |lines| - end + Undrawn(lines[..end], end - baseY, draw) == Undrawn(lines, screen, draw)
    {
      assert lines[..end][..end - 1] == lines[..end - 1];
      end := end - 1;
    }
  }

  /** No copies stand between or after the screen's rows. */
  lemma {:induction false} NothingBelow(rows: seq<Row>, left: Runs, cut: nat, a: nat, b: nat)
    requires a <= b <= |rows| && forall k :: k in left ==> k < a
    ensures Length(left, cut, b) == Length(left, cut, a) + (b - a)
    ensures Expand(rows, left, cut, b) == Expand(rows, left, cut, a) + rows[a..b]
  {
    if a < b {
      NothingBelow(rows, left, cut, a, b - 1);
      assert rows[a..b] == rows[a..b - 1] + [rows[b - 1]];
    }
  }

  lemma KeysAboveScreen(m: Memory, p: Past, screen: nat, budget: nat, draw: Draw, a: nat)
    requires Inv(m, p, screen, budget, draw) && |p.history| <= a + screen
    ensures Split(p.keys, a, |m.runs|) && (forall k :: k in p.left ==> k < a)
  {
  }

  /** Nothing was read yet. */
  lemma ReadStart(m: Memory, p: Past, screen: nat, budget: nat, draw: Draw, chars: nat, e: nat, a: nat)
    requires Inv(m, p, screen, budget, draw) && |p.history| <= a + screen && a <= |p.history|
    requires e + (|p.history| - a) == |Texts(p, draw)|
    ensures ReadDown(p, draw, e, a, |m.runs|, [], 0, budget, chars)
  {
    hide Inv;
    KeysAboveScreen(m, p, screen, budget, draw, a);
    NothingBelow(p.history, p.left, p.cut, a, |p.history|);
    ExpandLength(p.history, p.left, p.cut, |p.history|);
    assert Length(p.left, p.cut, a) == e;
    assert Reading(Texts(p, draw), e, e, [], 0, budget, chars);
  }

  /** Everything the buffer holds was read: then nothing was trimmed either. */
  lemma ReadAll(m: Memory, p: Past, screen: nat, budget: nat, draw: Draw, chars: nat, e: nat, r: nat, kept: seq<string>,
      size: nat)
    requires Inv(m, p, screen, budget, draw) && ReadDown(p, draw, e, p.lost, r, kept, size, budget, chars)
    requires |Texts(p, draw)| <= e + screen
    ensures Newest(Texts(p, draw)[..e], budget, chars) == Read(kept, size, false)
  {
    ExpandLength(p.history, p.left, p.cut, |p.history|);
    LengthGrows(p.left, p.cut, p.lost, |p.history|);
    hide Expand;
    assert p.lost == 0;
    assert Texts(p, draw)[..0] == [];
    assert kept + [] == kept;
  }

  lemma LastRows(x: seq<Row>, h: seq<Row>, lines: seq<Row>, lost: nat, screen: nat, w: seq<Row>)
    requires screen <= |lines| && lost + |lines| == |h| && lines == h[lost..]
    requires x == w + h[|h| - screen..]
    ensures Agree(x, lines, screen)
  {
    forall i: nat | i < screen
      ensures FromEnd(x, i) == FromEnd(lines, i)
    {
      assert FromEnd(x, i) == h[|h| - screen..][screen - 1 - i];
      assert FromEnd(lines, i) == h[|h| - 1 - i];
    }
  }

  /** The screen is the same whatever copies are put back above it. */
  lemma SameScreen(m: Memory, p: Past, screen: nat, budget: nat, draw: Draw)
    requires Inv(m, p, screen, budget, draw)
    ensures Agree(Expand(p.history, p.left, p.cut, |p.history|), m.lines, screen)
  {
    hide Expand;
    var h := p.history;
    assert screen <= |m.lines| && p.lost + |m.lines| == |h| && m.lines == h[p.lost..];
    KeysAboveScreen(m, p, screen, budget, draw, |h| - screen);
    NothingBelow(h, p.left, p.cut, |h| - screen, |h|);
    LastRows(Expand(h, p.left, p.cut, |h|), h, m.lines, p.lost, screen, Expand(h, p.left, p.cut, |h| - screen));
  }

  lemma {:induction false} LengthCuts(left: Runs, cut: nat, a: nat)
    ensures Length(left, cut, a) <= Length(left, 0, a)
  {
    if a != 0 {
      LengthCuts(left, cut, a - 1);
    }
  }

  /** What is kept of the runs reads like all of them. */
  lemma KeptReads(m: Memory, p: Past, screen: nat, budget: nat, draw: Draw, chars: nat)
    requires Inv(m, p, screen, budget, draw)
    ensures var rows := Expand(p.history, p.left, p.cut, |p.history|);
      && |rows| >= screen && |All(p)| >= screen
      && Newest(Shown(rows, screen, draw), budget, chars) == Newest(Shown(All(p), screen, draw), budget, chars)
      && Undrawn(rows, screen, draw) == Undrawn(m.lines, screen, draw)
  {
    hide Expand, Recorded, Marked, Newest, Shown, Undrawn, LeftOut, Length;
    var rows := Expand(p.history, p.left, p.cut, |p.history|);
    SameScreen(m, p, screen, budget, draw);
    UndrawnAgree(rows, m.lines, screen, draw);
    if p.cut > 0 {
      CutReads(p, screen, budget, draw, chars);
    } else {
      assert rows == All(p);
    }
  }

  /** Runs that were let go do not change what is read. */
  lemma CutReads(p: Past, screen: nat, budget: nat, draw: Draw, chars: nat)
    requires LeftOut(p.history, p.left, p.cut, screen, budget) && 1 <= screen && p.cut > 0
    ensures var rows := Expand(p.history, p.left, p.cut, |p.history|);
      && |rows| >= screen && |All(p)| >= screen
      && Newest(Shown(rows, screen, draw), budget, chars) == Newest(Shown(All(p), screen, draw), budget, chars)
  {
    hide Expand, Length, Newest, Shown, CopiesAt;
    var n := |p.history|;
    assert Backed(p.history, p.left, screen, p.cut - 1);
    hide Backed;
    Forget(p.history, p.left, screen, p.cut - 1, n);
    ExpandLength(p.history, p.left, p.cut, n);
    ExpandLength(p.history, p.left, 0, n);
    LengthCuts(p.left, p.cut, n);
    var rows, far := Expand(p.history, p.left, p.cut, n), Length(p.left, p.cut, n) - p.cut + Backing(screen);
    AgreeLess(All(p), rows, far, budget + screen);
    ReadAgree(All(p), rows, screen, draw, budget, chars);
  }

  /** The newest rows of the buffer, newest first, with the copies that
      shortened repeats left out in their place, and whether older rows were
      left out.  They are those of a terminal that neither trimmed a row nor
      shortened a repeat, although runs were let go. */
  method NewestRows(m: Memory, screen: nat, budget: nat, chars: nat, total: Trims, draw: Draw, ghost p: Past)
    returns (kept: seq<string>, size: nat, dropped: bool)
    requires Inv(m, p, screen, budget, draw) && TrimsOf(m, p, total)
    ensures screen <= |All(p)|
    ensures Read(kept, size, dropped) == Newest(Shown(All(p), screen, draw), budget, chars)
  {
    hide All, Expand, Newest, ReadDown, Render;
    ghost var rows := Expand(p.history, p.left, p.cut, |p.history|);
    ghost var u := Undrawn(m.lines, screen, draw);
    assert screen <= |m.lines| <= |p.history| && p.lost + |m.lines| == |p.history|;
    KeptReads(m, p, screen, budget, draw, chars);
    var end := DrawnEnd(m.lines, screen, draw);
    ghost var e := |rows| - u;
    assert Texts(p, draw) == Render(rows, draw) && Shown(rows, screen, draw) == Texts(p, draw)[..e];
    ReadStart(m, p, screen, budget, draw, chars, e, p.lost + end);
    kept, size := [], 0;
    var run: int, y: int := |m.runs| - 1, end - 1;
    while y >= 0
      invariant -1 <= y < end && -1 <= run < |m.runs|
      invariant ReadDown(p, draw, e, p.lost + y + 1, run + 1, kept, size, budget, chars)
    {
      var ok;
      ok, run, kept, size := KeepRow(m, y, run, total, kept, size, budget, chars, draw, p, screen, e);
      if !ok { return kept, size, true; }
      y := y - 1;
    }
    ReadAll(m, p, screen, budget, draw, chars, e, run + 1, kept, size);
    return kept, size, false;
  }

  /** The row at the screen's top can be copied. */
  ghost predicate Repeatable(p: Past, screen: nat, lines: seq<Row>, cols: Cols, periods: nat) {
    && 1 <= screen <= |lines| && screen < |p.history| && Solid(p.history, p.left, screen)
    && var top := lines[|lines| - screen];
      && top.wrapped && |top.cells| > 0 && 1 <= top.cells[0].width <= 2
      && 0 <= RowsLeftOut(cols, top.cells[0].width, periods)
  }

  function WithRun(left: Runs, at: nat, top: Row, cols: Cols, periods: nat): Runs {
    if |top.cells| > 0 && 1 <= top.cells[0].width <= 2 && 0 <= RowsLeftOut(cols, top.cells[0].width, periods)
    then left[at := Run(RowsLeftOut(cols, top.cells[0].width, periods), top)] else left
  }

  lemma TopLine(m: Memory, p: Past, screen: nat, budget: nat, draw: Draw)
    requires Inv(m, p, screen, budget, draw)
    ensures 1 <= screen <= |m.lines| <= |p.history| && m.lines[|m.lines| - screen] == p.history[|p.history| - screen]
  {
  }

  lemma HookUnset(m: Memory, p: Past, screen: nat, budget: nat, draw: Draw)
    requires Inv(m, p, screen, budget, draw) && m.before != Unset
    ensures Inv(m.(before := Unset), p, screen, budget, draw)
    ensures (m.before.Disposed? || m.before.line < |m.lines| - screen) <==> p.mark < |p.history| - screen
    ensures forall k :: k in p.left ==> k < p.mark
  {
    hide LeftOut, Matches;
  }

  /** Once the marker is used, the rows that the hook finds may be recorded. */
  lemma HookRecords(m: Memory, p: Past, screen: nat, budget: nat, draw: Draw, cols: Cols, periods: nat)
    requires Inv(m, p, screen, budget, draw) && m.before == Unset && Repeatable(p, screen, m.lines, cols, periods)
    requires p.mark < |p.history| - screen && forall k :: k in p.left ==> k < p.mark
    ensures
      var top := m.lines[|m.lines| - screen];
      var at := |p.history| - screen - 1;
      && 0 <= at && |top.cells| > 0 && 1 <= top.cells[0].width <= 2
         && 0 <= RowsLeftOut(cols, top.cells[0].width, periods)
      && Recordable(m, p, at, Run(RowsLeftOut(cols, top.cells[0].width, periods), top), screen, budget, draw)
      && p.left[at := Run(RowsLeftOut(cols, top.cells[0].width, periods), top)]
         == WithRun(p.left, at, top, cols, periods)
  {
    hide Inv, RowsLeftOut;
  }

  /** The normal buffer of a terminal that keeps only its newest rows. */
  class Terminal {
    const screen: nat
    const budget: nat
    const cols: Cols
    const draw: Draw
    var lines: seq<Row>
    var runs: seq<Kept>
    var before: Marker
    var gauge: Marker
    var placed: int
    var trimmed: int
    ghost var past: Past

    ghost function State(): Memory
      reads this
    {
      Memory(lines, runs, before, gauge, placed, trimmed)
    }

    ghost predicate Valid()
      reads this
    {
      Inv(State(), past, screen, budget, draw)
    }

    constructor (screen: nat, budget: nat, cols: Cols, draw: Draw, blank: seq<Row>)
      requires 1 <= screen == |blank|
      ensures Valid() && past == Past(blank, 0, map[], [], 0, 0, 0, 0)
      ensures this.screen == screen && this.budget == budget && this.cols == cols && this.draw == draw
    {
      this.screen, this.budget, this.cols, this.draw := screen, budget, cols, draw;
      lines, runs, before, gauge, placed, trimmed := blank, [], Unset, Unset, 0, 0;
      past := Past(blank, 0, map[], [], 0, 0, 0, 0);
    }

    method Output(pushed: seq<Row>, view: seq<Row>)
      requires Valid() && |view| == screen
      modifies this
      ensures Valid() && past == old(Grown(past, pushed, view, |AfterOutput(State(), pushed, view, budget).lines|))
      ensures before == Unset <==> old(before) == Unset
      ensures old(Solid(past.history, past.left, screen)) ==> Solid(past.history, past.left, screen)
    {
      hide Grown, Inv, Solid;
      TopLine(State(), past, screen, budget, draw);
      OutputSolid(State(), past, pushed, view, budget, draw);
      OutputKeeps(State(), past, pushed, view, budget, draw);
      var all := lines[..|lines| - screen] + pushed + view;
      var excess := if |all| > budget + 1 + screen then |all| - (budget + 1 + screen) else 0;
      lines, before, gauge := all[excess..], Shifted(before, excess), Shifted(gauge, excess);
      past := Grown(past, pushed, view, |lines|);
    }

    /** A repeat with a second parameter is about to run. */
    method BeforeRepeat(alternate: bool)
      requires Valid()
      modifies this`before, this`past
      ensures Valid() && past == old(past).(mark := |past.history| - screen)
      ensures before.Unset? == alternate
    {
      before := if alternate then Unset else At(|lines| - screen);
      past := past.(mark := |past.history| - screen);
    }

    method Trim() returns (t: Trims)
      requires Valid()
      ensures t == if gauge.Disposed? then Infinite else Trims(if gauge.Unset? then 0 else past.lost - past.base)
    {
      t := match gauge
           case Disposed => Infinite
           case At(line) => Trims(trimmed + placed - line)
           case Unset => Trims(trimmed + placed - placed);
    }

    /** Lets go of the recorded runs that lie past the row budget. */
    method LetOldGo(rs: seq<Kept>, trimmed: int, ghost keys: seq<nat>, ghost cut: nat, ghost base: nat,
      ghost p: Past, ghost at: nat, ghost run: Run)
      returns (kept: seq<Kept>, ghost keys': seq<nat>, ghost cut': nat)
      requires Letting(rs, keys, cut, base, p, at, run, screen, budget, draw)
      requires trimmed == p.lost - base && p.lost + |lines| == |p.history|
      ensures Letting(kept, keys', cut', base, p, at, run, screen, budget, draw)
    {
      kept, keys', cut' := rs, keys, cut;
      while kept != [] && |lines| - (kept[0].at - trimmed) > budget + 1
        invariant Letting(kept, keys', cut', base, p, at, run, screen, budget, draw)
      {
        assert |keys'| > 0 && kept[0].at == keys'[0] - base;
        LetGo(kept, keys', cut', base, p, at, run, screen, budget, draw, 0);
        kept, keys', cut' := kept[1..], keys'[1..], keys'[0] + 1;
      }
    }

    /** Records copies of `top` after the newest row above the screen. */
    method Record(top: Row, count: nat, ghost at: nat)
      requires Recordable(State(), past, at, Run(count, top), screen, budget, draw)
      modifies this
      ensures Valid() && before == Unset && lines == old(lines)
      ensures past.history == old(past.history) && past.lost == old(past.lost)
      ensures past.left == old(past.left)[at := Run(count, top)]
    {
      hide Inv, Letting, Recordable;
      ghost var m, p, run := State(), past, Run(count, top);
      ghost var keys: seq<nat>, cut: nat, base: nat := p.keys, p.cut, p.base;
      RecordableLines(m, p, at, run, screen, budget, draw);
      LettingStart(m, p, at, run, screen, budget, draw);
      var total := Trim();
      var rs := runs;
      if total == Infinite || count > budget {
        cut := LetGoAll(m, p, at, run, screen, budget, draw);
        rs, keys := [], [];
      }
      trimmed := if total == Infinite then 0 else total.n;
      placed := |lines| - screen - 1;
      if total == Infinite || gauge == Unset {
        base := p.lost;
        LettingRebased(m, p, at, run, screen, budget, draw, rs, keys, cut);
      }
      rs, keys, cut := LetOldGo(rs, trimmed, keys, cut, base, p, at, run);
      LettingDone(m, p, at, run, screen, budget, draw, rs, keys, cut, base);
      gauge := At(|lines| - screen - 1);
      runs := rs + [Kept(placed + trimmed, count, draw(top, true), draw(top, false))];
      past := Past(p.history, p.lost, p.left[at := run], keys + [at], cut, base, p.mark, at);
    }

    /** The periods that the repeat just run left out. */
    method Hook(periods: nat)
      requires Valid()
      requires before != Unset && past.mark < |past.history| - screen ==> Repeatable(past, screen, lines, cols, periods)
      modifies this
      ensures Valid() && before == Unset && lines == old(lines)
      ensures past.history == old(past.history) && past.lost == old(past.lost)
      ensures past.left ==
        if old(before) != Unset && old(past.mark) < |past.history| - screen
        then WithRun(old(past.left), |past.history| - screen - 1, lines[|lines| - screen], cols, periods)
        else old(past.left)
    {
      hide Inv, Repeatable, RowsLeftOut, WithRun;
      if before == Unset { return; }
      TopLine(State(), past, screen, budget, draw);
      HookUnset(State(), past, screen, budget, draw);
      var baseY := |lines| - screen;
      var pushed := before.Disposed? || before.line < baseY;
      before := Unset;
      if !pushed { return; }
      HookRecords(State(), past, screen, budget, draw, cols, periods);
      ghost var at: nat := |past.history| - screen - 1;
      var top := lines[baseY];
      var width := if top.cells[0].width == 0 then 1 else top.cells[0].width;
      var count := RowsLeftOut(cols, width, periods);
      Record(top, count, at);
    }

    /** The newest rows, whatever was trimmed, shortened or let go before. */
    method Rows(chars: nat) returns (kept: seq<string>, size: nat, dropped: bool)
      requires Valid()
      ensures screen <= |All(past)|
      ensures Read(kept, size, dropped) == Newest(Shown(All(past), screen, draw), budget, chars)
    {
      assert Inv(Memory(lines, runs, before, gauge, placed, trimmed), past, screen, budget, draw);
      var total := Trim();
      assert TrimsOf(Memory(lines, runs, before, gauge, placed, trimmed), past, total);
      kept, size, dropped :=
        NewestRows(Memory(lines, runs, before, gauge, placed, trimmed), screen, budget, chars, total, draw, past);
    }
  }
}
