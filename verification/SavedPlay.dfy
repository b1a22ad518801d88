/** A rewritten segment as the terminal that reads it back performs it, and that
    this shows what the output shows in full. */
module SavedPlay {
  import opened Basics
  import opened VtScanner
  import opened VtItems
  import opened SavedMeaning
  import opened SavedOutput
  import SavedSegments
  import SavedLimits
  import opened SavedRows
  import opened SavedShorts
  import opened RowBudget
  import L = LeftOutRows
  import R = RepeatScreen

  /** How a terminal performs effects: what any effect does that does not draw
      an ASCII character or repeat one, in which pen it draws, and what it
      remembers of having drawn. */
  datatype Reader<!H> = Reader(
    act: (SavedMeaning.Effect, H, R.View) -> SavedOutput.Effect<H>,
    pen: (Last, H) -> R.Pen,
    drew: (Last, H) -> H)

  /** Drawing a character again changes nothing about how it is drawn, and
      output does not resize the terminal. */
  ghost predicate Steady<H(!new)>(reader: Reader<H>) {
    && (forall last: Last, hidden: H {:trigger reader.drew(last, hidden)} ::
          && reader.pen(last, reader.drew(last, hidden)) == reader.pen(last, hidden)
          && reader.drew(last, reader.drew(last, hidden)) == reader.drew(last, hidden))
    && (forall e: SavedMeaning.Effect, hidden: H, v: R.View {:trigger reader.act(e, hidden, v)} ::
          SameSize(v, reader.act(e, hidden, v).view))
  }

  // ----- performing effects in full -----

  /** What an effect draws with a pen: an ASCII character, or whatever was drawn last. */
  function Drawing(e: SavedMeaning.Effect): Last {
    if e.Print? && 0x20 <= e.unit <= 0x7e then Drawn(e.unit) else if e.Again? then Unknown else Nothing
  }

  function Draws<H>(reader: Reader<H>, m: Moment<H>, last: Last, n: nat): Moment<H> {
    Moment(R.PrintN(m.screen, reader.pen(last, m.hidden), n), reader.drew(last, m.hidden))
  }

  function Do<H>(reader: Reader<H>, m: Moment<H>, e: SavedMeaning.Effect): Moment<H> {
    if Drawing(e) != Nothing then Draws(reader, m, Drawing(e), 1)
    else
      var done := reader.act(e, m.hidden, m.screen.view);
      Moment(R.Screen(m.screen.back + done.pushed, done.view), done.hidden)
  }

  /** ASCII characters and repeats are printed in the reader's pen; every other
      effect is the reader's own. */
  lemma DoesEach<H>(reader: Reader<H>, m: Moment<H>, e: SavedMeaning.Effect)
    ensures
      var ascii := e.Print? && 0x20 <= e.unit <= 0x7e;
      var last, done := if ascii then Drawn(e.unit) else Unknown, reader.act(e, m.hidden, m.screen.view);
      Do(reader, m, e) ==
      if ascii || e.Again? then
        Moment(R.PrintN(m.screen, reader.pen(last, m.hidden), 1), reader.drew(last, m.hidden))
      else Moment(R.Screen(m.screen.back + done.pushed, done.view), done.hidden)
  {
    hide R.PrintN;
  }

  function DoAll<H>(reader: Reader<H>, m: Moment<H>, effects: seq<SavedMeaning.Effect>): Moment<H> {
    if effects == [] then m
    else Do(reader, DoAll(reader, m, effects[..|effects| - 1]), effects[|effects| - 1])
  }

  lemma {:induction false} DoJoins<H>(reader: Reader<H>, m: Moment<H>, a: seq<SavedMeaning.Effect>,
      b: seq<SavedMeaning.Effect>)
    ensures DoAll(reader, m, a + b) == DoAll(reader, DoAll(reader, m, a), b)
  {
    hide Do;
    if b == [] {
      assert a + b == a;
    } else {
      assert (a + b)[..|a + b| - 1] == a + b[..|b| - 1];
      DoJoins(reader, m, a, b[..|b| - 1]);
    }
  }

  /** A last character that can be drawn again is an ASCII one. */
  predicate Ascii(last: Last) {
    last.Drawn? ==> 0x20 <= last.unit <= 0x7e
  }

  /** A repeat draws so many characters in the one pen. */
  lemma {:induction false} DoRepeated<H(!new)>(reader: Reader<H>, m: Moment<H>, last: Last, n: nat)
    requires Steady(reader) && Ascii(last) && last != Nothing && n > 0
    ensures DoAll(reader, m, Repeated(last, n)) == Draws(reader, m, last, n)
  {
    hide R.PrintN;
    var e := if last.Drawn? then SavedMeaning.Print(last.unit) else Again;
    assert Repeated(last, n) == Times(e, n) && Drawing(e) == last;
    assert Times(e, n)[..n - 1] == Times(e, n - 1) && Times(e, n)[n - 1] == e;
    if n == 1 {
      assert DoAll(reader, m, Times(e, 0)) == m;
    } else {
      DoRepeated(reader, m, last, n - 1);
      R.PrintSum(m.screen, reader.pen(last, m.hidden), n - 1, 1);
      assert Repeated(last, n - 1) == Times(e, n - 1);
    }
  }

  /** What scrolled off before does not matter. */
  lemma {:induction false} DoOnTop<H>(reader: Reader<H>, m: Moment<H>, effects: seq<SavedMeaning.Effect>)
    ensures
      var alone := DoAll(reader, m.(screen := R.Screen([], m.screen.view)), effects);
      DoAll(reader, m, effects) == alone.(screen := R.Screen(m.screen.back + alone.screen.back, alone.screen.view))
  {
    hide R.PrintN;
    var start := m.(screen := R.Screen([], m.screen.view));
    if effects == [] {
      assert m.screen.back + [] == m.screen.back;
    } else {
      var front, e := effects[..|effects| - 1], effects[|effects| - 1];
      DoOnTop(reader, m, front);
      var a, b := DoAll(reader, m, front), DoAll(reader, start, front);
      if Drawing(e) != Nothing {
        var pen := reader.pen(Drawing(e), a.hidden);
        BackIrrelevant(a.screen, pen, 1);
        BackIrrelevant(b.screen, pen, 1);
        Sum3(m.screen.back, b.screen.back, R.PrintN(R.Screen([], a.screen.view), pen, 1).back);
      } else {
        Sum3(m.screen.back, b.screen.back, reader.act(e, a.hidden, a.screen.view).pushed);
      }
    }
  }

  lemma Sum3(a: seq<R.Row>, b: seq<R.Row>, c: seq<R.Row>)
    ensures (a + b) + c == a + (b + c)
  {
  }

  lemma {:induction false} DoKeeps<H(!new)>(reader: Reader<H>, m: Moment<H>, effects: seq<SavedMeaning.Effect>)
    requires Steady(reader)
    ensures SameSize(m.screen.view, DoAll(reader, m, effects).screen.view)
  {
    hide R.PrintN;
    if effects != [] {
      DoKeeps(reader, m, effects[..|effects| - 1]);
    }
  }

  // ----- a written text as the steps of a terminal -----

  function Ran<H>(reader: Reader<H>, effects: seq<SavedMeaning.Effect>, hidden: H, v: R.View): SavedOutput.Effect<H> {
    var m := DoAll(reader, Moment(R.Screen([], v), hidden), effects);
    SavedOutput.Effect(m.screen.back, m.screen.view, m.hidden)
  }

  /** The step that performs some effects. */
  function Part<H>(reader: Reader<H>, effects: seq<SavedMeaning.Effect>): Op<H> {
    Other((hidden, v) => Ran(reader, effects, hidden, v))
  }

  lemma PartDoes<H>(reader: Reader<H>, effects: seq<SavedMeaning.Effect>, m: Moment<H>)
    ensures Run(m, Part(reader, effects)) == DoAll(reader, m, effects)
  {
    DoOnTop(reader, m, effects);
  }

  lemma PartKeeps<H(!new)>(reader: Reader<H>, effects: seq<SavedMeaning.Effect>)
    requires Steady(reader)
    ensures Keeps(Part(reader, effects))
  {
    forall hidden: H, v: R.View
      ensures SameSize(v, Part(reader, effects).effect(hidden, v).view)
    {
      DoKeeps(reader, Moment(R.Screen([], v), hidden), effects);
    }
  }

  /** A shortened repeat with its hook: the whole repeat, which the terminal runs
      shortened and makes up for. */
  function Long<H>(reader: Reader<H>, hidden: H, last: Last, count: nat): seq<Op<H>> {
    if last == Nothing || count == 0 then []
    else [Other((h, v) => SavedOutput.Effect([], v, reader.drew(last, h))), Repeat(reader.pen(last, hidden), count)]
  }

  lemma {:induction false} RunJoins<H>(m: Moment<H>, a: seq<Op<H>>, b: seq<Op<H>>)
    ensures RunAll(m, a + b) == RunAll(RunAll(m, a), b)
  {
    hide Run;
    if b == [] {
      assert a + b == a;
    } else {
      assert (a + b)[..|a + b| - 1] == a + b[..|b| - 1];
      RunJoins(m, a, b[..|b| - 1]);
    }
  }

  lemma RunOne<H>(m: Moment<H>, op: Op<H>)
    ensures RunAll(m, [op]) == Run(m, op)
  {
    assert [op][..0] == [];
  }

  lemma LongDoes<H(!new)>(reader: Reader<H>, m: Moment<H>, last: Last, count: nat)
    requires Steady(reader) && Ascii(last)
    ensures RunAll(m, Long(reader, m.hidden, last, count)) == DoAll(reader, m, Repeated(last, count))
  {
    hide R.PrintN;
    if last == Nothing || count == 0 {
      assert Repeated(last, count) == [];
    } else {
      var ops := Long(reader, m.hidden, last, count);
      DoRepeated(reader, m, last, count);
      assert ops == [ops[0]] + [ops[1]];
      RunJoins(m, [ops[0]], [ops[1]]);
      RunOne(m, ops[0]);
      RunOne(Run(m, ops[0]), ops[1]);
      assert m.screen.back + [] == m.screen.back;
    }
  }

  /** A hook right after a shortened repeat. */
  predicate Hooks(size: Size, front: seq<Item>, item: Item) {
    && Mean(size, true, FRESH, front).shortened.Some? && HookPeriods(item).Some?
    && front != [] && front[|front| - 1].Seq?
  }

  /** The count of the repeat that was shortened. */
  function FullCount(size: Size, front: seq<Item>, item: Item): nat
    requires Hooks(size, front, item)
  {
    CountOf(front[|front| - 1].params) + HookPeriods(item).value * size.rule.period
  }

  /** The steps of a terminal that what is written runs on: a shortened repeat
      and its hook are one. */
  function Steps<H>(reader: Reader<H>, size: Size, start: Moment<H>, items: seq<Item>): seq<Op<H>>
    decreases |items|
  {
    if items == [] then []
    else
      var front, item := items[..|items| - 1], items[|items| - 1];
      var sem := Mean(size, true, FRESH, front);
      if Hooks(size, front, item) then
        var before := Steps(reader, size, start, front[..|front| - 1]);
        before + Long(reader, RunAll(start, before).hidden, sem.shortened.value, FullCount(size, front, item))
      else
        var effects := Step(size, true, sem, item).effects;
        Steps(reader, size, start, front)
        + [Part(reader, if |sem.effects| <= |effects| then effects[|sem.effects|..] else [])]
  }

  lemma HooksParts(size: Size, front: seq<Item>, item: Item)
    requires Hooks(size, front, item)
    ensures front != [] && Mean(size, true, FRESH, front).shortened.Some?
  {
  }

  /** What can be repeated was drawn, and only right after a repeat of it a hook is due. */
  lemma {:induction false} MeanAscii(size: Size, items: seq<Item>)
    ensures Ascii(Mean(size, true, FRESH, items).last)
    ensures
      var sem := Mean(size, true, FRESH, items);
      sem.shortened.Some? ==>
        && items != [] && IsRepeat(items[|items| - 1]) && items[|items| - 1].controls == []
        && sem.shortened.value == Mean(size, true, FRESH, items[..|items| - 1]).last && Ascii(sem.shortened.value)
  {
    hide FirstParam, HookPeriods, Controls, IsErase, IsCounted, Limit, CountOf;
    if items != [] {
      MeanAscii(size, items[..|items| - 1]);
    }
  }

  lemma HookDoes(size: Size, front: seq<Item>, item: Item)
    requires Hooks(size, front, item)
    ensures
      var sem := Mean(size, true, FRESH, front[..|front| - 1]);
      && Ascii(sem.last) && Mean(size, true, FRESH, front).shortened == Some(sem.last)
      && Step(size, true, Mean(size, true, FRESH, front), item).effects
         == sem.effects + Repeated(sem.last, FullCount(size, front, item))
  {
    MeanAscii(size, front);
    MeanAscii(size, front[..|front| - 1]);
    hide FirstParam, Number, Repeated, AllDigits, CountOf;
    var sem, last := Mean(size, true, FRESH, front[..|front| - 1]), front[|front| - 1];
    var kept, more := CountOf(last.params), HookPeriods(item).value * size.rule.period;
    assert Mean(size, true, FRESH, front) == Step(size, true, sem, last) == DoRepeat(sem, last);
    RepeatedJoin(sem.last, kept, more);
    var a, b, c := sem.effects, Repeated(sem.last, kept), Repeated(sem.last, more);
    assert a + b + c == a + (b + c);
  }

  lemma RepeatedJoin(last: Last, a: nat, b: nat)
    ensures Repeated(last, a) + Repeated(last, b) == Repeated(last, a + b)
  {
    SavedSegments.RepeatedJoins(last, a, b);
  }

  /** The steps do what the items mean. */
  lemma {:induction false} StepsDo<H(!new)>(reader: Reader<H>, size: Size, start: Moment<H>, items: seq<Item>)
    requires Steady(reader)
    ensures RunAll(start, Steps(reader, size, start, items))
      == DoAll(reader, start, Mean(size, true, FRESH, items).effects)
    decreases |items|
  {
    hide Hooks, Step, Run, Do, Long, FullCount, Repeated, Part;
    if items != [] {
      var front, item := items[..|items| - 1], items[|items| - 1];
      var sem := Mean(size, true, FRESH, front);
      if Hooks(size, front, item) {
        HookDoes(size, front, item);
        var first := front[..|front| - 1];
        var ops, last := Steps(reader, size, start, first), Mean(size, true, FRESH, first).last;
        StepsDo(reader, size, start, first);
        LongDoes(reader, RunAll(start, ops), last, FullCount(size, front, item));
        RunJoins(start, ops, Long(reader, RunAll(start, ops).hidden, last, FullCount(size, front, item)));
        DoJoins(reader, start, Mean(size, true, FRESH, first).effects, Repeated(last, FullCount(size, front, item)));
      } else {
        SavedLimits.StepGrows(size, true, sem, item);
        var effects := Step(size, true, sem, item).effects;
        var more := effects[|sem.effects|..];
        assert effects == sem.effects + more;
        StepsDo(reader, size, start, front);
        RunJoins(start, Steps(reader, size, start, front), [Part(reader, more)]);
        RunOne(RunAll(start, Steps(reader, size, start, front)), Part(reader, more));
        PartDoes(reader, more, RunAll(start, Steps(reader, size, start, front)));
        DoJoins(reader, start, sem.effects, more);
      }
    }
  }

  lemma {:induction false} StepsKeep<H(!new)>(reader: Reader<H>, size: Size, start: Moment<H>, items: seq<Item>)
    requires Steady(reader)
    ensures KeepAll(Steps(reader, size, start, items))
    decreases |items|
  {
    hide Hooks, Step, RunAll, FullCount, Part, Keeps, Mean;
    if items != [] {
      var front, item := items[..|items| - 1], items[|items| - 1];
      var sem := Mean(size, true, FRESH, front);
      if Hooks(size, front, item) {
        HooksParts(size, front, item);
        StepsKeep(reader, size, start, front[..|front| - 1]);
        var before := Steps(reader, size, start, front[..|front| - 1]);
        LongKeeps(reader, RunAll(start, before).hidden, sem.shortened.value, FullCount(size, front, item));
      } else {
        StepsKeep(reader, size, start, front);
        var effects := Step(size, true, sem, item).effects;
        PartKeeps(reader, if |sem.effects| <= |effects| then effects[|sem.effects|..] else []);
      }
    }
  }

  lemma LongKeeps<H(!new)>(reader: Reader<H>, hidden: H, last: Last, count: nat)
    ensures KeepAll(Long(reader, hidden, last, count))
  {
  }

  // ----- what is written, read back -----

  /** The steps of each segment. */
  function Played<H>(reader: Reader<H>, size: Size, start: R.View, hidden: H, segments: seq<Text>): seq<seq<Op<H>>> {
    seq(|segments|, i requires 0 <= i < |segments| =>
      Steps(reader, size, Moment(R.Screen([], start), hidden), Items(segments[i])))
  }

  /** What each part of an output shows, every effect performed in full. */
  ghost function FullTexts<H(!new)>(reader: Reader<H>, told: seq<seq<SavedMeaning.Effect>>, start: R.View, hidden: H,
    draw: L.Draw): seq<string>
    requires Steady(reader)
  {
    if told == [] then []
    else
      DoKeeps(reader, Begins(start, hidden), told[0]);
      L.Shown(Rows(DoAll(reader, Begins(start, hidden), told[0]).screen), |start.lines|, draw)
      + FullTexts(reader, told[1..], start, hidden, draw)
  }

  lemma SegmentInFull<H(!new)>(reader: Reader<H>, size: Size, segment: Text, start: R.View, hidden: H, draw: L.Draw)
    requires Steady(reader)
    ensures
      var ops, m := Steps(reader, size, Begins(start, hidden), Items(segment)), Begins(start, hidden);
      var full := DoAll(reader, m, Meaning(size, segment).effects);
      && KeepAll(ops) && SameSize(start, full.screen.view)
      && SegmentTexts(ops, start, hidden, draw) == L.Shown(Rows(full.screen), |start.lines|, draw)
  {
    hide L.Shown, Steps, DoAll, Items, Mean, KeepAll, RunAll;
    var m := Begins(start, hidden);
    StepsDo(reader, size, m, Items(segment));
    StepsKeep(reader, size, m, Items(segment));
    DoKeeps(reader, m, Meaning(size, segment).effects);
  }

  /** The counts of repeats that are kept on such a screen fit a parameter. */
  predicate Measured(cols: R.Cols, rows: nat) {
    rows > 0 && R.RepeatRule(cols, rows).settled + R.Period(cols) <= MAX_PARAM
  }

  /** The whole repeat that a shortened one stands for is one that the terminal
      cuts to what is written, and its hook makes up for what that leaves out. */
  lemma RunsAsWritten(cols: R.Cols, rows: nat, buffer: Text, j: nat, i: nat)
    requires Measured(cols, rows) && !CutPair(buffer) && SavedSegments.Harmless(SizeOf(cols, rows), buffer)
    requires j < |SavedSegments.Segments(SizeOf(cols, rows), buffer)|
    requires i < |Items(SavedSegments.Segments(SizeOf(cols, rows), buffer)[j])|
    requires Shortened(Items(SavedSegments.Segments(SizeOf(cols, rows), buffer)[j])[i])
    ensures
      var size, rule := SizeOf(cols, rows), R.RepeatRule(cols, rows);
      var items := Items(SavedSegments.Segments(size, buffer)[j]);
      && i + 1 < |items| && Hooks(size, items[..i + 1], items[i + 1])
      && var count := FullCount(size, items[..i + 1], items[i + 1]);
         count > rule.settled && R.Kept(rule, count) == CountOf(items[i].params)
         && R.Omitted(rule, count) == HookPeriods(items[i + 1]).value
  {
    hide SavedSegments.Harmless, SavedSegments.Segments, CutPair, Items, R.RepeatRule, R.Kept, R.Omitted, R.Period;
    var size := SizeOf(cols, rows);
    SegmentsHooked(size, buffer);
    var items := Items(SavedSegments.Segments(size, buffer)[j]);
    assert AllHooked(size, items);
    assert Shortened(items[i]) && Matches(size, items[i], items[i + 1]);
    ShortenedMeans(size, items[..i + 1]);
  }

  lemma ShortenedMeans(size: Size, front: seq<Item>)
    requires front != [] && Shortened(front[|front| - 1])
    ensures Mean(size, true, FRESH, front).shortened.Some?
  {
    hide FirstParam, CountOf;
  }

  lemma PlayedKeeps<H(!new)>(reader: Reader<H>, size: Size, start: R.View, hidden: H, segments: seq<Text>)
    requires Steady(reader)
    ensures Sound(Played(reader, size, start, hidden, segments))
  {
    hide Steps, Items, KeepAll;
    forall i | 0 <= i < |segments|
      ensures KeepAll(Played(reader, size, start, hidden, segments)[i])
    {
      StepsKeep(reader, size, Begins(start, hidden), Items(segments[i]));
    }
  }

  /** What the steps print in full is what the effects they mean show. */
  lemma {:induction false} PlayedInFull<H(!new)>(reader: Reader<H>, size: Size, start: R.View, hidden: H,
    segments: seq<Text>, told: seq<seq<SavedMeaning.Effect>>, draw: L.Draw)
    requires Steady(reader) && |segments| == |told| && Sound(Played(reader, size, start, hidden, segments))
    requires forall j :: 0 <= j < |segments| ==> Meaning(size, segments[j]).effects == told[j]
    ensures PrintedTexts(Played(reader, size, start, hidden, segments), start, hidden, draw)
         == FullTexts(reader, told, start, hidden, draw)
    decreases |segments|
  {
    hide Meaning, SegmentTexts, Steps, Items, DoAll, L.Shown, KeepAll;
    var played := Played(reader, size, start, hidden, segments);
    if segments != [] {
      assert played[1..] == Played(reader, size, start, hidden, segments[1..]);
      SegmentInFull(reader, size, segments[0], start, hidden, draw);
      PlayedInFull(reader, size, start, hidden, segments[1..], told[1..], draw);
    }
  }

  /** On two rows or more every repeat is put back as it was. */
  lemma PlayedRestores<H(!new)>(reader: Reader<H>, size: Size, start: R.View, hidden: H, segments: seq<Text>)
    requires Steady(reader) && |start.lines| > 1
    ensures Restores(Played(reader, size, start, hidden, segments), start, hidden)
  {
    hide Steps, Items, KeepAll, AllRestored;
    var played := Played(reader, size, start, hidden, segments);
    PlayedKeeps(reader, size, start, hidden, segments);
    forall i | 0 <= i < |played|
      ensures AllRestored(Begins(start, hidden), played[i])
    {
      TallRestores(Begins(start, hidden), played[i]);
    }
  }

  lemma TallRestores<H(!new)>(m: Moment<H>, ops: seq<Op<H>>)
    requires KeepAll(ops) && |m.screen.view.lines| > 1
    ensures AllRestored(m, ops)
  {
    hide RunAll, LeftOutBy;
    forall i | 0 <= i < |ops|
      ensures OpRestored(RunAll(m, ops[..i]), ops[i])
    {
      RunKeeps(m, ops[..i]);
    }
  }

  /** The steps of what is written for an output. */
  function Rewritten<H>(reader: Reader<H>, size: Size, buffer: Text, start: R.View, hidden: H): seq<seq<Op<H>>> {
    Played(reader, size, start, hidden, SavedSegments.Segments(size, buffer))
  }

  /** The saved output of a harmless buffer, rewritten, run in terminals that
      trim, and read back: the newest rows, within both budgets, of what its
      effects show when every one is performed in full, if every shortened repeat
      is put back as it was, which on two rows or more it is. */
  method RewrittenRows<H(!new)>(buffer: Text, reader: Reader<H>, start: R.View, hidden: H, draw: L.Draw)
    returns (rows: seq<string>, dropped: bool)
    requires Steady(reader) && Measured(start.cols, |start.lines|)
    requires !CutPair(buffer) && SavedSegments.Harmless(SizeOf(start.cols, |start.lines|), buffer)
    requires forall i :: 0 <= i < |start.lines| ==> L.NothingDrawn(start.lines[i], draw)
    ensures
      var size := SizeOf(start.cols, |start.lines|);
      var played := Rewritten(reader, size, buffer, start, hidden);
      && Sound(played) && ReadsEnd(AllTexts(played, start, hidden, draw), rows, dropped)
      && (|start.lines| > 1 || Restores(played, start, hidden) ==>
          ReadsEnd(FullTexts(reader, Effects(size, buffer), start, hidden, draw), rows, dropped))
  {
    hide SavedSegments.Harmless, SavedSegments.Segments, CutPair, Effects, Steady, Played, AllTexts, FullTexts, Meaning,
      Sound, L.NothingDrawn, ReadsEnd, PrintedTexts, Restores, SizeOf;
    var size := SizeOf(start.cols, |start.lines|);
    var segments := SavedSegments.Segments(size, buffer);
    var played := Played(reader, size, start, hidden, segments);
    PlayedKeeps(reader, size, start, hidden, segments);
    if |start.lines| > 1 {
      PlayedRestores(reader, size, start, hidden, segments);
    }
    SavedSegments.SegmentsKeepMeaning(size, buffer);
    PlayedInFull(reader, size, start, hidden, segments, Effects(size, buffer), draw);
    rows, dropped := SavedOutputRows(played, start, hidden, draw);
  }
}
