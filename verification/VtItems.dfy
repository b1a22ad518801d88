/** What a terminal's output says, unit by unit: characters to draw and whole
    control sequences, and how outputs join. */
module VtItems {
  import opened VtScanner

  /** A character, or a control sequence with everything it was made of. */
  datatype Item =
    | Char(unit: Unit)
    | Seq(kind: Kind, prefix: Text, params: Text, intermediates: Text, final: Text, controls: Text, raw: Text)

  /** Reading on to the end: the items, the scanner then, and whether the last
      unit was an ESC inside a string, which a backslash would make its end. */
  datatype Reading = Reading(items: seq<Item>, last: Scan, danger: bool)

  function Raw(buffer: Text, start: nat, end: nat): Text {
    var stop := if end <= |buffer| then end else |buffer|;
    if start <= stop then buffer[start..stop] else []
  }

  function ItemOf(buffer: Text, token: Token): Item {
    Seq(token.kind, token.prefix, token.params, token.intermediates, token.final, token.controls,
        Raw(buffer, token.start, token.end))
  }

  function ItemsOf(buffer: Text, tokens: seq<Token>): seq<Item> {
    if tokens == [] then [] else ItemsOf(buffer, tokens[..|tokens| - 1]) + [ItemOf(buffer, tokens[|tokens| - 1])]
  }

  /** The scanner's next turn, with only what that turn visits. */
  function Forward(buffer: Text, s: Scan): (r: Scan)
    requires s.at < |buffer|
    ensures s.at < r.at
  {
    Next(buffer, s.(visited := []))
  }

  function Emits(buffer: Text, s: Scan): seq<Item>
    requires s.at < |buffer|
  {
    if s.state == Ground && !Starter(buffer[s.at]) then [Char(buffer[s.at])]
    else ItemsOf(buffer, Forward(buffer, s).visited)
  }

  predicate EscapeInString(buffer: Text, s: Scan)
    requires s.at < |buffer|
  {
    s.at == |buffer| - 1 && buffer[s.at] == 0x1b && InString(s.state)
  }

  function Go(buffer: Text, s: Scan): (r: Reading)
    ensures r.last.at >= s.at && (s.at < |buffer| ==> r.last.at >= |buffer|)
    decreases if s.at < |buffer| then |buffer| - s.at else 0
  {
    if s.at >= |buffer| then Reading([], s, false)
    else
      var r := Go(buffer, Forward(buffer, s));
      Reading(Emits(buffer, s) + r.items, r.last, r.danger || EscapeInString(buffer, s))
  }

  /** A sequence still open at the end is an item too. */
  function Closing(buffer: Text, s: Scan): seq<Item> {
    if s.state == Ground then [] else ItemsOf(buffer, Drop(s.(visited := []), |buffer|).visited)
  }

  function Items(buffer: Text): seq<Item> {
    Go(buffer, BEGIN).items + Closing(buffer, Go(buffer, BEGIN).last)
  }

  /** The state the whole text leaves the scanner in. */
  function EndState(buffer: Text): State {
    Go(buffer, BEGIN).last.state
  }

  /** The text does not end in half a surrogate pair that broke off a sequence. */
  predicate Whole(buffer: Text) {
    Go(buffer, BEGIN).last.at == |buffer|
  }

  // ----- reading in another place -----

  /** The same scanner, `d` units further on. */
  ghost predicate Same(s: Scan, t: Scan, d: nat) {
    && t.state == s.state && t.at == s.at + d
    && (s.state != Ground ==>
      t.token.start == s.token.start + d && t.token.(start := 0, end := 0) == s.token.(start := 0, end := 0))
  }

  ghost predicate SameToken(a: Token, b: Token, d: nat) {
    b == a.(start := a.start + d, end := a.end + d)
  }

  ghost predicate SameVisited(s: Scan, t: Scan, d: nat) {
    |t.visited| == |s.visited| <= 1 && (|s.visited| == 1 ==> SameToken(s.visited[0], t.visited[0], d))
  }

  lemma EscapeStepSame(s: Scan, t: Scan, unit: Unit, d: nat)
    requires Same(s, t, d) && s.state != Ground && s.visited == [] == t.visited
    ensures Same(EscapeStep(s, unit), EscapeStep(t, unit), d)
      && SameVisited(EscapeStep(s, unit), EscapeStep(t, unit), d)
  {
    hide EscapeString, InRange;
  }

  lemma CsiStepSame(s: Scan, t: Scan, unit: Unit, d: nat)
    requires Same(s, t, d) && s.state != Ground && s.visited == [] == t.visited
    ensures Same(CsiStep(s, unit), CsiStep(t, unit), d) && SameVisited(CsiStep(s, unit), CsiStep(t, unit), d)
  {
    hide InRange;
  }

  lemma DropSame(s: Scan, t: Scan, end: nat, d: nat)
    requires Same(s, t, d) && s.state != Ground && s.visited == [] == t.visited
    ensures Same(Drop(s, end), Drop(t, end + d), d) && SameVisited(Drop(s, end), Drop(t, end + d), d)
  {}

  function Code(unit: Unit): nat {
    if unit < 0xa0 then unit else 0xa0
  }

  lemma ReadGround(y: Text, s: Scan)
    requires s.at < |y| && s.state == Ground && Starter(y[s.at])
    ensures Read(y, s) == s.(state := StartState(Code(y[s.at])), token := NO_TOKEN.(start := s.at))
  {
    StarterCode(y[s.at]);
    hide Starter;
  }

  predicate EndsString(y: Text, s: Scan)
    requires s.at < |y|
  {
    y[s.at] == 0x1b && InString(s.state) && s.at + 1 < |y| && y[s.at + 1] == 0x5c
  }

  /** A starter inside a sequence ends it there. */
  lemma ReadAnew(y: Text, s: Scan)
    requires s.at < |y| && s.state != Ground && Starter(y[s.at]) && !EndsString(y, s)
    ensures Read(y, s) == Drop(s, s.at).(state := StartState(Code(y[s.at])), token := NO_TOKEN.(start := s.at))
  {
    StarterCode(y[s.at]);
    hide Starter, Drop;
  }

  /** A unit inside a sequence that does not start another. */
  function ReadOther(s: Scan, unit: Unit): Scan {
    var code := Code(unit);
    if Ending(code) then Drop(s, s.at + 1)
    else if s.state == Osc then (if code == 0x07 then Drop(s, s.at + 1) else s)
    else if s.state == Str || code == 0x7f then s
    else if Executed(code) then s.(token := s.token.(controls := s.token.controls + [unit]))
    else if s.state == CsiIgnore then (if InRange(code, 0x40, 0x7e) then Drop(s, s.at + 1) else s)
    else if code == 0xa0 then
      var pair := if HighSurrogate(unit) then 1 else 0;
      Drop(s, s.at + 1 + pair).(at := s.at + pair)
    else if s.state == Escape || s.state == EscapeIntermediate then EscapeStep(s, unit)
    else CsiStep(s, unit)
  }

  lemma ReadInside(y: Text, s: Scan)
    requires s.at < |y| && s.state != Ground && !Starter(y[s.at])
    ensures Read(y, s) == ReadOther(s, y[s.at])
  {
    StarterCode(y[s.at]);
    assert y[s.at] != 0x1b;
    hide Starter, Drop, EscapeStep, CsiStep, Ending, Executed, HighSurrogate;
  }

  lemma OtherSame(s: Scan, t: Scan, unit: Unit, d: nat)
    requires Same(s, t, d) && s.state != Ground && s.visited == [] == t.visited
    ensures Same(ReadOther(s, unit), ReadOther(t, unit), d) && SameVisited(ReadOther(s, unit), ReadOther(t, unit), d)
  {
    var code := Code(unit);
    hide EscapeStep, CsiStep, Drop, Ending, Executed, InRange, HighSurrogate;
    if Ending(code) || (s.state == Osc && code == 0x07) || s.state == CsiIgnore {
      DropSame(s, t, s.at + 1, d);
    } else if code == 0xa0 {
      PairSame(s, t, unit, d);
    } else {
      EscapeStepSame(s, t, unit, d);
      CsiStepSame(s, t, unit, d);
    }
  }

  /** A surrogate pair ends a sequence after both its units. */
  lemma PairSame(s: Scan, t: Scan, unit: Unit, d: nat)
    requires Same(s, t, d) && s.state != Ground && s.visited == [] == t.visited
    ensures
      var pair := if HighSurrogate(unit) then 1 else 0;
      var r, r' := Drop(s, s.at + 1 + pair).(at := s.at + pair), Drop(t, t.at + 1 + pair).(at := t.at + pair);
      Same(r, r', d) && SameVisited(r, r', d)
  {
    hide HighSurrogate;
  }

  lemma ReadSame(x: Text, y: Text, s: Scan, t: Scan)
    requires s.at < |y| && Same(s, t, |x|) && s.visited == [] == t.visited
    requires s.state != Ground || Starter(y[s.at])
    ensures Same(Read(y, s), Read(x + y, t), |x|) && SameVisited(Read(y, s), Read(x + y, t), |x|)
  {
    var d := |x|;
    assert (x + y)[t.at] == y[s.at];
    assert EndsString(y, s) == EndsString(x + y, t) by {
      if s.at + 1 < |y| {
        assert (x + y)[t.at + 1] == y[s.at + 1];
      }
    }
    if s.state == Ground {
      ReadGround(y, s);
      ReadGround(x + y, t);
    } else if EndsString(y, s) {
      DropSame(s, t, s.at + 2, d);
      assert Read(y, s) == Drop(s, s.at + 2).(at := s.at + 1) && Read(x + y, t) == Drop(t, t.at + 2).(at := t.at + 1);
      assert Drop(s, s.at + 2).state == Ground;
    } else if Starter(y[s.at]) {
      ReadAnew(y, s);
      ReadAnew(x + y, t);
      DropSame(s, t, s.at, d);
    } else {
      ReadInside(y, s);
      ReadInside(x + y, t);
      OtherSame(s, t, y[s.at], d);
    }
  }

  /** Capping a unit does not make it a starter, or stop it being one. */
  lemma StarterCode(unit: Unit)
    ensures Starter(if unit < 0xa0 then unit else 0xa0) == Starter(unit)
  {}

  lemma ForwardSame(x: Text, y: Text, s: Scan, t: Scan)
    requires s.at < |y| && Same(s, t, |x|)
    ensures Same(Forward(y, s), Forward(x + y, t), |x|) && SameVisited(Forward(y, s), Forward(x + y, t), |x|)
  {
    hide Read, Starter;
    assert (x + y)[t.at] == y[s.at];
    if s.state != Ground || Starter(y[s.at]) {
      ReadSame(x, y, s.(visited := []), t.(visited := []));
    }
  }

  lemma EmitsSame(x: Text, y: Text, s: Scan, t: Scan)
    requires s.at < |y| && Same(s, t, |x|)
    ensures Emits(y, s) == Emits(x + y, t)
  {
    hide Forward, Starter, Raw, ItemsOf;
    ForwardSame(x, y, s, t);
    assert (x + y)[t.at] == y[s.at];
    assert s.state == t.state;
    var a, b := Forward(y, s).visited, Forward(x + y, t).visited;
    assert |a| == |b| <= 1 && (|a| == 1 ==> SameToken(a[0], b[0], |x|));
    OneItem(y, a);
    OneItem(x + y, b);
    if |a| == 1 {
      assert ItemOf(y, a[0]) == ItemOf(x + y, b[0]) by {
        RawSame(x, y, a[0]);
      }
    }
  }

  lemma OneItem(buffer: Text, tokens: seq<Token>)
    requires |tokens| <= 1
    ensures ItemsOf(buffer, tokens) == if tokens == [] then [] else [ItemOf(buffer, tokens[0])]
  {
    if tokens != [] {
      assert tokens[..0] == [];
    }
  }

  lemma RawSame(x: Text, y: Text, token: Token)
    ensures Raw(x + y, token.start + |x|, token.end + |x|) == Raw(y, token.start, token.end)
  {}

  /** Text read from the same scanner reads the same, wherever it stands. */
  lemma {:induction false} GoSame(x: Text, y: Text, s: Scan, t: Scan)
    requires Same(s, t, |x|)
    ensures Go(x + y, t).items == Go(y, s).items && Go(x + y, t).danger == Go(y, s).danger
    ensures Same(Go(y, s).last, Go(x + y, t).last, |x|)
    decreases if s.at < |y| then |y| - s.at else 0
  {
    if s.at < |y| {
      ForwardSame(x, y, s, t);
      EmitsSame(x, y, s, t);
      assert (x + y)[t.at] == y[s.at];
      hide Forward, Emits;
      GoSame(x, y, Forward(y, s), Forward(x + y, t));
    }
  }

  // ----- reading on after a text -----

  lemma EndWithin(y: Text, s: Scan)
    requires s.at < |y|
    ensures |Forward(y, s).visited| <= 1
    ensures |Forward(y, s).visited| == 1 ==> Forward(y, s).visited[0].end <= Forward(y, s).at
    ensures |Forward(y, s).visited| == 1 ==> Forward(y, s).visited[0].start == s.token.start && s.state != Ground
  {
    if s.state == Ground {
      if Starter(y[s.at]) {
        ReadGround(y, s.(visited := []));
      }
    } else if EndsString(y, s) {
    } else if Starter(y[s.at]) {
      ReadAnew(y, s.(visited := []));
    } else {
      ReadInside(y, s.(visited := []));
      hide Ending, Executed, InRange, HighSurrogate, Starter;
    }
  }

  lemma ForwardPrefix(x: Text, y: Text, s: Scan)
    requires s.at < |x| && (y == [] || y[0] != 0x5c || !EscapeInString(x, s))
    ensures Forward(x + y, s) == Forward(x, s)
    ensures Forward(x, s).at <= |x| ==> Emits(x + y, s) == Emits(x, s)
  {
    var r := s.(visited := []);
    assert (x + y)[s.at] == x[s.at];
    assert EndsString(x + y, r) == EndsString(x, r) by {
      if s.at + 1 < |x| {
        assert (x + y)[s.at + 1] == x[s.at + 1];
      }
    }
    assert Forward(x + y, s) == Forward(x, s) by {
      if s.state == Ground && Starter(x[s.at]) {
        ReadGround(x, r);
        ReadGround(x + y, r);
      } else if s.state == Ground {
      } else if EndsString(x, r) {
      } else if Starter(x[s.at]) {
        ReadAnew(x, r);
        ReadAnew(x + y, r);
      } else {
        ReadInside(x, r);
        ReadInside(x + y, r);
      }
      hide Read, Starter;
    }
    EndWithin(x, s);
    var visited := Forward(x, s).visited;
    OneItem(x, visited);
    OneItem(x + y, visited);
    if |visited| == 1 && Forward(x, s).at <= |x| {
      assert ItemOf(x, visited[0]) == ItemOf(x + y, visited[0]);
    }
  }

  lemma GoStep(buffer: Text, s: Scan)
    requires s.at < |buffer|
    ensures Go(buffer, s).items == Emits(buffer, s) + Go(buffer, Forward(buffer, s)).items
    ensures Go(buffer, s).last == Go(buffer, Forward(buffer, s)).last
    ensures Go(buffer, s).danger == (Go(buffer, Forward(buffer, s)).danger || EscapeInString(buffer, s))
  {}

  lemma GoEnd(buffer: Text, s: Scan)
    requires s.at >= |buffer|
    ensures Go(buffer, s) == Reading([], s, false)
  {}

  /** Reading a text and on into what follows it. */
  lemma {:induction false} GoOn(x: Text, y: Text, s: Scan)
    requires s.at <= |x| && Go(x, s).last.at == |x|
    requires y == [] || y[0] != 0x5c || !Go(x, s).danger
    ensures Go(x + y, s).items == Go(x, s).items + Go(x + y, Go(x, s).last).items
    ensures Go(x + y, s).last == Go(x + y, Go(x, s).last).last
    ensures y != [] ==> Go(x + y, s).danger == Go(x + y, Go(x, s).last).danger
    decreases |x| - s.at
  {
    hide Go;
    if s.at == |x| {
      GoEnd(x, s);
      assert [] + Go(x + y, s).items == Go(x + y, s).items;
    } else {
      GoStep(x, s);
      ForwardPrefix(x, y, s);
      var next := Forward(x, s);
      GoOn(x, y, next);
      GoStep(x + y, s);
      assert y != [] ==> !EscapeInString(x + y, s);
      var first, rest, more := Emits(x, s), Go(x, next).items, Go(x + y, Go(x, next).last).items;
      assert first + (rest + more) == first + rest + more;
    }
  }

  // ----- how texts join -----

  lemma EscapeLeads(x: Text, s: Scan)
    requires s.at < |x| && EscapeInString(x, s)
    ensures Go(x, s).last.state == Escape
  {
    ReadAnew(x, s.(visited := []));
    GoEnd(x, Forward(x, s));
    GoStep(x, s);
  }

  /** A text that ends outside every sequence does not end in half a string end. */
  lemma {:induction false} ClosedCalm(x: Text, s: Scan)
    requires Go(x, s).last.at == |x| && Go(x, s).last.state == Ground && s.at <= |x|
    ensures !Go(x, s).danger
    decreases |x| - s.at
  {
    hide *;
    if s.at < |x| {
      if EscapeInString(x, s) {
        EscapeLeads(x, s);
      } else {
        GoStep(x, s);
        ClosedCalm(x, Forward(x, s));
      }
    } else {
      GoEnd(x, s);
    }
  }

  lemma ClosingSame(x: Text, y: Text, s: Scan, t: Scan)
    requires Same(s, t, |x|)
    ensures Closing(x + y, t) == Closing(y, s)
  {
    assert s.state == t.state;
    if s.state != Ground {
      var a, b := Drop(s.(visited := []), |y|).visited, Drop(t.(visited := []), |x + y|).visited;
      DropSame(s.(visited := []), t.(visited := []), |y|, |x|);
      assert |a| == |b| == 1;
      assert SameToken(a[0], b[0], |x|);
      OneItem(y, a);
      OneItem(x + y, b);
      assert ItemOf(y, a[0]) == ItemOf(x + y, b[0]) by {
        RawSame(x, y, a[0]);
      }
    }
  }

  /** What the second text reads as does not depend on the first. */
  ghost predicate Joins(x: Text, y: Text) {
    && Items(x + y) == Items(x) + Items(y) && EndState(x + y) == EndState(y)
    && (Whole(y) ==> Whole(x + y))
  }

  lemma JoinReadings(x: Text, y: Text)
    requires Go(x + y, BEGIN).items + Closing(x + y, Go(x + y, BEGIN).last)
          == Items(x) + Go(y, BEGIN).items + Closing(x + y, Go(x + y, BEGIN).last)
    requires Same(Go(y, BEGIN).last, Go(x + y, BEGIN).last, |x|)
    ensures Joins(x, y)
  {
    hide Go;
    var first, second := Go(y, BEGIN).last, Go(x + y, BEGIN).last;
    ClosingSame(x, y, first, second);
    var a, b, c := Items(x), Go(y, BEGIN).items, Closing(y, first);
    assert a + (b + c) == a + b + c;
    assert Items(y) == b + c && Items(x + y) == a + b + c;
    assert second.state == first.state && second.at == first.at + |x|;
    assert EndState(x + y) == EndState(y);
    assert Whole(y) ==> Whole(x + y);
    assert Joins(x, y);
  }

  /** A text after one that ends outside every sequence. */
  lemma AppendClosed(x: Text, y: Text)
    requires Whole(x) && EndState(x) == Ground
    ensures Joins(x, y)
  {
    var last := Go(x, BEGIN).last;
    assert last.at == |x| && last.state == Ground;
    ClosedCalm(x, BEGIN);
    GoOn(x, y, BEGIN);
    assert Same(BEGIN, last, |x|);
    GoSame(x, y, BEGIN, last);
    assert Items(x) == Go(x, BEGIN).items;
    JoinReadings(x, y);
  }

  /** Whether a text starts a sequence of its own after an unfinished one. */
  predicate StartsAnew(y: Text, state: State) {
    y != [] && Starter(y[0]) && !(InString(state) && |y| > 1 && y[0] == 0x1b && y[1] == 0x5c)
  }

  lemma StartAfter(x: Text, y: Text, last: Scan)
    requires last.at == |x| && last.state != Ground && StartsAnew(y, last.state)
    ensures Go(x + y, last).items == Closing(x, last) + Go(y, BEGIN).items
    ensures Same(Go(y, BEGIN).last, Go(x + y, last).last, |x|)
  {
    var s, t := Forward(y, BEGIN), Forward(x + y, last);
    assert (x + y)[last.at] == y[0];
    assert !EndsString(x + y, last.(visited := [])) by {
      if |y| > 1 {
        assert (x + y)[last.at + 1] == y[1];
      }
    }
    ReadGround(y, BEGIN);
    ReadAnew(x + y, last.(visited := []));
    assert s.visited == [] && Same(s, t, |x|);
    var dropped := Drop(last.(visited := []), |x|).visited;
    assert t.visited == dropped && |dropped| == 1 && dropped[0].end == |x|;
    GoStep(y, BEGIN);
    GoStep(x + y, last);
    OneItem(x, dropped);
    OneItem(x + y, dropped);
    assert Raw(x, dropped[0].start, |x|) == Raw(x + y, dropped[0].start, |x|);
    hide Forward, Go, Raw;
    GoSame(x, y, s, t);
    assert Go(y, BEGIN).items == [] + Go(y, s).items == Go(y, s).items;
  }

  /** A text that starts a sequence after one that leaves a sequence unfinished. */
  lemma AppendAnew(x: Text, y: Text)
    requires Whole(x) && EndState(x) != Ground && StartsAnew(y, EndState(x))
    ensures Joins(x, y)
  {
    hide Go;
    var last := Go(x, BEGIN).last;
    assert last.at == |x| && last.state == EndState(x);
    assert y != [] && y[0] != 0x5c;
    GoOn(x, y, BEGIN);
    StartAfter(x, y, last);
    assert Items(x) == Go(x, BEGIN).items + Closing(x, last);
    var a, b, c := Go(x, BEGIN).items, Closing(x, last), Go(y, BEGIN).items;
    assert a + (b + c) == a + b + c;
    JoinReadings(x, y);
  }
}
