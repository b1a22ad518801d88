/** The items of an output are the sequences the scanner visits and the text
    between them; and each sequence, cut out, reads as itself. */
module VtTokens {
  import opened VtScanner
  import opened VtItems

  function Chars(text: Text): seq<Item> {
    if text == [] then [] else Chars(text[..|text| - 1]) + [Char(text[|text| - 1])]
  }

  lemma {:induction false} CharsJoin(x: Text, y: Text)
    ensures Chars(x + y) == Chars(x) + Chars(y)
  {
    if y == [] {
      assert x + y == x;
    } else {
      assert (x + y)[..|x + y| - 1] == x + y[..|y| - 1];
      CharsJoin(x, y[..|y| - 1]);
    }
  }

  /** Tokens with the text between them, up to `end`. */
  function Woven(buffer: Text, tokens: seq<Token>, end: nat): seq<Item> {
    if tokens == [] then Chars(Raw(buffer, 0, end))
    else
      var last := tokens[|tokens| - 1];
      Woven(buffer, tokens[..|tokens| - 1], last.start) + [ItemOf(buffer, last)] + Chars(Raw(buffer, last.end, end))
  }

  // ----- the items are the tokens and the text between -----

  lemma NextIsForward(buffer: Text, s: Scan)
    requires s.at < |buffer|
    ensures Next(buffer, s) == Forward(buffer, s).(visited := s.visited + Forward(buffer, s).visited)
  {
    var r := s.(visited := []);
    if s.state == Ground && Starter(buffer[s.at]) {
      ReadGround(buffer, s);
      ReadGround(buffer, r);
    } else if s.state == Ground {
    } else if EndsString(buffer, r) {
    } else if Starter(buffer[s.at]) {
      ReadAnew(buffer, s);
      ReadAnew(buffer, r);
    } else {
      ReadInside(buffer, s);
      ReadInside(buffer, r);
      OtherVisits(s, buffer[s.at]);
    }
    hide Read, Starter;
  }

  lemma OtherVisits(s: Scan, unit: Unit)
    ensures
      var r := ReadOther(s.(visited := []), unit);
      ReadOther(s, unit) == r.(visited := s.visited + r.visited)
  {
    hide Ending, Executed, InRange, HighSurrogate, EscapeString;
  }

  /** Where the text read so far as whole items ends. */
  function Upto(s: Scan): nat {
    if s.state == Ground then s.at else s.token.start
  }

  /** What a turn does to a scanner inside a sequence or outside. */
  ghost predicate Turned(buffer: Text, s: Scan, r: Scan)
    requires s.at < |buffer|
  {
    || (s.state == Ground && !Starter(buffer[s.at]) && r.state == Ground && r.at == s.at + 1 && r.visited == [])
    || (r.state != Ground && r.visited == [] && r.at == s.at + 1
        && (s.state == Ground ==> Starter(buffer[s.at]) && r.token.start == s.at)
        && (s.state != Ground ==> r.token.start == s.token.start))
    || (s.state != Ground && |r.visited| == 1 && r.visited[0].start == s.token.start
        && (if r.state == Ground then r.visited[0].end == r.at
            else r.visited[0].end == s.at && r.token.start == s.at && r.at == s.at + 1 && Starter(buffer[s.at])))
  }

  lemma ForwardTurns(buffer: Text, s: Scan)
    requires s.at < |buffer|
    ensures Turned(buffer, s, Forward(buffer, s))
  {
    var r := s.(visited := []);
    if s.state == Ground && Starter(buffer[s.at]) {
      ReadGround(buffer, r);
      StartIsNotGround(Code(buffer[s.at]));
    } else if s.state == Ground {
    } else if EndsString(buffer, r) {
    } else if Starter(buffer[s.at]) {
      ReadAnew(buffer, r);
      StartIsNotGround(Code(buffer[s.at]));
    } else {
      ReadInside(buffer, r);
      OtherTurns(r, buffer[s.at]);
    }
    hide Read, Starter;
  }

  lemma StartIsNotGround(code: nat)
    ensures StartState(code) != Ground
  {}

  lemma OtherTurns(s: Scan, unit: Unit)
    requires s.state != Ground && s.visited == []
    ensures
      var r := ReadOther(s, unit);
      if r.state == Ground then |r.visited| == 1 && r.visited[0].start == s.token.start && r.visited[0].end == r.at + 1
      else r.visited == [] && r.at == s.at && r.token.start == s.token.start
  {
    hide Ending, Executed, InRange, HighSurrogate;
  }

  lemma RawGrows(buffer: Text, start: nat, end: nat)
    requires start <= end < |buffer|
    ensures Raw(buffer, start, end + 1) == Raw(buffer, start, end) + [buffer[end]]
  {}

  /** The text woven so far does not change, but for what a turn adds to it. */
  lemma WeaveTurn(buffer: Text, visited: seq<Token>, s: Scan, r: Scan)
    requires s.at < |buffer| && Turned(buffer, s, r) && InOrder(visited, Upto(s))
    ensures Woven(buffer, visited + r.visited, Upto(r)) == Woven(buffer, visited, Upto(s)) + Emitted(buffer, s, r)
  {
    if r.visited != [] {
      var token := r.visited[0];
      assert (visited + r.visited)[..|visited + r.visited| - 1] == visited;
      assert Raw(buffer, token.end, Upto(r)) == [];
      OneItem(buffer, r.visited);
    } else {
      assert visited + [] == visited;
      if r.state == Ground {
        WeaveChar(buffer, visited, s.at);
      }
    }
  }

  function Emitted(buffer: Text, s: Scan, r: Scan): seq<Item>
    requires s.at < |buffer|
  {
    if s.state == Ground && !Starter(buffer[s.at]) then [Char(buffer[s.at])] else ItemsOf(buffer, r.visited)
  }

  lemma WeaveChar(buffer: Text, visited: seq<Token>, at: nat)
    requires at < |buffer| && InOrder(visited, at)
    ensures Woven(buffer, visited, at + 1) == Woven(buffer, visited, at) + [Char(buffer[at])]
  {
    var from := if visited == [] then 0 else visited[|visited| - 1].end;
    RawGrows(buffer, from, at);
    assert Raw(buffer, from, at + 1)[..|Raw(buffer, from, at)|] == Raw(buffer, from, at);
  }

  /** Reading on adds to what was woven exactly what it emits. */
  lemma {:induction false} WeaveOn(buffer: Text, s: Scan)
    requires Spanned(buffer, s)
    ensures
      var end := Close(buffer, ScanTo(buffer, s, |buffer|));
      Woven(buffer, end.visited, Upto(end))
        == Woven(buffer, s.visited, Upto(s)) + Go(buffer, s).items + Closing(buffer, Go(buffer, s).last)
    decreases if s.at < |buffer| then |buffer| - s.at else 0
  {
    hide Go, InOrder, Next, Woven;
    if s.at < |buffer| {
      var r := Forward(buffer, s);
      NextIsForward(buffer, s);
      NextTurn(buffer, s);
      TurnSpanned(buffer, s, Next(buffer, s));
      WeaveOn(buffer, Next(buffer, s));
      ForwardTurns(buffer, s);
      assert InOrder(s.visited, Upto(s));
      WeaveTurn(buffer, s.visited, s, r);
      assert Upto(Next(buffer, s)) == Upto(r);
      assert Emitted(buffer, s, r) == Emits(buffer, s);
      GoStep(buffer, s);
      GoVisited(buffer, Next(buffer, s), r);
      assert ScanTo(buffer, s, |buffer|) == ScanTo(buffer, Next(buffer, s), |buffer|);
      var a, b, c := Woven(buffer, s.visited, Upto(s)), Emits(buffer, s), Go(buffer, r).items;
      assert a + b + c == a + (b + c);
    } else {
      GoEnd(buffer, s);
      assert ScanTo(buffer, s, |buffer|) == s;
      WeaveClose(buffer, s);
    }
  }

  /** Reading on does not depend on what was visited. */
  lemma {:induction false} GoVisited(buffer: Text, s: Scan, t: Scan)
    requires s.(visited := []) == t.(visited := [])
    ensures Go(buffer, s).items == Go(buffer, t).items && Go(buffer, s).danger == Go(buffer, t).danger
    ensures Go(buffer, s).last.(visited := []) == Go(buffer, t).last.(visited := [])
    ensures Closing(buffer, Go(buffer, s).last) == Closing(buffer, Go(buffer, t).last)
    decreases if s.at < |buffer| then |buffer| - s.at else 0
  {
    if s.at < |buffer| {
      assert Forward(buffer, s) == Forward(buffer, t);
      hide Forward;
    }
  }

  lemma WeaveClose(buffer: Text, s: Scan)
    requires s.at >= |buffer|
    ensures
      var end := Close(buffer, s);
      Woven(buffer, end.visited, Upto(end)) == Woven(buffer, s.visited, Upto(s)) + [] + Closing(buffer, s)
  {
    hide ItemOf, Woven;
    var end := Close(buffer, s);
    var woven := Woven(buffer, s.visited, Upto(s));
    if s.state == Ground {
      assert woven + [] + [] == woven;
      assert end == s;
      assert Closing(buffer, s) == [];
    } else {
      var last := CloseLast(buffer, s);
      WeaveLast(buffer, s.visited, last, Upto(end));
      assert Upto(s) == s.token.start;
      assert woven + [] + [ItemOf(buffer, last)] == woven + [ItemOf(buffer, last)];
    }
  }

  lemma CloseLast(buffer: Text, s: Scan) returns (last: Token)
    requires s.at >= |buffer| && s.state != Ground
    ensures Close(buffer, s).visited == s.visited + [last] && last.start == s.token.start && last.end == |buffer|
    ensures Closing(buffer, s) == [ItemOf(buffer, last)] && Upto(Close(buffer, s)) >= |buffer|
  {
    hide ItemOf;
    var dropped := Drop(s.(visited := []), |buffer|).visited;
    last := dropped[0];
    OneItem(buffer, dropped);
  }

  /** A sequence that runs to the buffer's end has no text after it. */
  lemma WeaveLast(buffer: Text, visited: seq<Token>, last: Token, end: nat)
    requires last.end == |buffer| <= end
    ensures Woven(buffer, visited + [last], end) == Woven(buffer, visited, last.start) + [ItemOf(buffer, last)]
  {
    hide ItemOf;
    assert (visited + [last])[..|visited|] == visited;
    assert Raw(buffer, last.end, end) == [] && Chars([]) == [];
    var woven := Woven(buffer, visited, last.start) + [ItemOf(buffer, last)];
    assert woven + [] == woven;
  }

  lemma WovenStart(buffer: Text)
    ensures Spanned(buffer, BEGIN) && Woven(buffer, BEGIN.visited, Upto(BEGIN)) == []
  {}

  lemma UptoEnd(buffer: Text, s: Scan)
    requires s.at >= |buffer|
    ensures Upto(Close(buffer, s)) >= |buffer|
  {}

  /** The items of an output: its sequences, with the text between them. */
  lemma ItemsAreWoven(buffer: Text)
    ensures Items(buffer) == Woven(buffer, Tokens(buffer), |buffer|)
  {
    WovenStart(buffer);
    WeaveOn(buffer, BEGIN);
    var s := ScanTo(buffer, BEGIN, |buffer|);
    ScanSpanned(buffer, BEGIN, |buffer|);
    UptoEnd(buffer, s);
    var end := Close(buffer, s);
    WovenPast(buffer, end.visited, Upto(end));
    assert end.visited == Tokens(buffer);
    var items := Go(buffer, BEGIN).items;
    assert [] + items == items;
    assert Items(buffer) == items + Closing(buffer, Go(buffer, BEGIN).last);
  }

  lemma WovenPast(buffer: Text, tokens: seq<Token>, end: nat)
    requires end >= |buffer|
    ensures Woven(buffer, tokens, end) == Woven(buffer, tokens, |buffer|)
  {}

  // ----- a sequence, cut out, reads as itself -----

  /** Read alone, the text leaves the scanner where it was left in place. */
  ghost predicate Alone(z: Text, s: Scan, p: nat) {
    z != [] && Go(z, BEGIN).items == [] && Go(z, BEGIN).last.at == |z| && Same(Go(z, BEGIN).last, s, p)
  }

  /** The sequence the scanner is in, cut out so far. */
  ghost predicate InToken(buffer: Text, s: Scan) {
    s.state != Ground ==>
      s.token.start < s.at <= |buffer| && Alone(buffer[s.token.start..s.at], s, s.token.start)
  }

  /** A unit that starts a sequence of its own where one in this state is unfinished. */
  predicate Breaks(buffer: Text, i: nat, state: State) {
    i < |buffer| && Starter(buffer[i]) && !(InString(state) && i + 1 < |buffer| && buffer[i] == 0x1b
      && buffer[i + 1] == 0x5c)
  }

  ghost predicate ReadsAlone(raw: Text, item: Item) {
    raw != [] && Items(raw) == [item] && Whole(raw)
  }

  /** Cut out, the sequence reads as itself, and is unfinished only where the
      next one starts or the buffer ends. */
  ghost predicate GoodToken(buffer: Text, token: Token) {
    token.end <= |buffer| ==>
      && token.start < token.end
      && ReadsAlone(buffer[token.start..token.end], ItemOf(buffer, token))
      && (EndState(buffer[token.start..token.end]) != Ground ==>
        token.end == |buffer| || Breaks(buffer, token.end, EndState(buffer[token.start..token.end])))
  }

  lemma AloneStart(unit: Unit, s: Scan, p: nat)
    requires Starter(unit) && s.state == StartState(Code(unit)) && s.at == p + 1 && s.token == NO_TOKEN.(start := p)
    ensures Alone([unit], s, p)
  {
    var z := [unit];
    ReadGround(z, BEGIN);
    var r := Forward(z, BEGIN);
    GoStep(z, BEGIN);
    GoEnd(z, r);
    assert Emits(z, BEGIN) == [];
    assert [] + Go(z, r).items == [];
  }

  lemma {:induction false} DangerIs(x: Text, s: Scan)
    requires Go(x, s).danger && Go(x, s).last.at == |x|
    ensures s.at < |x| && Go(x, s).last.token.start == |x| - 1
    ensures s.at == |x| - 1 ==> InString(s.state)
    decreases if s.at < |x| then |x| - s.at else 0
  {
    if EscapeInString(x, s) {
      ReadAnew(x, s.(visited := []));
      GoEnd(x, Forward(x, s));
      GoStep(x, s);
    } else {
      GoStep(x, s);
      hide Forward;
      DangerIs(x, Forward(x, s));
    }
  }

  lemma AloneCalm(z: Text, s: Scan, p: nat)
    requires Alone(z, s, p) && s.state != Ground && s.token.start == p
    ensures !Go(z, BEGIN).danger
  {
    if Go(z, BEGIN).danger {
      DangerIs(z, BEGIN);
    }
  }

  /** One more turn, read alone and in place. */
  lemma AloneTurn(buffer: Text, s: Scan, z: Text, more: Text)
    requires s.at < |buffer| && s.state != Ground && s.token.start < s.at && InToken(buffer, s)
    requires z == buffer[s.token.start..s.at] && more != [] && s.at + |more| <= |buffer|
    requires more == buffer[s.at..s.at + |more|]
    requires Forward(buffer, s).at == s.at + |more| && (buffer[s.at] == 0x1b && InString(s.state) ==> |more| > 1)
    ensures
      var last, d := Go(z, BEGIN).last, s.token.start;
      && Go(z + more, BEGIN).items == Emits(z + more, last) && Go(z + more, BEGIN).last == Forward(z + more, last)
      && Same(Forward(z + more, last), Forward(buffer, s), d)
         && SameVisited(Forward(z + more, last), Forward(buffer, s), d)
      && last.at == |z| && last.state == s.state
  {
    hide InString;
    var p, last := s.token.start, Go(z, BEGIN).last;
    assert Alone(z, s, p) && p < s.at;
    AloneCalm(z, s, p);
    assert Go(z, BEGIN).items == [] && last.at == |z| && Same(last, s, p);
    assert last.state == s.state;
    GoOn(z, more, BEGIN);
    var raw := z + more;
    InPlace(buffer, s, last, z, more);
    assert Forward(raw, last).at == |raw|;
    GoStep(raw, last);
    GoEnd(raw, Forward(raw, last));
    assert Emits(raw, last) + [] == Emits(raw, last);
    assert [] + Emits(raw, last) == Emits(raw, last);
  }

  lemma Cut(buffer: Text, p: nat, mid: nat, end: nat)
    requires p < mid < end <= |buffer|
    ensures buffer == buffer[..p] + ((buffer[p..mid] + buffer[mid..end]) + buffer[end..])
    ensures (buffer[p..mid] + buffer[mid..end])[mid - p] == buffer[mid]
  {}

  /** A turn taken in the piece alone and in the whole text. */
  lemma InPlace(buffer: Text, s: Scan, last: Scan, z: Text, more: Text)
    requires s.token.start < s.at < |buffer| && z == buffer[s.token.start..s.at]
    requires more != [] && s.at + |more| <= |buffer| && more == buffer[s.at..s.at + |more|]
    requires last.at == |z| && Same(last, s, s.token.start)
    requires buffer[s.at] == 0x1b && InString(last.state) ==> |more| > 1
    ensures Same(Forward(z + more, last), Forward(buffer, s), s.token.start)
    ensures SameVisited(Forward(z + more, last), Forward(buffer, s), s.token.start)
  {
    hide Same;
    var p, raw, rest := s.token.start, z + more, buffer[s.at + |more|..];
    Cut(buffer, p, s.at, s.at + |more|);
    ForwardSame(buffer[..p], raw + rest, last, s);
    assert (raw + rest)[last.at] == buffer[s.at] && raw[last.at] == buffer[s.at];
    assert !EscapeInString(raw, last);
    ForwardPrefix(raw, rest, last);
  }

  lemma InsideGoesOn(buffer: Text, s: Scan)
    requires s.at < |buffer| && s.state != Ground && InToken(buffer, s)
    requires Forward(buffer, s).state != Ground && !Starter(buffer[s.at])
    ensures InToken(buffer, Forward(buffer, s))
  {
    hide BEGIN, ControlScanner.buffer, Forward, Go;
    var r, p := Forward(buffer, s), s.token.start;
    assert Turned(buffer, s, r) by { ForwardTurns(buffer, s); }
    assert r.visited == [] && r.at == s.at + 1 && r.token.start == p;
    assert p < s.at;
    assert buffer[s.at] != 0x1b;
    var z, more := buffer[p..s.at], buffer[s.at..s.at + 1];
    AloneTurn(buffer, s, z, more);
    var last := Go(z, BEGIN).last;
    assert z + more == buffer[p..r.at];
    var next := Forward(z + more, last);
    assert next.visited == [];
    OneItem(z + more, []);
    assert Emits(z + more, last) == [];
    assert next.at == |z + more|;
    assert Alone(z + more, r, p);
  }

  lemma InsideEnds(buffer: Text, s: Scan)
    requires s.at < |buffer| && s.state != Ground && InToken(buffer, s) && Forward(buffer, s).state == Ground
    ensures InToken(buffer, Forward(buffer, s)) && |Forward(buffer, s).visited| == 1
    ensures GoodToken(buffer, Forward(buffer, s).visited[0])
  {
    hide Forward, Go;
    var r, p := Forward(buffer, s), s.token.start;
    assert Turned(buffer, s, r) by { ForwardTurns(buffer, s); }
    assert |r.visited| == 1 && r.visited[0].start == p && r.visited[0].end == r.at;
    assert InToken(buffer, r);
    assert p < s.at;
    var token := r.visited[0];
    if r.at <= |buffer| {
      EndsLater(buffer, s);
      var z, more := buffer[p..s.at], buffer[s.at..r.at];
      AloneTurn(buffer, s, z, more);
      var raw, last := z + more, Go(z, BEGIN).last;
      assert raw == buffer[p..r.at];
      var next := Forward(raw, last);
      assert |next.visited| == 1 && SameToken(next.visited[0], token, p);
      OneItem(raw, next.visited);
      assert Emits(raw, last) == [ItemOf(raw, next.visited[0])];
      assert next.state == Ground && next.at == |raw|;
      assert ItemOf(raw, next.visited[0]) == ItemOf(buffer, token);
      assert Items(raw) == [ItemOf(buffer, token)] + [];
      assert ReadsAlone(raw, ItemOf(buffer, token)) && EndState(raw) == Ground;
    }
    assert GoodToken(buffer, token);
  }

  /** An ESC that ends a string takes the backslash after it along. */
  lemma EndsLater(buffer: Text, s: Scan)
    requires s.at < |buffer| && s.state != Ground && Forward(buffer, s).state == Ground
    ensures buffer[s.at] == 0x1b && InString(s.state) ==> Forward(buffer, s).at == s.at + 2
  {
    StartIsNotGround(Code(buffer[s.at]));
    if buffer[s.at] == 0x1b && InString(s.state) && !EndsString(buffer, s) {
      ReadAnew(buffer, s.(visited := []));
    }
  }

  /** A sequence that is left unfinished at `end`. */
  lemma LeftOpen(buffer: Text, s: Scan, end: nat)
    requires s.state != Ground && InToken(buffer, s) && s.at == end <= |buffer|
    requires end == |buffer| || Breaks(buffer, end, s.state)
    ensures |Drop(s.(visited := []), end).visited| == 1 && GoodToken(buffer, Drop(s.(visited := []), end).visited[0])
  {
    var p := s.token.start;
    var z := buffer[p..end];
    assert p < end && Alone(z, s, p);
    var last := Go(z, BEGIN).last;
    assert Same(last, s, p) && last.at == |z| && Go(z, BEGIN).items == [];
    assert last.state == s.state;
    var a, b := Drop(last.(visited := []), |z|).visited, Drop(s.(visited := []), end).visited;
    DropSame(last.(visited := []), s.(visited := []), |z|, p);
    assert |a| == |b| == 1 && b[0].start == p && b[0].end == end;
    assert SameToken(a[0], b[0], p);
    OneItem(z, a);
    assert Closing(z, last) == [ItemOf(z, a[0])];
    assert ItemOf(z, a[0]) == ItemOf(buffer, b[0]);
    assert Items(z) == [] + [ItemOf(buffer, b[0])];
    assert ReadsAlone(z, ItemOf(buffer, b[0])) && EndState(z) == s.state;
    assert GoodToken(buffer, b[0]);
  }

  lemma StartsInside(buffer: Text, s: Scan)
    requires s.at < |buffer| && Starter(buffer[s.at]) && (s.state != Ground ==> !EndsString(buffer, s))
    ensures InToken(buffer, Forward(buffer, s))
  {
    var r := Forward(buffer, s);
    if s.state == Ground {
      ReadGround(buffer, s.(visited := []));
    } else {
      ReadAnew(buffer, s.(visited := []));
    }
    AloneStart(buffer[s.at], r, s.at);
    assert buffer[s.at..s.at + 1] == [buffer[s.at]];
  }

  lemma OutsideTurn(buffer: Text, s: Scan)
    requires s.at < |buffer| && s.state == Ground && !Starter(buffer[s.at])
    ensures Forward(buffer, s).visited == [] && InToken(buffer, Forward(buffer, s))
  {}

  lemma BreaksOff(buffer: Text, s: Scan)
    requires s.at < |buffer| && s.state != Ground && Starter(buffer[s.at]) && !EndsString(buffer, s)
    ensures Breaks(buffer, s.at, s.state)
    ensures Forward(buffer, s).visited == Drop(s.(visited := []), s.at).visited
  {
    ReadAnew(buffer, s.(visited := []));
    hide Read, Starter;
  }

  lemma StringEnds(buffer: Text, s: Scan)
    requires s.at < |buffer| && s.state != Ground && EndsString(buffer, s)
    ensures Forward(buffer, s).state == Ground
  {}

  /** Every turn keeps the sequence it is in readable alone, and so is every
      sequence it ends. */
  lemma TurnGood(buffer: Text, s: Scan)
    requires s.at < |buffer| && InToken(buffer, s)
    ensures InToken(buffer, Forward(buffer, s))
    ensures forall t :: t in Forward(buffer, s).visited ==> GoodToken(buffer, t)
  {
    var r := Forward(buffer, s);
    ForwardTurns(buffer, s);
    if s.state == Ground && !Starter(buffer[s.at]) {
      OutsideTurn(buffer, s);
    } else if s.state == Ground {
      StartsInside(buffer, s);
      assert r.visited == [];
    } else if r.state == Ground {
      InsideEnds(buffer, s);
      assert r.visited == [r.visited[0]];
    } else if !Starter(buffer[s.at]) {
      InsideGoesOn(buffer, s);
      assert r.visited == [];
    } else {
      assert !EndsString(buffer, s) by {
        if EndsString(buffer, s) {
          StringEnds(buffer, s);
        }
      }
      StartsInside(buffer, s);
      BreaksOff(buffer, s);
      LeftOpen(buffer, s, s.at);
      assert r.visited == [r.visited[0]];
    }
  }

  lemma {:induction false} ScanGood(buffer: Text, s: Scan, end: nat)
    requires end <= |buffer| && InToken(buffer, s) && forall t :: t in s.visited ==> GoodToken(buffer, t)
    ensures InToken(buffer, ScanTo(buffer, s, end))
    ensures forall t :: t in ScanTo(buffer, s, end).visited ==> GoodToken(buffer, t)
    decreases if s.at < end then end - s.at else 0
  {
    if s.at < end {
      TurnGood(buffer, s);
      NextIsForward(buffer, s);
      var r := Next(buffer, s);
      assert InToken(buffer, r);
      forall t | t in r.visited
        ensures GoodToken(buffer, t)
      {
        assert t in s.visited || t in Forward(buffer, s).visited;
      }
      ScanGood(buffer, r, end);
    }
  }

  /** Every sequence the scanner visits, cut out, reads as itself. */
  lemma TokensGood(buffer: Text)
    ensures forall t :: t in Tokens(buffer) ==> GoodToken(buffer, t)
  {
    ScanGood(buffer, BEGIN, |buffer|);
    ScanSpanned(buffer, BEGIN, |buffer|);
    var s := ScanTo(buffer, BEGIN, |buffer|);
    if s.state != Ground {
      LeftOpen(buffer, s, |buffer|);
      var dropped := Drop(s.(visited := []), |buffer|).visited;
      assert Close(buffer, s).visited == s.visited + dropped;
      assert dropped == [dropped[0]];
    }
    hide GoodToken, ScanTo;
  }
}
