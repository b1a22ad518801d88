/** Outputs that leave a sequence unfinished, and what more text does to it. */
module VtOpen {
  import opened VtScanner
  import opened VtItems
  import opened VtTokens
  import opened VtPieces

  predicate AllExecuted(text: Text) {
    forall i :: 0 <= i < |text| ==> Executed(text[i])
  }

  /** The text ends in one unfinished sequence, `u`, which starts anew after `x`. */
  ghost predicate Opens(text: Text, x: Text, u: Text, state: State, token: Token) {
    && text == x + u && Whole(x) && (EndState(x) == Ground || StartsAnew(u, EndState(x))) && Inside(u, state, token)
  }

  /** What an unfinished sequence is when the text ends there. */
  function OpenItem(u: Text, state: State, token: Token): Item {
    var kind := if InString(state) then StringKind else Ignored;
    Seq(kind, token.prefix, token.params, token.intermediates, [], token.controls, u)
  }

  lemma InsideReads(u: Text, state: State, token: Token)
    requires Inside(u, state, token)
    ensures Items(u) == [OpenItem(u, state, token)] && Whole(u) && EndState(u) == state
  {
    var last := Go(u, BEGIN).last;
    var dropped := Drop(last.(visited := []), |u|).visited;
    assert dropped == [token.(end := |u|, kind := if InString(state) then StringKind else Ignored, final := [])];
    OneItem(u, dropped);
    assert Raw(u, 0, |u|) == u;
    assert Items(u) == [] + [OpenItem(u, state, token)];
  }

  lemma OpensReads(text: Text, x: Text, u: Text, state: State, token: Token)
    requires Opens(text, x, u, state, token)
    ensures Items(text) == Items(x) + [OpenItem(u, state, token)] && Whole(text) && EndState(text) == state
  {
    hide Items, Whole, EndState, StartsAnew, Inside;
    InsideReads(u, state, token);
    if EndState(x) == Ground {
      AppendClosed(x, u);
    } else {
      AppendAnew(x, u);
    }
  }

  /** An unfinished sequence, read alone, is one that starts anew. */
  lemma AloneOpens(raw: Text, item: Item) returns (state: State, token: Token)
    requires ReadsAlone(raw, item) && EndState(raw) != Ground
    ensures Inside(raw, state, token) && state == EndState(raw) && item == OpenItem(raw, state, token)
  {
    var r := Go(raw, BEGIN);
    state, token := r.last.state, r.last.token;
    var dropped := Drop(r.last.(visited := []), |raw|).visited;
    OneItem(raw, dropped);
    assert Closing(raw, r.last) == [ItemOf(raw, dropped[0])];
    assert Items(raw) == r.items + Closing(raw, r.last);
    assert r.items == [];
    OpenAtStart(raw);
    InsideReads(raw, state, token);
  }

  /** Nothing but one unfinished sequence starts at the text's start. */
  lemma OpenAtStart(raw: Text)
    requires raw != [] && Go(raw, BEGIN).items == [] && Go(raw, BEGIN).last.at == |raw|
      && Go(raw, BEGIN).last.state != Ground
    ensures Inside(raw, Go(raw, BEGIN).last.state, Go(raw, BEGIN).last.token)
  {
    StartKept(raw, BEGIN);
    LastVisits(raw, BEGIN);
    if Go(raw, BEGIN).danger {
      DangerIs(raw, BEGIN);
    }
  }

  /** As long as nothing is read whole, the sequence is the one first started. */
  lemma {:induction false} StartKept(raw: Text, s: Scan)
    requires Go(raw, s).items == [] && Go(raw, s).last.at == |raw| && s.at < |raw|
    requires s.state == Ground || s.token.start == 0
    requires s.state == Ground ==> s.at == 0
    ensures Go(raw, s).last.state != Ground ==> Go(raw, s).last.token.start == 0
    decreases |raw| - s.at
  {
    hide Go, Forward;
    GoStep(raw, s);
    var r := Forward(raw, s);
    ForwardTurns(raw, s);
    assert Emits(raw, s) == [];
    if r.visited != [] {
      OneItem(raw, r.visited);
    }
    assert r.state != Ground && r.token.start == 0;
    if r.at < |raw| {
      StartKept(raw, r);
    } else {
      GoEnd(raw, r);
    }
  }

  lemma {:induction false} LastVisits(raw: Text, s: Scan)
    requires Go(raw, s).items == [] && Go(raw, s).last.at == |raw|
    requires s.at >= |raw| ==> s.visited == []
    ensures Go(raw, s).last.visited == []
    decreases if s.at < |raw| then |raw| - s.at else 0
  {
    if s.at < |raw| {
      var r := Forward(raw, s);
      ForwardTurns(raw, s);
      GoStep(raw, s);
      if r.visited != [] {
        OneItem(raw, r.visited);
      }
      LastVisits(raw, r);
    }
  }

  // ----- controls on their own -----

  lemma QuietUnit(u: Text, state: State, token: Token, unit: Unit)
    requires Inside(u, state, token) && !InString(state) && Executed(unit)
    ensures Inside(u + [unit], state, token.(controls := token.controls + [unit]))
  {
    hide Inside;
    assert !Starter(unit) && state != Ground && token.start == 0 by { InsideState(u, state, token); }
    VtPieces.InsideGoesOn(u, state, token, unit, state, token.(controls := token.controls + [unit]));
  }

  lemma InsideState(u: Text, state: State, token: Token)
    requires Inside(u, state, token)
    ensures state != Ground && token.start == 0 && u != []
  {
  }

  lemma {:induction false} QuietInside(u: Text, state: State, token: Token, controls: Text)
    requires Inside(u, state, token) && !InString(state) && AllExecuted(controls)
    ensures Inside(u + controls, state, token.(controls := token.controls + controls))
  {
    hide Inside;
    if controls == [] {
      assert u + [] == u && token.controls + [] == token.controls;
    } else {
      var first, unit := controls[..|controls| - 1], controls[|controls| - 1];
      QuietInside(u, state, token, first);
      QuietUnit(u + first, state, token.(controls := token.controls + first), unit);
      assert u + first + [unit] == u + controls;
      assert token.controls + first + [unit] == token.controls + controls;
    }
  }

  lemma StartsLonger(u: Text, more: Text, state: State)
    requires StartsAnew(u, state) && !(InString(state) && u == [0x1b] && more != [] && more[0] == 0x5c)
    ensures StartsAnew(u + more, state)
  {
    assert (u + more)[0] == u[0];
    if |u| > 1 {
      assert (u + more)[1] == u[1];
    } else if more != [] {
      assert (u + more)[1] == more[0];
    }
  }

  /** Controls after an unfinished sequence, but for a string, run within it. */
  lemma QuietOpens(text: Text, x: Text, u: Text, state: State, token: Token, controls: Text)
    requires Opens(text, x, u, state, token) && !InString(state) && AllExecuted(controls)
    ensures Opens(text + controls, x, u + controls, state, token.(controls := token.controls + controls))
  {
    hide Inside, Whole, EndState, StartsAnew;
    QuietInside(u, state, token, controls);
    assert text + controls == x + (u + controls);
    if EndState(x) != Ground {
      assert controls != [] ==> controls[0] != 0x5c by { assert controls != [] ==> Executed(controls[0]); }
      StartsLonger(u, controls, EndState(x));
    }
  }

  // ----- text that an unfinished sequence takes in -----

  lemma InsideAt(u: Text, state: State, token: Token)
    requires Inside(u, state, token)
    ensures Go(u, BEGIN).items == [] && Go(u, BEGIN).last == At(u, state, token) && !Go(u, BEGIN).danger
  {
  }

  lemma TakesTurn(u: Text, state: State, token: Token, more: Text)
    requires Inside(u, state, token) && more != [] && !Starter(more[0])
    ensures
      var r := ReadOther(At(u, state, token), more[0]);
      Forward(u + more, At(u, state, token)) == r.(at := r.at + 1)
  {
    var s := At(u, state, token);
    InsideState(u, state, token);
    assert (u + more)[s.at] == more[0];
    ReadInside(u + more, s);
    hide Read, ReadOther, Starter;
  }

  /** The unit ends the sequence, and the text after it is read on its own. */
  lemma TakesLast(u: Text, state: State, token: Token, more: Text) returns (item: Item, m: nat)
    requires Inside(u, state, token) && Plain(more) && more != []
    requires ReadOther(At(u, state, token), more[0]).state == Ground
    ensures 1 <= m <= |more| && Items(u + more) == [item] + Chars(more[m..])
    ensures
      var visited := ReadOther(At(u, state, token), more[0]).visited;
      |visited| == 1 && item == ItemOf(u + more, visited[0]) && visited[0].start == 0 && visited[0].end > |u|
    ensures !HighSurrogate(more[0]) ==> m == 1
  {
    hide *;
    var s, all := At(u, state, token), u + more;
    PlainFirst(more);
    AtIs(u, state, token);
    InsideAt(u, state, token);
    InsideState(u, state, token);
    TakesTurn(u, state, token, more);
    OtherTurns(s, more[0]);
    EndsAt(s, more[0]);
    var r := Forward(all, s);
    GoOn(u, more, BEGIN);
    GoStep(all, s);
    OneItem(all, r.visited);
    EmitsInside(all, s);
    item := ItemOf(all, r.visited[0]);
    m := if r.at <= |all| then r.at - |u| else |more|;
    ReadsRest(all, u, more, r, m);
    assert Go(all, BEGIN).items == [] + ([item] + Chars(more[m..]));
    ItemsAre(all);
  }

  lemma PlainFirst(more: Text)
    requires Plain(more) && more != []
    ensures !Starter(more[0]) && more[0] != 0x1b
  {
  }

  lemma AtIs(u: Text, state: State, token: Token)
    ensures At(u, state, token) == Scan(state, token, |u|, []) && BEGIN.at == 0
  {
  }

  lemma EmitsInside(all: Text, s: Scan)
    requires s.state != Ground && s.at < |all|
    ensures Emits(all, s) == ItemsOf(all, Forward(all, s).visited)
  {
  }

  lemma ItemsAre(all: Text)
    ensures Items(all) == Go(all, BEGIN).items + Closing(all, Go(all, BEGIN).last)
  {
  }

  lemma EndsAt(s: Scan, unit: Unit)
    requires s.state != Ground && s.visited == [] && ReadOther(s, unit).state == Ground
    ensures s.at <= ReadOther(s, unit).at <= s.at + 1
    ensures !HighSurrogate(unit) ==> ReadOther(s, unit).at == s.at
  {
    hide Ending, Executed, InRange;
  }

  lemma ReadsRest(all: Text, u: Text, more: Text, r: Scan, m: nat)
    requires all == u + more && Plain(more) && r.state == Ground && |u| < r.at
    requires m <= |more| && (if r.at <= |all| then m == r.at - |u| else m == |more|)
    ensures Go(all, r).items == Chars(more[m..]) && Closing(all, Go(all, r).last) == []
  {
    if r.at > |all| {
      GoEnd(all, r);
      assert more[m..] == [];
    } else {
      var before, rest := all[..r.at], more[m..];
      assert all == before + rest;
      assert Plain(rest);
      PlainReads(rest);
      assert Same(BEGIN, r, |before|);
      GoSame(before, rest, BEGIN, r);
      assert Items(rest) == Go(rest, BEGIN).items;
    }
  }

  /** Plain text after an unfinished sequence: the sequence takes in some of it,
      and the rest is drawn. */
  lemma {:induction false} ReadsOn(u: Text, state: State, token: Token, more: Text) returns (item: Item, m: nat)
    requires Inside(u, state, token) && Plain(more) && more != []
    ensures 1 <= m <= |more| && Items(u + more) == [item] + Chars(more[m..])
    ensures item.Seq? && token.controls <= item.controls && |item.raw| > |u| && item.raw[..|u|] == u
    ensures !InString(state) && 0x40 <= more[0] <= 0x7e && EscapeString(more[0]) == Ground ==> m == 1
    ensures item.kind == CsiKind ==> item.final == [more[m - 1]]
    ensures item.kind == CsiKind && m == 1 ==> state == Csi || state == CsiParam || state == CsiIntermediate
    decreases |more|
  {
    hide Inside, ReadOther, Items, Chars, Raw, EscapeString, Starter;
    var s := At(u, state, token);
    var r := ReadOther(s, more[0]);
    InsideState(u, state, token);
    if r.state == Ground {
      item, m := TakesLast(u, state, token, more);
      TakenItem(s, more[0], u, more);
      if 0x40 <= more[0] <= 0x7e {
        FinalTaken(more[0]);
      }
    } else {
      OtherTurns(s, more[0]);
      TakenOn(s, more[0]);
      assert r == At(u, r.state, r.token);
      VtPieces.InsideGoesOn(u, state, token, more[0], r.state, r.token);
      if |more| == 1 {
        InsideReads(u + [more[0]], r.state, r.token);
        item, m := OpenItem(u + [more[0]], r.state, r.token), 1;
        NothingAfter(more);
        assert [item] + [] == [item];
      } else {
        var n;
        item, n := ReadsOn(u + [more[0]], r.state, r.token, more[1..]);
        m := n + 1;
        TakesOneMore(u, more, item, n);
      }
    }
  }

  lemma NothingAfter(more: Text)
    requires |more| == 1
    ensures more == [more[0]] && Chars(more[1..]) == []
  {
  }

  lemma FinalTaken(unit: Unit)
    requires 0x40 <= unit <= 0x7e
    ensures !HighSurrogate(unit)
  {
  }

  lemma TakesOneMore(u: Text, more: Text, item: Item, n: nat)
    requires |more| > 1 && 1 <= n < |more| && Items(u + [more[0]] + more[1..]) == [item] + Chars(more[1..][n..])
    requires item.Seq? && |item.raw| > |u| + 1 && item.raw[..|u| + 1] == u + [more[0]]
    ensures Items(u + more) == [item] + Chars(more[n + 1..]) && item.raw[..|u|] == u
  {
    assert u + more == u + [more[0]] + more[1..] && more[1..][n..] == more[n + 1..];
    assert item.raw[..|u|] == item.raw[..|u| + 1][..|u|];
  }

  lemma TakenItem(s: Scan, unit: Unit, u: Text, more: Text)
    requires s.state != Ground && s.visited == [] && ReadOther(s, unit).state == Ground && s.at == |u|
      && s.token.start == 0
    requires more != [] && more[0] == unit
    ensures
      var done := ReadOther(s, unit).visited[0];
      var item := ItemOf(u + more, done);
      && |ReadOther(s, unit).visited| == 1 && done.controls == s.token.controls && done.start == 0 && done.end > |u|
      && |item.raw| > |u| && item.raw[..|u|] == u
      && (done.kind == CsiKind ==>
         done.final == [unit] && 0x40 <= unit <= 0x7e
           && (s.state == Csi || s.state == CsiParam || s.state == CsiIntermediate))
  {
    hide Ending, Executed, HighSurrogate;
  }

  lemma TakenOn(s: Scan, unit: Unit)
    requires s.state != Ground && s.visited == [] && ReadOther(s, unit).state != Ground
    ensures s.token.controls <= ReadOther(s, unit).token.controls
    ensures InString(s.state) || !(0x40 <= unit <= 0x7e) || EscapeString(unit) != Ground
  {
  }

  // ----- strings -----

  function StringItem(token: Token, raw: Text): Item {
    Seq(StringKind, token.prefix, token.params, token.intermediates, [], token.controls, raw)
  }

  lemma StringTurn(z: Text, s: Scan)
    requires InString(s.state) && s.visited == [] && s.at < |z|
    ensures
      var r := Forward(z, s);
      || (r == s.(at := s.at + 1) && !Starter(z[s.at]))
      || (|r.visited| == 1 && s.at <= r.visited[0].end
          && r.visited[0] == s.token.(end := r.visited[0].end, kind := StringKind, final := [])
          && (r.visited[0].end == s.at ==> Starter(z[s.at]) && !EndsString(z, s)))
  {
    if EndsString(z, s) {
    } else if Starter(z[s.at]) {
      ReadAnew(z, s);
    } else {
      ReadInside(z, s);
      hide Ending;
    }
  }

  /** A string reads on to where it ends, and other items follow. */
  lemma {:induction false} StringReadsOn(z: Text, s: Scan) returns (e: nat, rest: seq<Item>)
    requires InString(s.state) && s.visited == [] && s.at <= |z|
    ensures e >= s.at
    ensures Go(z, s).items + Closing(z, Go(z, s).last) == [StringItem(s.token, Raw(z, s.token.start, e))] + rest
    ensures s.at < |z| && !(Starter(z[s.at]) && !EndsString(z, s)) ==> e > s.at
    decreases |z| - s.at
  {
    hide Go, Forward, Raw, Closing;
    if s.at == |z| {
      e, rest := |z|, [];
      GoEnd(z, s);
      StringCloses(z, s);
      assert [] + [StringItem(s.token, Raw(z, s.token.start, e))]
        == [StringItem(s.token, Raw(z, s.token.start, e))] + [];
    } else {
      var r := Forward(z, s);
      StringTurn(z, s);
      GoStep(z, s);
      var more := Go(z, r).items;
      if r.visited == [] {
        e, rest := StringReadsOn(z, r);
        OneItem(z, []);
        assert [] + more == more;
      } else {
        e, rest := r.visited[0].end, more + Closing(z, Go(z, s).last);
        OneItem(z, r.visited);
        var item := StringItem(s.token, Raw(z, s.token.start, e));
        assert Emits(z, s) == [item];
        assert [item] + more + Closing(z, Go(z, s).last) == [item] + rest;
      }
    }
  }

  lemma StringCloses(z: Text, s: Scan)
    requires InString(s.state) && s.visited == [] && s.at == |z|
    ensures Closing(z, s) == [StringItem(s.token, Raw(z, s.token.start, |z|))]
  {
    var dropped := Drop(s.(visited := []), |z|).visited;
    assert dropped == [s.token.(end := |z|, kind := StringKind, final := [])];
    OneItem(z, dropped);
  }

  /** What a text leaves the scanner with: a sequence that started before, and
      nothing else that was just visited. */
  ghost predicate Tidy(s: Scan) {
    s.state != Ground ==> s.token.start < s.at
  }

  lemma {:induction false} LastTidy(z: Text, s: Scan)
    requires Tidy(s)
    ensures Tidy(Go(z, s).last)
    decreases if s.at < |z| then |z| - s.at else 0
  {
    hide Go, Forward;
    if s.at < |z| {
      ForwardTurns(z, s);
      GoStep(z, s);
      LastTidy(z, Forward(z, s));
    } else {
      GoEnd(z, s);
    }
  }

  /** A text that ends inside a string does not end in half a string end. */
  lemma {:induction false} StringCalm(x: Text, s: Scan)
    requires Go(x, s).last.at == |x| && InString(Go(x, s).last.state) && s.at <= |x|
    ensures !Go(x, s).danger
    decreases |x| - s.at
  {
    hide *;
    if s.at < |x| {
      if EscapeInString(x, s) {
        EscapeLeads(x, s);
        NotString(Go(x, s).last.state);
      } else {
        GoStep(x, s);
        StringCalm(x, Forward(x, s));
      }
    } else {
      GoEnd(x, s);
    }
  }

  lemma NotString(state: State)
    requires state == Escape
    ensures !InString(state)
  {
  }

  /** More text that does not start a sequence anew becomes part of the string. */
  lemma StringGrows(text: Text, more: Text) returns (front: seq<Item>, a: Item, b: Item, rest: seq<Item>)
    requires Whole(text) && InString(EndState(text)) && more != [] && !StartsAnew(more, EndState(text))
    ensures Items(text) == front + [a] && Items(text + more) == front + ([b] + rest)
    ensures a.Seq? && b.Seq? && a.kind == b.kind == StringKind && a.controls == b.controls && |b.raw| > |a.raw|
  {
    hide Go, Closing, Starter;
    var last := Go(text, BEGIN).last;
    var s, all := last.(visited := []), text + more;
    front, a := Go(text, BEGIN).items, StringItem(last.token, Raw(text, last.token.start, |text|));
    StringCalm(text, BEGIN);
    LastTidy(text, BEGIN);
    StringCloses(text, s);
    ClosingVisits(text, last);
    GoOn(text, more, BEGIN);
    GoVisits(all, last);
    var e;
    e, rest := StringReadsOn(all, s);
    assert all[s.at] == more[0];
    assert EndsString(all, s) <==> more[0] == 0x1b && |more| > 1 && more[1] == 0x5c by {
      if |more| > 1 {
        assert all[s.at + 1] == more[1];
      }
    }
    b := StringItem(last.token, Raw(all, last.token.start, e));
    RawLonger(text, more, last.token.start, e);
    var items, tail := Go(all, last).items, Closing(all, Go(all, last).last);
    assert front + items + tail == front + (items + tail);
  }

  lemma RawLonger(text: Text, more: Text, start: nat, e: nat)
    requires start < |text| < e && more != []
    ensures |Raw(text + more, start, e)| > |Raw(text, start, |text|)|
  {
  }

  lemma ClosingVisits(z: Text, s: Scan)
    ensures Closing(z, s) == Closing(z, s.(visited := []))
  {
  }

  /** What was visited before does not matter to what is read on. */
  lemma GoVisits(z: Text, s: Scan)
    ensures Go(z, s).items == Go(z, s.(visited := [])).items
    ensures Closing(z, Go(z, s).last) == Closing(z, Go(z, s.(visited := [])).last)
  {
    if s.at < |z| {
      assert Forward(z, s) == Forward(z, s.(visited := []));
      hide Forward;
    } else {
      GoEnd(z, s);
      GoEnd(z, s.(visited := []));
    }
  }
}
