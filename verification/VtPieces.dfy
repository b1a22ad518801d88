/** What pieces of output read as: plain text, a control sequence written out,
    an operating system command; and what the parts of a sequence can hold. */
module VtPieces {
  import opened VtScanner
  import opened VtItems
  import opened VtTokens

  ghost predicate Plain(text: Text) {
    forall i :: 0 <= i < |text| ==> !Starter(text[i])
  }

  /** Plain text reads as its characters. */
  lemma {:induction false} PlainReads(text: Text)
    requires Plain(text)
    ensures Items(text) == Chars(text) && Whole(text) && EndState(text) == Ground
  {
    if text != [] {
      var first, unit := text[..|text| - 1], text[|text| - 1];
      PlainReads(first);
      assert text == first + [unit];
      OneChar(unit);
      AppendClosed(first, [unit]);
      CharsJoin(first, [unit]);
    }
  }

  lemma OneChar(unit: Unit)
    requires !Starter(unit)
    ensures Items([unit]) == Chars([unit]) == [Char(unit)] && Whole([unit]) && EndState([unit]) == Ground
  {
    assert [unit][..0] == [];
    GoStep([unit], BEGIN);
    GoEnd([unit], Forward([unit], BEGIN));
  }

  // ----- a sequence unit by unit -----

  /** A piece that leaves the scanner inside its one sequence. */
  ghost predicate Inside(z: Text, state: State, token: Token) {
    var r := Go(z, BEGIN);
    && z != [] && r.items == [] && !r.danger && r.last.at == |z|
    && r.last.state == state != Ground && r.last.token == token && token.start == 0 && r.last.visited == []
  }

  function At(z: Text, state: State, token: Token): Scan {
    Scan(state, token, |z|, [])
  }

  lemma InsideStart(unit: Unit)
    requires Starter(unit)
    ensures Inside([unit], StartState(Code(unit)), NO_TOKEN)
  {
    ReadGround([unit], BEGIN);
    GoStep([unit], BEGIN);
    GoEnd([unit], Forward([unit], BEGIN));
    StartIsNotGround(Code(unit));
  }

  lemma InsideForward(z: Text, state: State, token: Token, unit: Unit)
    requires state != Ground && !Starter(unit)
    ensures
      var r := ReadOther(At(z, state, token), unit);
      Forward(z + [unit], At(z, state, token)) == r.(at := r.at + 1)
  {
    ReadInside(z + [unit], At(z, state, token));
    hide Read, ReadOther, Starter;
  }

  /** One more unit of a sequence. */
  lemma InsideUnit(z: Text, state: State, token: Token, unit: Unit)
    requires Inside(z, state, token) && !Starter(unit)
    ensures
      var s, r, next := At(z, state, token), ReadOther(At(z, state, token), unit), z + [unit];
      Go(next, BEGIN) == Reading(ItemsOf(next, r.visited), r.(at := r.at + 1), false)
      <== r.(at := r.at + 1).at == |next|
  {
    var s, next := At(z, state, token), z + [unit];
    assert unit != 0x1b;
    assert Go(z, BEGIN).last == s && Go(z, BEGIN).items == [] && !Go(z, BEGIN).danger;
    GoOn(z, [unit], BEGIN);
    InsideForward(z, state, token, unit);
    var r := ReadOther(s, unit);
    var t := r.(at := r.at + 1);
    assert Forward(next, s) == t;
    GoStep(next, s);
    assert !EscapeInString(next, s);
    assert Emits(next, s) == ItemsOf(next, t.visited);
    assert t.visited == r.visited;
    if t.at == |next| {
      GoEnd(next, t);
      assert [] + (Emits(next, s) + []) == Emits(next, s);
    }
  }

  /** The unit goes on with the sequence. */
  lemma InsideGoesOn(z: Text, state: State, token: Token, unit: Unit, state': State, token': Token)
    requires Inside(z, state, token) && !Starter(unit)
    requires ReadOther(At(z, state, token), unit) == At(z, state', token') && state' != Ground && token'.start == 0
    ensures Inside(z + [unit], state', token')
  {
    InsideUnit(z, state, token, unit);
    OneItem(z + [unit], []);
    hide ReadOther, Go;
  }

  /** The unit ends the sequence. */
  lemma InsideEndsWith(z: Text, state: State, token: Token, unit: Unit, kind: Kind, final: Text)
    requires Inside(z, state, token) && !Starter(unit)
    requires ReadOther(At(z, state, token), unit) == Finish(At(z, state, token), |z| + 1, kind, final)
    ensures Items(z + [unit]) ==
      [Seq(kind, token.prefix, token.params, token.intermediates, final, token.controls, z + [unit])]
    ensures Whole(z + [unit]) && EndState(z + [unit]) == Ground
  {
    InsideUnit(z, state, token, unit);
    var next, s := z + [unit], At(z, state, token);
    var r, done := ReadOther(s, unit), token.(end := |z| + 1, kind := kind, final := final);
    assert r.visited == [] + [done] && r.state == Ground && r.at == |z|;
    assert [] + [done] == [done];
    OneItem(next, [done]);
    assert token.start == 0;
    assert ItemOf(next, done) == Seq(kind, token.prefix, token.params, token.intermediates, final, token.controls,
      next);
    assert Go(next, BEGIN).last.state == Ground && Go(next, BEGIN).last.at == |next|
      && Go(next, BEGIN).items == [ItemOf(next, done)];
    assert Items(next) == [ItemOf(next, done)] + [];
  }

  // ----- a control sequence written out -----

  predicate ParamUnit(unit: Unit) {
    0x30 <= unit <= 0x3b
  }

  ghost predicate Params(params: Text) {
    forall i :: 0 <= i < |params| ==> ParamUnit(params[i])
  }

  function CsiText(params: Text, final: Unit): Text {
    [0x1b, 0x5b] + params + [final]
  }

  lemma CsiOpens()
    ensures Inside([0x1b, 0x5b], Csi, NO_TOKEN)
  {
    InsideStart(0x1b);
    InsideGoesOn([0x1b], Escape, NO_TOKEN, 0x5b, Csi, NO_TOKEN);
    assert [0x1b] + [0x5b] == [0x1b, 0x5b];
  }

  lemma {:induction false} CsiParams(params: Text)
    requires Params(params)
    ensures Inside([0x1b, 0x5b] + params, if params == [] then Csi else CsiParam, NO_TOKEN.(params := params))
  {
    if params == [] {
      CsiOpens();
      assert [0x1b, 0x5b] + [] == [0x1b, 0x5b];
      assert NO_TOKEN.(params := []) == NO_TOKEN;
    } else {
      var first, unit := params[..|params| - 1], params[|params| - 1];
      CsiParams(first);
      var z, state := [0x1b, 0x5b] + first, if first == [] then Csi else CsiParam;
      assert params == first + [unit] && z + [unit] == [0x1b, 0x5b] + params;
      assert ParamUnit(unit);
      InsideGoesOn(z, state, NO_TOKEN.(params := first), unit, CsiParam, NO_TOKEN.(params := params));
    }
  }

  /** A control sequence that is written out reads as that control sequence. */
  lemma CsiReads(params: Text, final: Unit)
    requires Params(params) && 0x40 <= final <= 0x7e
    ensures Items(CsiText(params, final)) == [Seq(CsiKind, [], params, [], [final], [], CsiText(params, final))]
    ensures Whole(CsiText(params, final)) && EndState(CsiText(params, final)) == Ground
  {
    CsiParams(params);
    var state := if params == [] then Csi else CsiParam;
    InsideEndsWith([0x1b, 0x5b] + params, state, NO_TOKEN.(params := params), final, CsiKind, [final]);
  }

  // ----- an operating system command -----

  ghost predicate Printable(text: Text) {
    forall i :: 0 <= i < |text| ==> 0x20 <= text[i] <= 0x7e
  }

  function OscText(body: Text): Text {
    [0x1b, 0x5d] + body + [0x07]
  }

  lemma {:induction false} OscBody(body: Text)
    requires Printable(body)
    ensures Inside([0x1b, 0x5d] + body, Osc, NO_TOKEN)
  {
    if body == [] {
      InsideStart(0x1b);
      InsideGoesOn([0x1b], Escape, NO_TOKEN, 0x5d, Osc, NO_TOKEN);
      assert [0x1b] + [0x5d] == [0x1b, 0x5d] + [];
    } else {
      var first, unit := body[..|body| - 1], body[|body| - 1];
      OscBody(first);
      assert [0x1b, 0x5d] + first + [unit] == [0x1b, 0x5d] + body;
      InsideGoesOn([0x1b, 0x5d] + first, Osc, NO_TOKEN, unit, Osc, NO_TOKEN);
    }
  }

  lemma OscReads(body: Text)
    requires Printable(body)
    ensures Items(OscText(body)) == [Seq(StringKind, [], [], [], [], [], OscText(body))]
    ensures Whole(OscText(body)) && EndState(OscText(body)) == Ground
  {
    OscBody(body);
    InsideEndsWith([0x1b, 0x5d] + body, Osc, NO_TOKEN, 0x07, StringKind, []);
  }

  /** A command that is not ended goes on to the end of the text. */
  lemma OscUnfinished(body: Text)
    requires Printable(body)
    ensures Items([0x1b, 0x5d] + body) == [Seq(StringKind, [], [], [], [], [], [0x1b, 0x5d] + body)]
    ensures Whole([0x1b, 0x5d] + body) && EndState([0x1b, 0x5d] + body) == Osc
  {
    OscBody(body);
    var z := [0x1b, 0x5d] + body;
    var dropped := Drop(Go(z, BEGIN).last.(visited := []), |z|).visited;
    assert dropped == [NO_TOKEN.(end := |z|, kind := StringKind)];
    OneItem(z, dropped);
    assert Raw(z, 0, |z|) == z;
  }

  // ----- what the parts of a sequence hold -----

  /** Controls that run, parameter characters, and a final character. */
  ghost predicate Shaped(token: Token) {
    && (forall i :: 0 <= i < |token.controls| ==> Executed(token.controls[i]))
    && Params(token.params)
    && (token.kind == CsiKind ==> |token.final| == 1 && 0x40 <= token.final[0] <= 0x7e)
  }

  ghost predicate ShapedScan(s: Scan) {
    && (forall t :: t in s.visited ==> Shaped(t))
    && (s.state != Ground ==> Shaped(s.token.(kind := Ignored)))
  }

  lemma ShapedTurn(buffer: Text, s: Scan)
    requires s.at < |buffer| && ShapedScan(s.(visited := []))
    ensures ShapedScan(Forward(buffer, s))
  {
    var r := s.(visited := []);
    if s.state == Ground {
      if Starter(buffer[s.at]) {
        ReadGround(buffer, r);
      }
    } else if EndsString(buffer, r) {
    } else if Starter(buffer[s.at]) {
      ReadAnew(buffer, r);
    } else {
      ReadInside(buffer, r);
      ShapedOther(r, buffer[s.at]);
    }
    hide Read, Starter, ReadOther;
  }

  lemma ShapedOther(s: Scan, unit: Unit)
    requires s.state != Ground && s.visited == [] && ShapedScan(s) && !Starter(unit)
    ensures ShapedScan(ReadOther(s, unit).(at := ReadOther(s, unit).at + 1))
  {
    hide HighSurrogate, EscapeString;
    var code := Code(unit);
    assert !Ending(code) && !Executed(code) && code < 0x7f ==> 0x20 <= unit == code;
  }

  lemma {:induction false} ScanShaped(buffer: Text, s: Scan, end: nat)
    requires end <= |buffer| && ShapedScan(s)
    ensures ShapedScan(ScanTo(buffer, s, end))
    decreases if s.at < end then end - s.at else 0
  {
    if s.at < end {
      assert ShapedScan(s.(visited := []));
      ShapedTurn(buffer, s);
      NextIsForward(buffer, s);
      assert ShapedScan(Next(buffer, s));
      ScanShaped(buffer, Next(buffer, s), end);
    }
  }

  lemma TokensShaped(buffer: Text)
    ensures forall t :: t in Tokens(buffer) ==> Shaped(t)
  {
    ScanShaped(buffer, BEGIN, |buffer|);
    hide ScanTo;
  }
}
