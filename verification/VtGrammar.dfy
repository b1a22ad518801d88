/** The grammar of control sequences, told from their characters alone: what an
    escape sequence, a control sequence and a string look like, finished, cut
    short or malformed, and what each reads as. */
module VtGrammar {
  import opened VtScanner
  import opened VtItems
  import VtTokens
  import opened VtPieces

  // ----- the characters -----

  predicate IsControl(unit: Unit) {
    unit <= 0x17 || unit == 0x19 || 0x1c <= unit <= 0x1f
  }

  /** Characters that start a sequence wherever they stand. */
  predicate IsStart(unit: Unit) {
    unit in [0x1b, 0x90, 0x98, 0x9b, 0x9d, 0x9e, 0x9f]
  }

  /** Characters that end any sequence: CAN, SUB and the other C1 controls. */
  predicate IsEnd(unit: Unit) {
    unit == 0x18 || unit == 0x1a || (0x80 <= unit <= 0x9f && !IsStart(unit))
  }

  /** The controls of a text, which run where they stand. */
  function Run(text: Text): Text {
    if text == [] then []
    else if IsControl(text[|text| - 1]) then Run(text[..|text| - 1]) + [text[|text| - 1]]
    else Run(text[..|text| - 1])
  }

  /** The text without its controls and DEL, which is ignored. */
  function Signs(text: Text): Text {
    if text == [] then []
    else if IsControl(text[|text| - 1]) || text[|text| - 1] == 0x7f then Signs(text[..|text| - 1])
    else Signs(text[..|text| - 1]) + [text[|text| - 1]]
  }

  ghost predicate Within(text: Text, low: nat, high: nat) {
    forall i :: 0 <= i < |text| ==> low <= text[i] <= high
  }

  // ----- the parts of a sequence -----

  /** ESC and intermediates. */
  ghost predicate EscapePart(z: Text, body: Text, intermediates: Text) {
    z == [0x1b] + body && Signs(body) == intermediates && Within(intermediates, 0x20, 0x2f)
  }

  /** What introduces a sequence: ESC, nothing but controls, and a second
      character; or one C1 control. */
  ghost predicate Introduces(intro: Text, run: Text, second: Unit, single: Unit) {
    || (intro == [single] && run == [])
    || (exists pause ::
        EscapePart([0x1b] + pause, pause, []) && intro == [0x1b] + pause + [second] && run == Run(pause))
  }

  /** A prefix, parameters and intermediates, in this order. */
  ghost predicate CsiParts(body: Text, prefix: Text, params: Text, intermediates: Text) {
    && Signs(body) == prefix + params + intermediates
    && |prefix| <= 1 && Within(prefix, 0x3c, 0x3f)
    && Within(params, 0x30, 0x3b) && Within(intermediates, 0x20, 0x2f)
  }

  /** A character that stands where it may not, after these parts. */
  ghost predicate Misplaced(unit: Unit, prefix: Text, params: Text, intermediates: Text) {
    || (0x3c <= unit <= 0x3f && prefix + params + intermediates != [])
    || (0x30 <= unit <= 0x3b && intermediates != [])
  }

  /** Characters that a malformed control sequence goes on through. */
  ghost predicate Skipped(text: Text) {
    forall i :: 0 <= i < |text| ==>
      !IsStart(text[i]) && !IsEnd(text[i]) && !(0x40 <= text[i] <= 0x7e)
  }

  /** Characters that a string goes on through; BEL ends only an OSC. */
  ghost predicate Said(text: Text, osc: bool) {
    forall i :: 0 <= i < |text| ==> !IsStart(text[i]) && !IsEnd(text[i]) && (osc ==> text[i] != 0x07)
  }

  // ----- reading on in a sequence -----

  ghost predicate Reads(z: Text, state: State, prefix: Text, params: Text, intermediates: Text, run: Text) {
    Inside(z, state, Token(0, 0, Ignored, prefix, params, intermediates, [], run))
  }

  lemma Passes(z: Text, state: State, prefix: Text, params: Text, intermediates: Text, run: Text, unit: Unit)
    requires Reads(z, state, prefix, params, intermediates, run) && !InString(state)
    requires IsControl(unit) || unit == 0x7f
    ensures Reads(z + [unit], state, prefix, params, intermediates, if unit == 0x7f then run else run + [unit])
  {
    InsideGoesOn(z, state, Token(0, 0, Ignored, prefix, params, intermediates, [], run), unit,
      state, Token(0, 0, Ignored, prefix, params, intermediates, [], if unit == 0x7f then run else run + [unit]));
  }

  lemma EscapeGoesOn(z: Text, run: Text, unit: Unit, less: Text)
    requires Reads(z, if less == [] then Escape else EscapeIntermediate, [], [], less, run) && 0x20 <= unit <= 0x2f
    ensures Reads(z + [unit], EscapeIntermediate, [], [], less + [unit], run)
  {
    var state, token, after :=
      if less == [] then Escape else EscapeIntermediate, Token(0, 0, Ignored, [], [], less, [], run),
      Token(0, 0, Ignored, [], [], less + [unit], [], run);
    assert !Starter(unit) && ReadOther(At(z, state, token), unit) == At(z, EscapeIntermediate, after);
    hide ReadOther, Starter, Inside;
    InsideGoesOn(z, state, token, unit, EscapeIntermediate, after);
  }

  lemma {:induction false} EscapeInside(z: Text, body: Text, intermediates: Text)
    requires EscapePart(z, body, intermediates)
    ensures Reads(z, if intermediates == [] then Escape else EscapeIntermediate, [], [], intermediates, Run(body))
    decreases |body|
  {
    hide Inside, ReadOther;
    if body == [] {
      assert z == [0x1b];
      InsideStart(0x1b);
    } else {
      var first, unit := body[..|body| - 1], body[|body| - 1];
      assert z == [0x1b] + first + [unit];
      if IsControl(unit) || unit == 0x7f {
        EscapeInside([0x1b] + first, first, intermediates);
        Passes([0x1b] + first, if intermediates == [] then Escape else EscapeIntermediate, [], [], intermediates,
          Run(first), unit);
      } else {
        var less := Signs(first);
        assert intermediates == less + [unit];
        assert unit == intermediates[|less|];
        assert forall i :: 0 <= i < |less| ==> less[i] == intermediates[i];
        EscapeInside([0x1b] + first, first, less);
        EscapeGoesOn([0x1b] + first, Run(first), unit, less);
      }
    }
  }

  /** What ESC and a second character, or one C1 control, introduce. */
  predicate Opens(second: Unit, single: Unit, state: State) {
    match state
    case Csi => second == 0x5b && single == 0x9b
    case Osc => second == 0x5d && single == 0x9d
    case Str =>
      || (second == 0x50 && single == 0x90) || (second == 0x58 && single == 0x98)
      || (second == 0x5e && single == 0x9e) || (second == 0x5f && single == 0x9f)
    case _ => false
  }

  lemma SecondOpens(z: Text, second: Unit, single: Unit, state: State, run: Text)
    requires Opens(second, single, state) && Reads(z, Escape, [], [], [], run)
    ensures Reads(z + [second], state, [], [], [], run)
  {
    var token := Token(0, 0, Ignored, [], [], [], [], run);
    assert !Starter(second) && ReadOther(At(z, Escape, token), second) == At(z, state, token);
    hide ReadOther, Starter, Inside;
    InsideGoesOn(z, Escape, token, second, state, token);
  }

  /** The state an introducer leads to. */
  lemma IntroInside(intro: Text, run: Text, second: Unit, single: Unit, state: State)
    requires Introduces(intro, run, second, single) && Opens(second, single, state)
    ensures Reads(intro, state, [], [], [], run)
  {
    hide Inside, EscapePart, ReadOther;
    if intro == [single] && run == [] {
      InsideStart(single);
    } else {
      var pause :| EscapePart([0x1b] + pause, pause, []) && intro == [0x1b] + pause + [second] && run == Run(pause);
      EscapeInside([0x1b] + pause, pause, []);
      SecondOpens([0x1b] + pause, second, single, state, run);
    }
  }

  function CsiState(prefix: Text, params: Text, intermediates: Text): State {
    if intermediates != [] then CsiIntermediate else if prefix + params != [] then CsiParam else Csi
  }

  lemma {:induction false} CsiInside(intro: Text, run: Text, body: Text, prefix: Text, params: Text,
                                     intermediates: Text)
    requires Introduces(intro, run, 0x5b, 0x9b) && CsiParts(body, prefix, params, intermediates)
    ensures Reads(intro + body, CsiState(prefix, params, intermediates), prefix, params, intermediates,
      run + Run(body))
    decreases |body|
  {
    if body == [] {
      assert intro + body == intro && run + [] == run;
      IntroInside(intro, run, 0x5b, 0x9b, Csi);
    } else {
      var first, unit := body[..|body| - 1], body[|body| - 1];
      assert intro + body == intro + first + [unit];
      if IsControl(unit) || unit == 0x7f {
        CsiInside(intro, run, first, prefix, params, intermediates);
        Passes(intro + first, CsiState(prefix, params, intermediates), prefix, params, intermediates,
          run + Run(first), unit);
        assert run + (Run(first) + [unit]) == run + Run(first) + [unit];
      } else {
        CsiLast(intro, run, first, unit, prefix, params, intermediates);
      }
    }
  }

  /** The parts without the last of their characters. */
  ghost predicate OneMore(unit: Unit, prefix: Text, params: Text, intermediates: Text, lead: Text, mid: Text,
                          rest: Text) {
    if intermediates != [] then intermediates == rest + [unit] && lead == prefix && mid == params
    else if params != [] then params == mid + [unit] && lead == prefix && rest == []
    else prefix == [unit] && lead == mid == rest == []
  }

  lemma LastPart(signs: Text, unit: Unit, prefix: Text, params: Text, intermediates: Text)
    returns (lead: Text, mid: Text, rest: Text)
    requires signs + [unit] == prefix + params + intermediates && |prefix| <= 1
    ensures signs == lead + mid + rest && OneMore(unit, prefix, params, intermediates, lead, mid, rest)
    ensures lead <= prefix && mid <= params && rest <= intermediates
  {
    var more := prefix + params + intermediates;
    assert more[|more| - 1] == unit && more[..|more| - 1] == signs;
    lead, mid, rest := prefix, params, intermediates;
    if intermediates != [] {
      rest := intermediates[..|intermediates| - 1];
      assert intermediates[|intermediates| - 1] == unit;
    } else if params != [] {
      mid := params[..|params| - 1];
      assert params[|params| - 1] == unit;
    } else {
      lead := [];
    }
  }

  lemma CsiReadsOn(z: Text, state: State, token: Token, unit: Unit)
    requires state == Csi || state == CsiParam || state == CsiIntermediate
    requires 0x20 <= unit <= 0x7e
    ensures !Starter(unit) && ReadOther(At(z, state, token), unit) == CsiStep(At(z, state, token), unit)
  {}

  lemma CsiSteps(z: Text, unit: Unit, prefix: Text, params: Text, intermediates: Text, lead: Text, mid: Text,
                 rest: Text, run: Text)
    requires OneMore(unit, prefix, params, intermediates, lead, mid, rest)
    requires if intermediates != [] then 0x20 <= unit <= 0x2f else if params != [] then 0x30 <= unit <= 0x3b
      else 0x3c <= unit <= 0x3f
    ensures CsiStep(At(z, CsiState(lead, mid, rest), Token(0, 0, Ignored, lead, mid, rest, [], run)), unit)
      == At(z, CsiState(prefix, params, intermediates), Token(0, 0, Ignored, prefix, params, intermediates, [], run))
  {}

  lemma CsiGoesOn(z: Text, run: Text, unit: Unit, prefix: Text, params: Text, intermediates: Text, lead: Text,
                  mid: Text, rest: Text)
    requires Reads(z, CsiState(lead, mid, rest), lead, mid, rest, run)
    requires OneMore(unit, prefix, params, intermediates, lead, mid, rest)
    requires Within(prefix, 0x3c, 0x3f) && Within(params, 0x30, 0x3b) && Within(intermediates, 0x20, 0x2f)
    ensures Reads(z + [unit], CsiState(prefix, params, intermediates), prefix, params, intermediates, run)
  {
    hide ReadOther, CsiStep, Inside;
    assert if intermediates != [] then unit == intermediates[|rest|] else if params != [] then unit == params[|mid|]
      else unit == prefix[0];
    var before, after := Token(0, 0, Ignored, lead, mid, rest, [], run),
                         Token(0, 0, Ignored, prefix, params, intermediates, [], run);
    CsiReadsOn(z, CsiState(lead, mid, rest), before, unit);
    CsiSteps(z, unit, prefix, params, intermediates, lead, mid, rest, run);
    InsideGoesOn(z, CsiState(lead, mid, rest), before, unit, CsiState(prefix, params, intermediates), after);
  }

  /** One more character of a control sequence that belongs to it. */
  lemma {:induction false} CsiLast(intro: Text, run: Text, first: Text, unit: Unit, prefix: Text, params: Text,
                                   intermediates: Text)
    requires Introduces(intro, run, 0x5b, 0x9b) && !IsControl(unit) && unit != 0x7f
    requires CsiParts(first + [unit], prefix, params, intermediates)
    ensures Reads(intro + first + [unit], CsiState(prefix, params, intermediates), prefix, params, intermediates,
      run + Run(first))
    decreases |first| + 1, 0
  {
    hide Introduces, Reads, CsiState;
    assert (first + [unit])[..|first|] == first;
    var lead, mid, rest := LastPart(Signs(first), unit, prefix, params, intermediates);
    CsiInside(intro, run, first, lead, mid, rest);
    CsiGoesOn(intro + first, run + Run(first), unit, prefix, params, intermediates, lead, mid, rest);
  }

  lemma {:induction false} MalformedInside(z: Text, run: Text, prefix: Text, params: Text, intermediates: Text,
                                           bad: Unit, tail: Text)
    requires Reads(z, CsiState(prefix, params, intermediates), prefix, params, intermediates, run)
    requires Misplaced(bad, prefix, params, intermediates) && Skipped(tail)
    ensures Reads(z + [bad] + tail, CsiIgnore, prefix, params, intermediates, run + Run(tail))
  {
    if tail == [] {
      assert z + [bad] + tail == z + [bad] && run + [] == run;
      Misplaces(z, run, prefix, params, intermediates, bad);
    } else {
      var first, unit := tail[..|tail| - 1], tail[|tail| - 1];
      assert z + [bad] + tail == z + [bad] + first + [unit];
      assert forall i :: 0 <= i < |first| ==> first[i] == tail[i];
      assert !IsStart(unit) && !IsEnd(unit) && !(0x40 <= unit <= 0x7e);
      MalformedInside(z, run, prefix, params, intermediates, bad, first);
      hide Inside;
      assert run + (Run(first) + [unit]) == run + Run(first) + [unit];
      Skips(z + [bad] + first, prefix, params, intermediates, run + Run(first), unit);
    }
  }

  lemma Misplaces(z: Text, run: Text, prefix: Text, params: Text, intermediates: Text, bad: Unit)
    requires Reads(z, CsiState(prefix, params, intermediates), prefix, params, intermediates, run)
    requires Misplaced(bad, prefix, params, intermediates)
    ensures Reads(z + [bad], CsiIgnore, prefix, params, intermediates, run)
  {
    hide ReadOther, Inside;
    var token, state := Token(0, 0, Ignored, prefix, params, intermediates, [], run),
                        CsiState(prefix, params, intermediates);
    CsiReadsOn(z, state, token, bad);
    assert CsiStep(At(z, state, token), bad) == At(z, CsiIgnore, token);
    InsideGoesOn(z, state, token, bad, CsiIgnore, token);
  }

  lemma Skips(z: Text, prefix: Text, params: Text, intermediates: Text, run: Text, unit: Unit)
    requires Reads(z, CsiIgnore, prefix, params, intermediates, run)
    requires !IsStart(unit) && !IsEnd(unit) && !(0x40 <= unit <= 0x7e)
    ensures Reads(z + [unit], CsiIgnore, prefix, params, intermediates,
      if IsControl(unit) then run + [unit] else run)
  {
    var token := Token(0, 0, Ignored, prefix, params, intermediates, [], run);
    var after := token.(controls := if IsControl(unit) then run + [unit] else run);
    assert !Starter(unit) && ReadOther(At(z, CsiIgnore, token), unit) == At(z, CsiIgnore, after);
    hide ReadOther, Starter, Inside;
    InsideGoesOn(z, CsiIgnore, token, unit, CsiIgnore, after);
  }

  lemma {:induction false} StringInside(intro: Text, run: Text, osc: bool, body: Text)
    requires Reads(intro, if osc then Osc else Str, [], [], [], run) && Said(body, osc)
    ensures Reads(intro + body, if osc then Osc else Str, [], [], [], run)
  {
    if body == [] {
      assert intro + body == intro;
    } else {
      var first, unit := body[..|body| - 1], body[|body| - 1];
      assert intro + body == intro + first + [unit];
      assert forall i :: 0 <= i < |first| ==> first[i] == body[i];
      StringInside(intro, run, osc, first);
      Says(intro + first, run, osc, unit);
    }
  }

  lemma Says(z: Text, run: Text, osc: bool, unit: Unit)
    requires Reads(z, if osc then Osc else Str, [], [], [], run)
    requires !IsStart(unit) && !IsEnd(unit) && (osc ==> unit != 0x07)
    ensures Reads(z + [unit], if osc then Osc else Str, [], [], [], run)
  {
    var token, state := Token(0, 0, Ignored, [], [], [], [], run), if osc then Osc else Str;
    assert !Starter(unit) && ReadOther(At(z, state, token), unit) == At(z, state, token);
    hide ReadOther, Starter, Inside;
    InsideGoesOn(z, state, token, unit, state, token);
  }

  // ----- sequences that have begun -----

  /** What an unfinished sequence looks like. */
  datatype Form = AnEscape | AControl | AMalformed | AString(osc: bool)

  ghost predicate EscapeBegins(z: Text, intermediates: Text, run: Text) {
    exists body :: EscapePart(z, body, intermediates) && run == Run(body)
  }

  ghost predicate ControlBegins(z: Text, prefix: Text, params: Text, intermediates: Text, run: Text) {
    exists intro, before, body ::
      Introduces(intro, before, 0x5b, 0x9b) && CsiParts(body, prefix, params, intermediates)
      && z == intro + body && run == before + Run(body)
  }

  ghost predicate MalformedBegins(z: Text, prefix: Text, params: Text, intermediates: Text, run: Text) {
    exists good, before, bad: Unit, tail ::
      ControlBegins(good, prefix, params, intermediates, before) && Misplaced(bad, prefix, params, intermediates)
      && Skipped(tail) && z == good + [bad] + tail && run == before + Run(tail)
  }

  ghost predicate StringBegins(z: Text, osc: bool, run: Text) {
    exists intro, body ::
      IntroducesString(intro, osc, run) && Said(body, osc) && z == intro + body
  }

  /** ESC ] or the C1 control OSC; ESC P, X, ^ or _, or the C1 controls DCS, SOS,
      PM and APC. */
  ghost predicate IntroducesString(intro: Text, osc: bool, run: Text) {
    if osc then Introduces(intro, run, 0x5d, 0x9d)
    else
      || Introduces(intro, run, 0x50, 0x90) || Introduces(intro, run, 0x58, 0x98)
      || Introduces(intro, run, 0x5e, 0x9e) || Introduces(intro, run, 0x5f, 0x9f)
  }

  /** The text is one unfinished sequence of this form, with these parts. */
  ghost predicate Begins(z: Text, form: Form, prefix: Text, params: Text, intermediates: Text, run: Text) {
    match form
    case AnEscape => prefix == params == [] && EscapeBegins(z, intermediates, run)
    case AControl => ControlBegins(z, prefix, params, intermediates, run)
    case AMalformed => MalformedBegins(z, prefix, params, intermediates, run)
    case AString(osc) => prefix == params == intermediates == [] && StringBegins(z, osc, run)
  }

  function FormState(form: Form, prefix: Text, params: Text, intermediates: Text): State {
    match form
    case AnEscape => if intermediates == [] then Escape else EscapeIntermediate
    case AControl => CsiState(prefix, params, intermediates)
    case AMalformed => CsiIgnore
    case AString(osc) => if osc then Osc else Str
  }

  lemma ControlInside(z: Text, prefix: Text, params: Text, intermediates: Text, run: Text)
    requires ControlBegins(z, prefix, params, intermediates, run)
    ensures Reads(z, CsiState(prefix, params, intermediates), prefix, params, intermediates, run)
  {
    hide Introduces, CsiParts, Reads;
    var intro, before, body :| Introduces(intro, before, 0x5b, 0x9b) && CsiParts(body, prefix, params, intermediates)
      && z == intro + body && run == before + Run(body);
    CsiInside(intro, before, body, prefix, params, intermediates);
  }

  lemma StringIntro(intro: Text, osc: bool, run: Text)
    requires IntroducesString(intro, osc, run)
    ensures Reads(intro, if osc then Osc else Str, [], [], [], run)
  {
    hide Introduces, Reads;
    if osc {
      IntroInside(intro, run, 0x5d, 0x9d, Osc);
    } else if Introduces(intro, run, 0x50, 0x90) {
      IntroInside(intro, run, 0x50, 0x90, Str);
    } else if Introduces(intro, run, 0x58, 0x98) {
      IntroInside(intro, run, 0x58, 0x98, Str);
    } else if Introduces(intro, run, 0x5e, 0x9e) {
      IntroInside(intro, run, 0x5e, 0x9e, Str);
    } else {
      IntroInside(intro, run, 0x5f, 0x9f, Str);
    }
  }

  lemma BeginsInside(z: Text, form: Form, prefix: Text, params: Text, intermediates: Text, run: Text)
    requires Begins(z, form, prefix, params, intermediates, run)
    ensures Reads(z, FormState(form, prefix, params, intermediates), prefix, params, intermediates, run)
  {
    hide EscapePart, IntroducesString, ControlBegins, Misplaced, Skipped, Said, Reads;
    match form
    case AnEscape =>
      var body :| EscapePart(z, body, intermediates) && run == Run(body);
      EscapeInside(z, body, intermediates);
    case AControl => ControlInside(z, prefix, params, intermediates, run);
    case AMalformed =>
      var good, before, bad: Unit, tail :| ControlBegins(good, prefix, params, intermediates, before)
        && Misplaced(bad, prefix, params, intermediates) && Skipped(tail) && z == good + [bad] + tail
        && run == before + Run(tail);
      ControlInside(good, prefix, params, intermediates, before);
      MalformedInside(good, before, prefix, params, intermediates, bad, tail);
    case AString(osc) =>
      var intro, body :| IntroducesString(intro, osc, run) && Said(body, osc) && z == intro + body;
      StringIntro(intro, osc, run);
      StringInside(intro, run, osc, body);
  }

  // ----- what they read as -----

  /** The one sequence that the text reads as. */
  ghost predicate ReadsAs(z: Text, kind: Kind, prefix: Text, params: Text, intermediates: Text, final: Text,
                          run: Text) {
    Items(z) == [Seq(kind, prefix, params, intermediates, final, run, z)]
  }

  /** The final character of a sequence: which ones there are depends on its form. */
  predicate Finishes(form: Form, intermediates: Text, unit: Unit) {
    match form
    case AnEscape =>
      0x30 <= unit <= 0x7e && (intermediates == [] ==> unit !in [0x50, 0x58, 0x5b, 0x5d, 0x5e, 0x5f])
    case AControl => 0x40 <= unit <= 0x7e
    case AMalformed => 0x40 <= unit <= 0x7e
    case AString(osc) => osc && unit == 0x07
  }

  lemma FinishStep(z: Text, form: Form, prefix: Text, params: Text, intermediates: Text, run: Text, unit: Unit)
    requires Finishes(form, intermediates, unit) || IsEnd(unit)
    ensures
      var kind, final :=
        if IsEnd(unit) || form == AMalformed || form.AString? then (if form.AString? then StringKind else Ignored)
        else if form == AnEscape then EscKind else CsiKind,
        if IsEnd(unit) || form == AMalformed || form.AString? then [] else [unit];
      var s := At(z, FormState(form, prefix, params, intermediates),
                  Token(0, 0, Ignored, prefix, params, intermediates, [], run));
      !Starter(unit) && ReadOther(s, unit) == Finish(s, |z| + 1, kind, final)
  {}

  /** A sequence ends with its final character, or with any that ends every
      sequence; then it is ignored, unless it is a string. */
  lemma FinishedReads(z: Text, form: Form, prefix: Text, params: Text, intermediates: Text, run: Text, unit: Unit)
    requires Begins(z, form, prefix, params, intermediates, run)
    requires Finishes(form, intermediates, unit) || IsEnd(unit)
    ensures
      var dropped := IsEnd(unit) || form == AMalformed || form.AString?;
      var kind :=
        if form.AString? then StringKind else if dropped then Ignored
        else if form == AnEscape then EscKind else CsiKind;
      ReadsAs(z + [unit], kind, prefix, params, intermediates, if dropped then [] else [unit], run)
    ensures Whole(z + [unit]) && EndState(z + [unit]) == Ground
  {
    hide Begins, ReadOther, Starter, Inside, FormState, Finishes;
    BeginsInside(z, form, prefix, params, intermediates, run);
    FinishStep(z, form, prefix, params, intermediates, run, unit);
    var dropped := IsEnd(unit) || form == AMalformed || form.AString?;
    var kind :=
      if form.AString? then StringKind else if dropped then Ignored else if form == AnEscape then EscKind else CsiKind;
    InsideEndsWith(z, FormState(form, prefix, params, intermediates),
      Token(0, 0, Ignored, prefix, params, intermediates, [], run), unit, kind, if dropped then [] else [unit]);
  }

  /** A turn of the scanner that takes in all of `y` ends the sequence with it. */
  /** One turn over the whole of a text that goes on from the middle of a sequence. */
  lemma TurnsOnce(z: Text, state: State, token: Token, y: Text, done: Token)
    requires Inside(z, state, token) && y != []
    requires Forward(z + y, At(z, state, token)) == Scan(Ground, done, |z + y|, [done])
    ensures Go(z + y, BEGIN).items == Emits(z + y, At(z, state, token))
    ensures Go(z + y, BEGIN).last == Scan(Ground, done, |z + y|, [done])
  {
    var s, next := At(z, state, token), z + y;
    hide Forward, Emits, Go, Next, Read, Closing;
    assert !Go(z, BEGIN).danger && Go(z, BEGIN).last == s && Go(z, BEGIN).items == [];
    GoOn(z, y, BEGIN);
    GoStep(next, s);
    GoEnd(next, Forward(next, s));
  }

  lemma TakesAll(z: Text, state: State, token: Token, y: Text, kind: Kind)
    requires Inside(z, state, token) && token.start == 0 && y != []
    requires
      var done := token.(end := |z + y|, kind := kind, final := []);
      Forward(z + y, At(z, state, token)) == Scan(Ground, done, |z + y|, [done])
    requires Emits(z + y, At(z, state, token)) == ItemsOf(z + y, Forward(z + y, At(z, state, token)).visited)
    ensures ReadsAs(z + y, kind, token.prefix, token.params, token.intermediates, [], token.controls)
    ensures Whole(z + y) && EndState(z + y) == Ground
  {
    var next, done := z + y, token.(end := |z + y|, kind := kind, final := []);
    hide Inside, Forward, Emits, Go, Next, Read;
    TurnsOnce(z, state, token, y, done);
    OneItem(next, [done]);
    assert Raw(next, 0, |next|) == next;
    assert Items(next) == [ItemOf(next, done)];
  }

  lemma StringForward(z: Text, osc: bool, run: Text)
    ensures
      var next, s := z + [0x1b, 0x5c], At(z, if osc then Osc else Str, Token(0, 0, Ignored, [], [], [], [], run));
      var done := s.token.(end := |next|, kind := StringKind, final := []);
      && Forward(next, s) == Scan(Ground, done, |next|, [done])
      && Emits(next, s) == ItemsOf(next, Forward(next, s).visited)
  {
    var next, s := z + [0x1b, 0x5c], At(z, if osc then Osc else Str, Token(0, 0, Ignored, [], [], [], [], run));
    var done := s.token.(end := |next|, kind := StringKind, final := []);
    assert next[|z|] == 0x1b && next[|z| + 1] == 0x5c;
    assert Read(next, s) == Drop(s, |z| + 2).(at := |z| + 1);
    assert [] + [done] == [done];
  }

  /** ESC and a backslash end a string, as one. */
  lemma StringReads(z: Text, osc: bool, run: Text)
    requires StringBegins(z, osc, run)
    ensures ReadsAs(z + [0x1b, 0x5c], StringKind, [], [], [], [], run)
    ensures Whole(z + [0x1b, 0x5c]) && EndState(z + [0x1b, 0x5c]) == Ground
  {
    hide StringBegins, Inside, Forward, Emits, ReadsAs, Items, Whole, EndState;
    BeginsInside(z, AString(osc), [], [], [], run);
    StringForward(z, osc, run);
    TakesAll(z, if osc then Osc else Str, Token(0, 0, Ignored, [], [], [], [], run), [0x1b, 0x5c], StringKind);
  }

  /** Left unfinished, the text is that sequence all the same. */
  lemma UnfinishedReads(z: Text, form: Form, prefix: Text, params: Text, intermediates: Text, run: Text)
    requires Begins(z, form, prefix, params, intermediates, run)
    ensures ReadsAs(z, if form.AString? then StringKind else Ignored, prefix, params, intermediates, [], run)
    ensures Whole(z) && EndState(z) == FormState(form, prefix, params, intermediates) != Ground
  {
    BeginsInside(z, form, prefix, params, intermediates, run);
    hide Begins;
    var kind := if form.AString? then StringKind else Ignored;
    var done := Token(0, |z|, kind, prefix, params, intermediates, [], run);
    var last := Go(z, BEGIN).last;
    assert InString(last.state) <==> form.AString?;
    assert Drop(last.(visited := []), |z|).visited == [] + [done] == [done];
    OneItem(z, [done]);
    assert Raw(z, 0, |z|) == z;
  }

  /** A character that starts a sequence ends an unfinished one before it, but
      for ESC and a backslash in a string. */
  lemma InterruptedReads(z: Text, form: Form, prefix: Text, params: Text, intermediates: Text, run: Text, y: Text)
    requires Begins(z, form, prefix, params, intermediates, run)
    requires y != [] && IsStart(y[0]) && !(form.AString? && |y| > 1 && y[0] == 0x1b && y[1] == 0x5c)
    ensures Items(z + y) ==
      [Seq(if form.AString? then StringKind else Ignored, prefix, params, intermediates, [], run, z)] + Items(y)
  {
    UnfinishedReads(z, form, prefix, params, intermediates, run);
    assert InString(EndState(z)) <==> form.AString?;
    hide Begins;
    AppendAnew(z, y);
  }

  lemma BrokenForward(z: Text, state: State, token: Token, cut: Text)
    requires state != Ground && !InString(state) && state != CsiIgnore && token.kind == Ignored && token.final == []
    requires cut != [] && cut[0] >= 0xa0 && |cut| == if 0xd800 <= cut[0] <= 0xdbff then 2 else 1
    ensures
      var next, s := z + cut, At(z, state, token);
      var done := token.(end := |next|, kind := Ignored, final := []);
      && Forward(next, s) == Scan(Ground, done, |next|, [done])
      && Emits(next, s) == ItemsOf(next, Forward(next, s).visited)
  {
    var next, s := z + cut, At(z, state, token);
    var done := token.(end := |next|, kind := Ignored, final := []);
    assert next[|z|] == cut[0] && !Starter(cut[0]);
    assert Read(next, s) == Drop(s, |next|).(at := |next| - 1);
    assert [] + [done] == [done];
  }

  /** A character that is not ASCII breaks off an escape or control sequence and is
      lost with it, both halves of it if it is a pair. */
  lemma BrokenReads(z: Text, form: Form, prefix: Text, params: Text, intermediates: Text, run: Text, cut: Text)
    requires Begins(z, form, prefix, params, intermediates, run) && (form == AnEscape || form == AControl)
    requires cut != [] && cut[0] >= 0xa0 && |cut| == if 0xd800 <= cut[0] <= 0xdbff then 2 else 1
    ensures ReadsAs(z + cut, Ignored, prefix, params, intermediates, [], run)
    ensures Whole(z + cut) && EndState(z + cut) == Ground
  {
    var state, token :=
      FormState(form, prefix, params, intermediates), Token(0, 0, Ignored, prefix, params, intermediates, [], run);
    assert !InString(state) && state != CsiIgnore && state != Ground;
    hide Begins, FormState, Inside, Forward, Emits, ReadsAs, Items, Whole, EndState;
    BeginsInside(z, form, prefix, params, intermediates, run);
    BrokenForward(z, state, token, cut);
    TakesAll(z, state, token, cut, Ignored);
  }

  /** Without a character that starts one there is no sequence. */
  lemma PlainTextReads(text: Text)
    requires forall i :: 0 <= i < |text| ==> !IsStart(text[i])
    ensures |Items(text)| == |text| && forall i :: 0 <= i < |text| ==> Items(text)[i] == Char(text[i])
  {
    assert Plain(text);
    hide IsStart;
    PlainReads(text);
    CharsAre(text);
  }

  lemma {:induction false} CharsAre(text: Text)
    ensures |VtTokens.Chars(text)| == |text| && forall i :: 0 <= i < |text| ==> VtTokens.Chars(text)[i] == Char(text[i])
  {
    if text != [] {
      CharsAre(text[..|text| - 1]);
    }
  }

  // ----- sequences as they are commonly written -----

  /** ESC P, X, ^ and _ open a string up to ESC and a backslash; a BEL in it is
      part of it. */
  lemma DeviceStringReads(second: Unit, body: Text)
    requires second in [0x50, 0x58, 0x5e, 0x5f] && Said(body, false)
    ensures ReadsAs([0x1b, second] + body + [0x1b, 0x5c], StringKind, [], [], [], [], [])
  {
    hide Said, ReadsAs;
    var intro := [0x1b, second];
    assert intro == [0x1b] + [] + [second] && EscapePart([0x1b] + [], [], []);
    assert IntroducesString(intro, false, []);
    assert StringBegins(intro + body, false, []);
    StringReads(intro + body, false, []);
  }

  /** ESC, intermediates and a final character are one escape sequence, such as
      ESC ( B, which designates a character set. */
  lemma EscapeReads(intermediates: Text, final: Unit)
    requires intermediates != [] && Within(intermediates, 0x20, 0x2f) && 0x30 <= final <= 0x7e
    ensures ReadsAs([0x1b] + intermediates + [final], EscKind, [], [], intermediates, [final], [])
  {
    hide ReadsAs;
    NoControls(intermediates);
    var z := [0x1b] + intermediates;
    assert EscapePart(z, intermediates, intermediates);
    assert EscapeBegins(z, intermediates, []);
    FinishedReads(z, AnEscape, [], [], intermediates, [], final);
  }

  lemma {:induction false} NoControls(text: Text)
    requires Within(text, 0x20, 0x7e)
    ensures Signs(text) == text && Run(text) == []
  {
    if text != [] {
      NoControls(text[..|text| - 1]);
    }
  }
}
