/** What the rewriting writes for each sequence, and what the sequence does, told
    from its own characters. */
module RewriteChoices {
  import opened Basics
  import RepeatScreen
  import opened VtScanner
  import opened VtItems
  import opened VtPieces
  import VtGrammar
  import opened SavedMeaning
  import opened SavedSegments
  import Decimal

  // ----- parameters -----

  ghost predicate Decimals(digits: Text) {
    forall i :: 0 <= i < |digits| ==> 0x30 <= digits[i] <= 0x39
  }

  function Value(digits: Text): int {
    if digits == [] then 0 else 10 * Value(digits[..|digits| - 1]) + digits[|digits| - 1] as int - 0x30
  }

  /** The first parameter is `n`, 0 when left out and never more than a terminal
      can hold, and `rest` follows it. */
  ghost predicate Says(params: Text, n: nat, rest: Text) {
    && (rest == [] || rest[0] == 0x3a || rest[0] == 0x3b)
    && (exists digits: Text ::
        Decimals(digits) && params == digits + rest
        && n == if Value(digits) < 0x7fff_ffff then Value(digits) else 0x7fff_ffff)
  }

  lemma {:induction false} NumberIsValue(digits: Text)
    requires AllDigits(digits)
    ensures Number(digits) == Value(digits)
  {
    var s := seq(|digits|, i requires 0 <= i < |digits| => digits[i] as char);
    if digits != [] {
      var first := digits[..|digits| - 1];
      NumberIsValue(first);
      assert s[..|s| - 1] == seq(|first|, i requires 0 <= i < |first| => first[i] as char);
    }
  }

  lemma SaysParam(params: Text, n: nat, rest: Text)
    requires Says(params, n, rest)
    ensures FirstParam(params) == (n, rest)
  {
    var digits: Text :| Decimals(digits) && params == digits + rest
      && n == if Value(digits) < 0x7fff_ffff then Value(digits) else 0x7fff_ffff;
    assert forall i :: 0 <= i < |digits| ==> params[i] == digits[i] && DigitUnit(digits[i]);
    assert rest != [] ==> params[|digits|] == rest[0];
    assert params[..|digits|] == digits && params[|digits|..] == rest;
    NumberIsValue(digits);
  }

  /** The parameters of every sequence say a number. */
  lemma {:induction false} SaysSomething(params: Text) returns (n: nat, rest: Text)
    requires Params(params)
    ensures Says(params, n, rest)
  {
    var end := ParamEnd(params);
    var digits := params[..end];
    rest := params[end..];
    assert Decimals(digits) && params == digits + rest;
    assert AllDigits(digits);
    NumberIsValue(digits);
    n := if Value(digits) < 0x7fff_ffff then Value(digits) else 0x7fff_ffff;
  }

  /** A number that is written out says that number, without leading zeros. */
  lemma PrintedSays(n: nat, rest: Text)
    requires n <= 0x7fff_ffff && (rest == [] || rest[0] == 0x3a || rest[0] == 0x3b)
    ensures Says(Printed(n) + rest, n, rest) && Printed(n) != [] && (n > 0 ==> Printed(n)[0] != 0x30)
  {
    var digits := Printed(n);
    assert forall i :: 0 <= i < |digits| ==> DigitUnit(digits[i]);
    PrintedReadsBack(n);
    NumberIsValue(digits);
    if n > 0 {
      PrintLeads(n);
    }
  }

  lemma {:induction false} PrintLeads(n: nat)
    requires n > 0
    ensures Decimal.Print(n)[0] != '0'
  {
    if n >= 10 {
      PrintLeads(n / 10);
    }
  }

  // ----- what is written -----

  /** A count that is left out, or 0, is 1. */
  function AtLeastOne(n: nat): nat {
    if n == 0 then 1 else n
  }

  /** The most that S, T, L, M and I, Z can do on the screen; of the others
      nothing is known. */
  function MostOf(size: Size, final: Text): Option<nat> {
    if final in [[0x53], [0x54], [0x4c], [0x4d]] then Some(size.rows)
    else if final in [[0x49], [0x5a]] then Some(size.cols)
    else None
  }

  predicate Erases(token: Token, n: nat) {
    token.kind == CsiKind && token.final == [0x4a] && token.intermediates == []
    && (token.prefix == [] || token.prefix == [0x3f]) && n == 3
  }

  predicate Cuts(size: Size, token: Token, n: nat) {
    && token.kind == CsiKind && token.prefix == [] && token.intermediates == []
    && MostOf(size, token.final).Some? && AtLeastOne(n) > MostOf(size, token.final).value
  }

  lemma ChoiceIs(size: Size, buffer: Text, token: Token, n: nat, rest: Text)
    requires Says(token.params, n, rest)
    ensures
      var item := ItemOf(buffer, token);
      && (IsErase(item) <==> Erases(token, n)) && (Excessive(size, item) <==> Cuts(size, token, n))
      && (Cuts(size, token, n) ==>
        CutCount(size, item) == [0x1b, 0x5b] + Printed(MostOf(size, token.final).value) + rest + token.final)
  {
    hide Printed, Raw, FirstParam;
    SaysParam(token.params, n, rest);
    if Cuts(size, token, n) {
      assert token.final == [token.final[0]];
      var a, b := Printed(MostOf(size, token.final).value), rest;
      assert [0x1b, 0x5b] + (a + b) + token.final == [0x1b, 0x5b] + a + b + token.final;
    }
  }

  /** A sequence but a repeat is copied after the text before it. Only ESC c ends
      the segment, and of it the controls are kept; so they are of CSI J and CSI ? J
      when it says 3; and only a plain S, T, L, M, I or Z is cut, to what the
      screen can show. */
  lemma VisitExactly(size: Size, buffer: Text, d: Draft, token: Token, n: nat, rest: Text)
    requires Says(token.params, n, rest)
    requires !(token.kind == CsiKind && token.prefix == [] && token.intermediates == [] && token.final == [0x62])
    ensures
      var r, before, raw :=
        Release(size, d), Raw(buffer, d.from, token.start), Raw(buffer, token.start, token.end);
      var visited := Visit(size, buffer, d, token);
      && visited.held == None && visited.previous == Some(token.kind) && visited.from == token.end
      && (if token.kind == EscKind && token.final == [0x63] && token.intermediates == [] then
            visited.done == r.done + [r.text + before + token.controls] && visited.text == []
          else
            visited.done == r.done && visited.text == r.text + before +
              if Erases(token, n) then token.controls
              else if Cuts(size, token, n) then
                token.controls + ([0x1b, 0x5b] + Printed(MostOf(size, token.final).value) + rest + token.final)
              else raw)
  {
    ChoiceIs(size, buffer, token, n, rest);
    hide Printed, Raw, RepeatText, CutCount, Excessive, IsErase, Erases, Cuts;
    var r, before := Release(size, d), Raw(buffer, d.from, token.start);
    Sum(r.text + before, token.controls, CutCount(size, ItemOf(buffer, token)));
  }

  lemma Sum(a: Text, b: Text, c: Text)
    ensures a + b + c == a + (b + c)
  {}

  /** Nothing but the held character stands before the repeat, and no control in it. */
  ghost predicate CanJoin(d: Draft, token: Token, before: Text) {
    d.held.Some? && token.controls == [] && before != []
    && forall i :: 0 <= i < |before| ==> before[i] == d.held.value.unit
  }

  /** A control is in the repeat or right before it, or another control sequence
      is right before it. */
  ghost predicate RepeatsNothing(d: Draft, token: Token, before: Text) {
    || token.controls != []
    || (if before == [] then d.previous == Some(CsiKind) else VtGrammar.IsControl(before[|before| - 1]))
  }

  lemma RepeatIs(d: Draft, token: Token, before: Text)
    ensures SavedSegments.Joins(d, token, before) <==> CanJoin(d, token, before)
    ensures Void(d, token, before) <==> RepeatsNothing(d, token, before)
    ensures AllDigits(token.params) <==> Decimals(token.params)
  {
    assert forall unit: Unit :: DigitUnit(unit) <==> 0x30 <= unit <= 0x39;
  }

  /** A plain b joins the repeat held back where it can. One that repeats nothing
      keeps only its controls. Any other is held back when it repeats an ASCII
      character, and written when not; it is copied when its parameters are digits
      only. */
  lemma RepeatVisited(size: Size, buffer: Text, d: Draft, token: Token, n: nat, rest: Text)
    requires Says(token.params, n, rest)
    requires token.kind == CsiKind && token.prefix == [] && token.intermediates == [] && token.final == [0x62]
    ensures
      var r, before, raw :=
        Release(size, d), Raw(buffer, d.from, token.start), Raw(buffer, token.start, token.end);
      var visited, verbatim := Visit(size, buffer, d, token), if Decimals(token.params) then Some(raw) else None;
      && visited.previous == Some(CsiKind) && visited.from == token.end && visited.done == d.done
      && (if CanJoin(d, token, before) then
            visited.text == d.text
            && visited.held == Some(Held(d.held.value.unit, d.held.value.count + |before| + AtLeastOne(n), None))
          else if RepeatsNothing(d, token, before) then
            visited.text == r.text + before + token.controls && visited.held == None
          else if before != [] && 0x20 <= before[|before| - 1] <= 0x7e then
            visited.text == r.text + before
            && visited.held == Some(Held(before[|before| - 1], AtLeastOne(n), verbatim))
          else
            visited.text == r.text + before + RepeatText(size, AtLeastOne(n), verbatim) && visited.held == None)
  {
    hide Raw, RepeatText, FirstParam, AllDigits, Decimals, SavedSegments.Joins, CanJoin, Void, RepeatsNothing;
    SaysParam(token.params, n, rest);
    RepeatIs(d, token, Raw(buffer, d.from, token.start));
    assert CanJoin(d, token, Raw(buffer, d.from, token.start)) ==> d.held.Some? by {
      CanJoinHeld(d, token, Raw(buffer, d.from, token.start));
    }
  }

  lemma CanJoinHeld(d: Draft, token: Token, before: Text)
    ensures CanJoin(d, token, before) ==> d.held.Some?
  {}

  /** A repeat up to the settled count is copied, or written anew after a join; a
      longer one keeps a second parameter, 1, and is followed by OSC 7357, which
      says how many periods are left out. */
  lemma RepeatWritten(size: Size, count: nat, verbatim: Option<Text>)
    ensures RepeatText(size, count, verbatim) ==
      if count > size.rule.settled then
        [0x1b, 0x5b] + Printed(RepeatScreen.Kept(size.rule, count)) + [0x3b, 0x31, 0x62]
        + ([0x1b, 0x5d, 0x37, 0x33, 0x35, 0x37, 0x3b] + Printed(RepeatScreen.Omitted(size.rule, count)) + [0x07])
      else if verbatim.Some? then verbatim.value
      else [0x1b, 0x5b] + Printed(count) + [0x62]
  {
    hide Printed, RepeatScreen.Kept, RepeatScreen.Omitted;
    if count > size.rule.settled {
      var kept, left := Printed(RepeatScreen.Kept(size.rule, count)), Printed(RepeatScreen.Omitted(size.rule, count));
      assert [0x1b, 0x5b] + (kept + [0x3b, 0x31]) + [0x62] == [0x1b, 0x5b] + kept + [0x3b, 0x31, 0x62];
      assert [0x1b, 0x5d] + ([0x37, 0x33, 0x35, 0x37, 0x3b] + left) + [0x07]
        == [0x1b, 0x5d, 0x37, 0x33, 0x35, 0x37, 0x3b] + left + [0x07];
    }
  }

  // ----- what is done -----

  /** A sequence without a hook's reading: its controls run; then a plain b draws
      the last character again so many times, unless a control ran; a plain S, T,
      L, M, I or Z does no more than the screen can show; CSI J and CSI ? J that
      say 3 do nothing; and any other does what it says. */
  lemma DoesExactly(size: Size, hooks: bool, sem: Sem, buffer: Text, token: Token, n: nat, rest: Text)
    requires Says(token.params, n, rest) && (hooks ==> sem.shortened == None)
    ensures
      var next, most, plain := Step(size, hooks, sem, ItemOf(buffer, token)), MostOf(size, token.final),
        token.kind == CsiKind && token.prefix == [] && token.intermediates == [];
      && next.last == (if token.kind == CsiKind then Nothing else Unknown)
      && next.shortened == (if plain && token.final == [0x62] && token.controls == [] && rest != []
                            then Some(sem.last) else None)
      && next.effects == sem.effects + Controls(token.controls) +
        match token.kind {
          case EscKind => [EscapeDone(token.intermediates, token.final)]
          case StringKind => [StringDone(Raw(buffer, token.start, token.end))]
          case Ignored => []
          case CsiKind =>
            if plain && token.final == [0x62] then
              if token.controls == [] then Repeated(sem.last, AtLeastOne(n)) else []
            else if Erases(token, n) then []
            else if plain && most.Some? then
              [Count(token.final, if AtLeastOne(n) < most.value then AtLeastOne(n) else most.value, rest)]
            else [Do(token.prefix, token.params, token.intermediates, token.final)]
        }
  {
    hide Raw, FirstParam, Repeated;
    SaysParam(token.params, n, rest);
  }

  /** A control that runs, a character that is drawn, and what a repeat draws. */
  lemma DrawsExactly(size: Size, hooks: bool, sem: Sem, unit: Unit, n: nat)
    ensures Step(size, hooks, sem, Char(unit)) ==
      if VtGrammar.IsControl(unit) then Sem(sem.effects + [Control(unit)], Nothing, None)
      else Sem(sem.effects + [Print(unit)], if 0x20 <= unit <= 0x7e then Drawn(unit) else Unknown, None)
    ensures Repeated(Nothing, n) == [] && |Repeated(Drawn(unit), n)| == |Repeated(Unknown, n)| == n
    ensures forall i :: 0 <= i < n ==> Repeated(Drawn(unit), n)[i] == Print(unit) && Repeated(Unknown, n)[i] == Again
  {}

  /** Only ESC c starts the story over, after its controls. */
  lemma StartsOver(size: Size, story: Story, buffer: Text, token: Token)
    ensures TellNext(size, story, ItemOf(buffer, token)) ==
      if token.kind == EscKind && token.final == [0x63] && token.intermediates == [] then
        Story(story.done + [story.now.effects + Controls(token.controls)], FRESH)
      else story.(now := Step(size, false, story.now, ItemOf(buffer, token)))
  {}

  ghost predicate SaysPeriods(raw: Text, digits: Text) {
    digits != [] && Decimals(digits) && raw == [0x1b, 0x5d, 0x37, 0x33, 0x35, 0x37, 0x3b] + digits + [0x07]
  }

  /** Exactly OSC 7357 with a number, ended by BEL, is a hook for so many periods. */
  lemma HookExactly(buffer: Text, token: Token)
    requires token.kind == StringKind && token.controls == []
    ensures
      var raw, periods := Raw(buffer, token.start, token.end), HookPeriods(ItemOf(buffer, token));
      && (forall digits :: SaysPeriods(raw, digits) ==> periods == Some(Value(digits)))
      && (periods.Some? ==> exists digits :: SaysPeriods(raw, digits))
  {
    hide Raw, SaysPeriods;
    var raw, item := Raw(buffer, token.start, token.end), ItemOf(buffer, token);
    forall digits | SaysPeriods(raw, digits)
      ensures HookPeriods(item) == Some(Value(digits))
    {
      PeriodsRead(item, digits);
    }
    if HookPeriods(item).Some? {
      PeriodsSaid(item);
    }
  }

  lemma PeriodsRead(item: Item, digits: Text)
    requires item.Seq? && item.kind == StringKind && item.controls == [] && SaysPeriods(item.raw, digits)
    ensures HookPeriods(item) == Some(Value(digits))
  {
    assert forall i :: 0 <= i < |digits| ==> DigitUnit(digits[i]);
    assert item.raw[..7] == [0x1b, 0x5d] + HOOK && item.raw[7..|item.raw| - 1] == digits;
    hide Number, Value;
    NumberIsValue(digits);
  }

  lemma PeriodsSaid(item: Item)
    requires HookPeriods(item).Some?
    ensures SaysPeriods(item.raw, item.raw[7..|item.raw| - 1])
  {
    hide Number;
    var raw := item.raw;
    var digits := raw[7..|raw| - 1];
    assert forall i :: 0 <= i < |digits| ==> DigitUnit(digits[i]);
    assert raw == raw[..7] + digits + [raw[|raw| - 1]];
  }
}
