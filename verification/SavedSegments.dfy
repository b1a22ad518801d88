/** Rewriting a saved output so that it is quick to run and does the same. */
module SavedSegments {
  import opened Basics
  import RepeatScreen
  import opened VtScanner
  import opened VtItems
  import opened VtTokens
  import opened VtPieces
  import opened VtOpen
  import opened SavedMeaning
  import Decimal

  /** A repeat that is held back, in case it can join the next. */
  datatype Held = Held(unit: Unit, count: nat, verbatim: Option<Text>)

  /** The rewriting between two sequences: the segments done, the one being
      written, the repeat held back, and where the last sequence ended. */
  datatype Draft = Draft(done: seq<Text>, text: Text, held: Option<Held>, previous: Option<Kind>, from: nat)

  const START := Draft([], [], None, None, 0)

  // ----- the rewriting -----

  function RepeatText(size: Size, count: nat, verbatim: Option<Text>): Text {
    if count <= size.rule.settled then
      if verbatim.Some? then verbatim.value else CsiText(Printed(count), 0x62)
    else
      CsiText(Printed(RepeatScreen.Kept(size.rule, count)) + [0x3b, 0x31], 0x62)
      + HookText(RepeatScreen.Omitted(size.rule, count))
  }

  function Release(size: Size, d: Draft): Draft {
    if d.held.None? then d
    else d.(text := d.text + RepeatText(size, d.held.value.count, d.held.value.verbatim), held := None)
  }

  predicate AllOf(text: Text, unit: Unit) {
    forall i :: 0 <= i < |text| ==> text[i] == unit
  }

  function GapEnd(gap: Text): Option<Unit> {
    if gap == [] then None else Some(gap[|gap| - 1])
  }

  predicate Joins(d: Draft, token: Token, gap: Text) {
    d.held.Some? && token.controls == [] && gap != [] && AllOf(gap, d.held.value.unit)
  }

  /** A repeat right after a control repeats nothing. */
  predicate Void(d: Draft, token: Token, gap: Text) {
    var last := GapEnd(gap);
    token.controls != [] || (gap == [] && d.previous == Some(CsiKind)) || (last.Some? && Executed(last.value))
  }

  function VisitRepeat(size: Size, d: Draft, token: Token, gap: Text, raw: Text): Draft {
    var count := CountOf(token.params);
    if Joins(d, token, gap) then
      d.(held := Some(d.held.value.(count := d.held.value.count + |gap| + count, verbatim := None)))
    else
      var r, last := Release(size, d), GapEnd(gap);
      if Void(d, token, gap) then r.(text := r.text + gap + token.controls)
      else
        var verbatim := if AllDigits(token.params) then Some(raw) else None;
        if last.Some? && 0x20 <= last.value <= 0x7e then
          r.(text := r.text + gap, held := Some(Held(last.value, count, verbatim)))
        else r.(text := r.text + gap + RepeatText(size, count, verbatim))
  }

  /** A count that does more than the screen can show. */
  predicate Excessive(size: Size, item: Item) {
    IsCounted(item) && CountOf(item.params) > Limit(size, item.final)
  }

  function CutCount(size: Size, item: Item): Text
    requires item.Seq?
  {
    CsiText(Printed(Limit(size, item.final)) + FirstParam(item.params).1,
            if item.final == [] then 0x40 else item.final[0])
  }

  function VisitOther(size: Size, d: Draft, item: Item, gap: Text): Draft
    requires item.Seq?
  {
    var r := Release(size, d);
    var text := r.text + gap;
    if IsReset(item) then r.(done := r.done + [text + item.controls], text := [])
    else if IsErase(item) then r.(text := text + item.controls)
    else if Excessive(size, item) then r.(text := text + item.controls + CutCount(size, item))
    else r.(text := text + item.raw)
  }

  function Visit(size: Size, buffer: Text, d: Draft, token: Token): Draft {
    var gap, item := Raw(buffer, d.from, token.start), ItemOf(buffer, token);
    var visited :=
      if IsRepeat(item) then VisitRepeat(size, d, token, gap, item.raw) else VisitOther(size, d, item, gap);
    visited.(previous := Some(token.kind), from := token.end)
  }

  function VisitAll(size: Size, buffer: Text, tokens: seq<Token>): Draft {
    if tokens == [] then START
    else Visit(size, buffer, VisitAll(size, buffer, tokens[..|tokens| - 1]), tokens[|tokens| - 1])
  }

  /** The segments of a saved output, each as the text written for it. */
  function Segments(size: Size, buffer: Text): seq<Text> {
    var d := Release(size, VisitAll(size, buffer, Tokens(buffer)));
    d.done + [d.text + Raw(buffer, d.from, |buffer|)]
  }

  // ----- when it keeps the meaning -----

  /** What is written for this sequence does not start with a sequence. */
  predicate Bare(size: Size, item: Item) {
    item.Seq? && (IsErase(item) || (item.controls != [] && (IsRepeat(item) || IsReset(item) || Excessive(size, item))))
  }

  /** What an unfinished sequence takes in without harm: in a string nothing, in
      any other only controls, which run within it. */
  predicate Quiet(state: State, text: Text) {
    state == Ground || text == [] || (!InString(state) && AllExecuted(text))
  }

  predicate StringEnd(raw: Text) {
    |raw| > 1 && raw[0] == 0x1b && raw[1] == 0x5c
  }

  /** What is written for this sequence leaves an unfinished one as it was. */
  predicate GoesOn(size: Size, state: State, item: Item) {
    state == Ground
    || if Bare(size, item) then Quiet(state, item.controls) else item.Seq? && !(InString(state) && StringEnd(item.raw))
  }

  /** The text before the `k`th sequence, or after the last, and that sequence. */
  predicate HarmlessAt(size: Size, buffer: Text, k: nat)
    requires k <= |Tokens(buffer)|
  {
    var tokens := Tokens(buffer);
    var d := Release(size, VisitAll(size, buffer, tokens[..k]));
    var state := EndState(d.text);
    if k == |tokens| then Quiet(state, Raw(buffer, d.from, |buffer|))
    else Quiet(state, Raw(buffer, d.from, tokens[k].start)) && GoesOn(size, state, ItemOf(buffer, tokens[k]))
  }

  /** Nothing that is written is taken in by a sequence that a left-out one no
      longer ends, but controls outside strings. */
  ghost predicate Harmless(size: Size, buffer: Text) {
    forall k :: 0 <= k <= |Tokens(buffer)| ==> HarmlessAt(size, buffer, k)
  }

  // ----- what is written reads as what it stands for -----

  /** More text after one that is finished, or that starts a sequence anew. */
  lemma Append(size: Size, text: Text, more: Text)
    requires Whole(text) && Whole(more) && (EndState(text) == Ground || StartsAnew(more, EndState(text)))
    ensures Whole(text + more) && EndState(text + more) == EndState(more)
    ensures Meaning(size, text + more) == Mean(size, true, Meaning(size, text), Items(more))
  {
    if EndState(text) == Ground {
      AppendClosed(text, more);
    } else {
      AppendAnew(text, more);
    }
    assert Items(text + more) == Items(text) + Items(more);
    assert EndState(text + more) == EndState(more) && Whole(text + more);
    MeanJoins(size, true, FRESH, Items(text), Items(more));
  }

  lemma AppendNothing(text: Text)
    ensures text + [] == text
  {}

  lemma RepeatedJoins(last: Last, a: nat, b: nat)
    ensures Repeated(last, a) + Repeated(last, b) == Repeated(last, a + b)
  {
    match last
    case Nothing =>
    case Drawn(unit) => assert Times(Print(unit), a) + Times(Print(unit), b) == Times(Print(unit), a + b);
    case Unknown => assert Times(Again, a) + Times(Again, b) == Times(Again, a + b);
  }

  /** A copied repeat reads as its count. */
  ghost predicate ReadsAsRepeat(raw: Text, count: nat) {
    EndState(raw) == Ground && exists item ::
      ReadsAlone(raw, item) && IsRepeat(item) && item.controls == [] && CountOf(item.params) == count
        && FirstParam(item.params).1 == []
  }

  lemma DigitsAreParams(text: Text)
    requires AllDigits(text)
    ensures Params(text) && FirstParam(text).1 == []
  {
    assert forall i :: 0 <= i < |text| ==> DigitUnit(text[i]) && text[i] != 0x3a && text[i] != 0x3b;
  }

  lemma RepeatReads(params: Text)
    requires Params(params)
    ensures
      var raw := CsiText(params, 0x62);
      var item := Seq(CsiKind, [], params, [], [0x62], [], raw);
      ReadsAlone(raw, item) && IsRepeat(item) && EndState(raw) == Ground
  {
    CsiReads(params, 0x62);
  }

  lemma StepRepeat(size: Size, sem: Sem, item: Item)
    requires IsRepeat(item) && item.controls == []
    ensures Mean(size, true, sem, [item]) ==
            Sem(sem.effects + Repeated(sem.last, CountOf(item.params)), Nothing,
                if FirstParam(item.params).1 != [] then Some(sem.last) else None)
  {
    MeanOne(size, true, sem, item);
  }

  lemma ShortRepeat(size: Size, count: nat, verbatim: Option<Text>, sem: Sem)
    requires 0 < count <= size.rule.settled && (verbatim.Some? ==> ReadsAsRepeat(verbatim.value, count))
    ensures
      var text := RepeatText(size, count, verbatim);
      && Whole(text) && EndState(text) == Ground
      && Mean(size, true, sem, Items(text)) == Sem(sem.effects + Repeated(sem.last, count), Nothing, None)
  {
    var text := RepeatText(size, count, verbatim);
    if verbatim.Some? {
      assert text == verbatim.value;
      var item := RepeatItem(text, count);
      StepRepeat(size, sem, item);
    } else {
      assert text == CsiText(Printed(count), 0x62);
      DigitsAreParams(Printed(count));
      RepeatReads(Printed(count));
      FirstParamReads(count, []);
      AppendNothing(Printed(count));
      var item := Seq(CsiKind, [], Printed(count), [], [0x62], [], text);
      assert CountOf(item.params) == count;
      assert Items(text) == [item] && Whole(text);
      StepRepeat(size, sem, item);
    }
  }

  lemma RepeatItem(raw: Text, count: nat) returns (item: Item)
    requires ReadsAsRepeat(raw, count)
    ensures Items(raw) == [item] && Whole(raw) && EndState(raw) == Ground
    ensures IsRepeat(item) && item.controls == [] && CountOf(item.params) == count && FirstParam(item.params).1 == []
  {
    item :| ReadsAlone(raw, item) && IsRepeat(item) && item.controls == [] && CountOf(item.params) == count
      && FirstParam(item.params).1 == [];
  }

  lemma HookReads(periods: nat)
    ensures
      var raw := HookText(periods);
      var item := Seq(StringKind, [], [], [], [], [], raw);
      Items(raw) == [item] && Whole(raw) && EndState(raw) == Ground && HookPeriods(item) == Some(periods)
  {
    var body, raw := HOOK + Printed(periods), HookText(periods);
    assert forall i :: 0 <= i < |Printed(periods)| ==> DigitUnit(Printed(periods)[i]);
    OscReads(body);
    assert raw[..7] == [0x1b, 0x5d] + HOOK;
    assert raw[7..|raw| - 1] == Printed(periods);
    PrintedReadsBack(periods);
  }

  lemma LongRepeat(size: Size, count: nat, verbatim: Option<Text>, sem: Sem)
    requires count > size.rule.settled
    ensures
      var text := RepeatText(size, count, verbatim);
      && Whole(text) && EndState(text) == Ground
      && Mean(size, true, sem, Items(text)) == Sem(sem.effects + Repeated(sem.last, count), Nothing, None)
  {
    hide CsiText, EndState, HookText, Items, Mean, Whole;
    var kept, periods := RepeatScreen.Kept(size.rule, count), RepeatScreen.Omitted(size.rule, count);
    RepeatScreen.KeptBounds(size.rule, count);
    var params := Printed(kept) + [0x3b, 0x31];
    var short, hook := CsiText(params, 0x62), HookText(periods);
    assert RepeatText(size, count, verbatim) == short + hook;
    ShortenedParams(kept);
    RepeatReads(params);
    HookReads(periods);
    var first, second := Seq(CsiKind, [], params, [], [0x62], [], short), Seq(StringKind, [], [], [], [], [], hook);
    assert Items(short) == [first] && Whole(short);
    AppendClosed(short, hook);
    assert Items(short + hook) == [first] + [second] && Whole(short + hook) && EndState(short + hook) == Ground;
    MeanJoins(size, true, sem, [first], [second]);
    StepRepeat(size, sem, first);
    StepHook(size, Mean(size, true, sem, [first]), second, periods);
    RepeatedJoins(sem.last, kept, periods * size.rule.period);
    var a, b, c := sem.effects, Repeated(sem.last, kept), Repeated(sem.last, periods * size.rule.period);
    assert a + b + c == a + (b + c);
  }

  lemma ShortenedParams(kept: nat)
    requires 0 < kept <= MAX_PARAM
    ensures
      var params := Printed(kept) + [0x3b, 0x31];
      Params(params) && CountOf(params) == kept && FirstParam(params).1 == [0x3b, 0x31]
  {
    FirstParamReads(kept, [0x3b, 0x31]);
    assert forall i :: 0 <= i < |Printed(kept)| ==> DigitUnit(Printed(kept)[i]);
  }

  lemma StepHook(size: Size, sem: Sem, item: Item, periods: nat)
    requires sem.shortened.Some? && HookPeriods(item) == Some(periods)
    ensures Mean(size, true, sem, [item])
         == Sem(sem.effects + Repeated(sem.shortened.value, periods * size.rule.period), Nothing, None)
  {
    MeanOne(size, true, sem, item);
  }

  /** However it is written, a repeat does what its count says. */
  lemma RepeatMeans(size: Size, count: nat, verbatim: Option<Text>, sem: Sem)
    requires 0 < count && (verbatim.Some? ==> ReadsAsRepeat(verbatim.value, count))
    ensures
      var text := RepeatText(size, count, verbatim);
      && Whole(text) && EndState(text) == Ground
      && Mean(size, true, sem, Items(text)) == Sem(sem.effects + Repeated(sem.last, count), Nothing, None)
  {
    hide *;
    if count <= size.rule.settled {
      ShortRepeat(size, count, verbatim, sem);
    } else {
      LongRepeat(size, count, verbatim, sem);
    }
  }

  // ----- what the draft and the output have in common -----

  ghost predicate HeldRel(held: Held, sem: Sem, now: Sem) {
    && 0x20 <= held.unit <= 0x7e && held.count > 0 && sem.last == Drawn(held.unit) && now.last == Nothing
    && now.effects == sem.effects + Times(Print(held.unit), held.count)
    && (held.verbatim.Some? ==> ReadsAsRepeat(held.verbatim.value, held.count))
  }

  /** The text written, with the repeat held back, does what the output did. A
      repeat may find less to repeat in the output, but only right after a
      control sequence, where repeats are left out. */
  ghost predicate NowRel(size: Size, d: Draft, now: Sem) {
    var sem := Meaning(size, d.text);
    && Whole(d.text) && sem.shortened == None
    && (d.previous == Some(CsiKind) ==> now.last == Nothing)
    && (if d.held.Some? then
          d.previous == Some(CsiKind) && EndState(d.text) == Ground && HeldRel(d.held.value, sem, now)
        else now.effects == sem.effects && (d.previous == Some(CsiKind) || now.last == sem.last))
  }

  ghost predicate DoneRel(size: Size, done: seq<Text>, told: seq<seq<Effect>>) {
    |done| == |told| && forall j :: 0 <= j < |done| ==> Meaning(size, done[j]).effects == told[j]
  }

  /** What the items before the last one repeat on is nothing. */
  ghost predicate Unshortened(size: Size, text: Text) {
    Items(text) != [] && Mean(size, true, FRESH, Items(text)[..|Items(text)| - 1]).shortened == None
  }

  /** The text ends in the unfinished sequence `u`, where no hook is due. */
  ghost predicate Opened(size: Size, text: Text, x: Text, u: Text, token: Token) {
    && Opens(text, x, u, EndState(text), token)
    && Meaning(size, x).shortened == None && (EndState(x) != Ground ==> Unshortened(size, x))
  }

  ghost predicate OpenText(size: Size, text: Text) {
    EndState(text) != Ground ==> exists x, u, token :: Opened(size, text, x, u, token)
  }

  /** Where the text is left unfinished, no repeat is held back. */
  ghost predicate OpenRel(size: Size, d: Draft) {
    (EndState(d.text) != Ground ==> d.held.None?) && OpenText(size, d.text)
  }

  ghost predicate Rel(size: Size, d: Draft, story: Story) {
    DoneRel(size, d.done, story.done) && NowRel(size, d, story.now) && OpenRel(size, d)
  }

  // ----- text that is left unfinished -----

  lemma StepUnfinished(size: Size, sem: Sem, u: Text, state: State, token: Token)
    requires !InString(state)
    ensures Step(size, true, sem, OpenItem(u, state, token))
      == Sem(sem.effects + Controls(token.controls), Unknown, None)
  {
    hide Controls, Number, AllDigits, FirstParam;
  }

  lemma MeaningOpened(size: Size, text: Text, x: Text, u: Text, token: Token)
    requires Opened(size, text, x, u, token)
    ensures Meaning(size, text) == Step(size, true, Meaning(size, x), OpenItem(u, EndState(text), token))
    ensures Items(text) == Items(x) + [OpenItem(u, EndState(text), token)] && Whole(text) && Unshortened(size, text)
  {
    OpensReads(text, x, u, EndState(text), token);
    hide Items, EndState, Whole, Step;
    MeanJoins(size, true, FRESH, Items(x), [OpenItem(u, EndState(text), token)]);
    MeanOne(size, true, Meaning(size, x), OpenItem(u, EndState(text), token));
    assert Items(text)[..|Items(text)| - 1] == Items(x);
  }

  lemma EffectsSum(effects: seq<Effect>, a: Text, b: Text)
    ensures effects + Controls(a + b) == effects + Controls(a) + Controls(b)
  {
  }

  /** Controls after an unfinished sequence do what they would on their own. */
  lemma QuietKeeps(size: Size, text: Text, controls: Text)
    requires EndState(text) != Ground && !InString(EndState(text)) && OpenText(size, text) && AllExecuted(controls)
    ensures Whole(text + controls) && EndState(text + controls) == EndState(text) && OpenText(size, text + controls)
    ensures Meaning(size, text + controls).effects == Meaning(size, text).effects + Controls(controls)
    ensures Meaning(size, text + controls).shortened == None
  {
    hide Items, EndState, Whole, Step, Mean, Controls, Opens;
    var x, u, token :| Opened(size, text, x, u, token);
    var state, token' := EndState(text), token.(controls := token.controls + controls);
    MeaningOpened(size, text, x, u, token);
    QuietOpens(text, x, u, state, token, controls);
    OpensReads(text + controls, x, u + controls, state, token');
    assert Opened(size, text + controls, x, u + controls, token');
    MeaningOpened(size, text + controls, x, u + controls, token');
    StepUnfinished(size, Meaning(size, x), u, state, token);
    StepUnfinished(size, Meaning(size, x), u + controls, state, token');
    EffectsSum(Meaning(size, x).effects, token.controls, controls);
  }

  /** An unfinished sequence that is copied leaves the text unfinished. */
  lemma CopyOpens(size: Size, text: Text, item: Item)
    requires Whole(text) && OpenText(size, text) && Meaning(size, text).shortened == None && item.Seq?
    requires ReadsAlone(item.raw, item) && (EndState(text) != Ground ==> StartsAnew(item.raw, EndState(text)))
    requires EndState(text + item.raw) == EndState(item.raw)
    ensures OpenText(size, text + item.raw)
  {
    hide Items, Whole, Meaning, StartsAnew, ReadsAlone, Inside;
    if EndState(item.raw) != Ground {
      var state, token := AloneOpens(item.raw, item);
      if EndState(text) != Ground {
        var x, u, before :| Opened(size, text, x, u, before);
        MeaningOpened(size, text, x, u, before);
      }
      assert Opened(size, text + item.raw, text, item.raw, token);
    }
  }

  /** Releasing the repeat held back keeps the meaning. */
  lemma ReleaseKeeps(size: Size, d: Draft, now: Sem)
    requires NowRel(size, d, now)
    ensures NowRel(size, Release(size, d), now) && Release(size, d).held.None?
    ensures d.held.Some? ==>
      EndState(Release(size, d).text) == Ground && now.last == Meaning(size, Release(size, d).text).last
    ensures Release(size, d).previous == d.previous && Release(size, d).done == d.done
      && Release(size, d).from == d.from
  {
    if d.held.Some? {
      var held, sem := d.held.value, Meaning(size, d.text);
      assert HeldRel(held, sem, now);
      assert held.count > 0 && (held.verbatim.Some? ==> ReadsAsRepeat(held.verbatim.value, held.count));
      RepeatMeans(size, held.count, held.verbatim, sem);
      Append(size, d.text, RepeatText(size, held.count, held.verbatim));
    }
  }

  /** What is known once the text before a sequence is written. */
  ghost predicate GapRel(size: Size, d: Draft, text: Text, gap: Text, now: Sem) {
    var sem := Meaning(size, text);
    && Whole(text) && OpenText(size, text) && sem.shortened == None && now.effects == sem.effects
    && (gap == [] ==> if d.previous == Some(CsiKind) then now.last == Nothing else now.last == sem.last)
    && (gap != [] ==> now.last == LastOf(gap[|gap| - 1]))
    && (gap != [] ==> if EndState(text) == Ground then now.last == sem.last else AllExecuted(gap))
  }

  lemma GapKeeps(size: Size, d: Draft, gap: Text, now: Sem)
    requires NowRel(size, d, now) && d.held.None? && Plain(gap) && OpenText(size, d.text)
      && Quiet(EndState(d.text), gap)
    ensures GapRel(size, d, d.text + gap, gap, Mean(size, false, now, Chars(gap)))
    ensures EndState(d.text + gap) == (if gap == [] || EndState(d.text) != Ground then EndState(d.text) else Ground)
    ensures gap == [] ==> d.text + gap == d.text && Mean(size, false, now, Chars(gap)) == now
  {
    var sem := Meaning(size, d.text);
    MeanChars(size, false, now, gap);
    if gap == [] {
      AppendNothing(d.text);
    } else if EndState(d.text) == Ground {
      PlainReads(gap);
      Append(size, d.text, gap);
      MeanChars(size, true, sem, gap);
    } else {
      hide Meaning, Mean, OpenText, Whole, EndState, Items;
      QuietKeeps(size, d.text, gap);
      ExecutedEffects(gap);
    }
  }

  lemma ExecutedEffects(gap: Text)
    requires AllExecuted(gap)
    ensures CharEffects(gap) == Controls(gap) && (gap != [] ==> LastOf(gap[|gap| - 1]) == Nothing)
  {
  }

  /** Controls on their own do what they did inside their sequence. */
  lemma ControlsKeep(size: Size, text: Text, controls: Text)
    requires Whole(text) && OpenText(size, text) && Quiet(EndState(text), controls) && AllExecuted(controls)
    ensures Whole(text + controls) && EndState(text + controls) == EndState(text) && OpenText(size, text + controls)
    ensures Meaning(size, text + controls).effects == Meaning(size, text).effects + Controls(controls)
    ensures Meaning(size, text).shortened == None ==> Meaning(size, text + controls).shortened == None
  {
    if controls == [] {
      AppendNothing(text);
      assert Controls([]) == [];
    } else if EndState(text) == Ground {
      assert Plain(controls);
      hide Items, Whole, EndState, Meaning, Mean;
      PlainReads(controls);
      Append(size, text, controls);
      MeanChars(size, true, Meaning(size, text), controls);
      ExecutedEffects(controls);
    } else {
      hide Meaning, Mean, OpenText, Whole, EndState, Items;
      QuietKeeps(size, text, controls);
    }
  }

  // ----- one sequence -----

  /** What is known of the next sequence and the text before it. */
  ghost predicate Ready(size: Size, buffer: Text, d: Draft, token: Token) {
    var gap, item, state := Raw(buffer, d.from, token.start), ItemOf(buffer, token), EndState(Release(size, d).text);
    && Plain(gap) && ReadsAlone(item.raw, item) && Shaped(token) && Starter(item.raw[0])
    && Quiet(state, gap) && GoesOn(size, state, item)
    && (EndState(item.raw) != Ground ==> token.kind != CsiKind)
  }

  /** The output's own effects up to and with this sequence, but for a reset. */
  function After(size: Size, now: Sem, gap: Text, item: Item): Sem {
    Step(size, false, Mean(size, false, now, Chars(gap)), item)
  }

  lemma RepeatDoes(size: Size, now: Sem, gap: Text, item: Item)
    requires IsRepeat(item)
    ensures After(size, now, gap, item) == DoRepeat(Mean(size, false, now, Chars(gap)), item)
  {}

  /** A repeat of the same character joins the one held back. */
  lemma JoinKeeps(size: Size, d: Draft, now: Sem, gap: Text, item: Item)
    requires NowRel(size, d, now) && d.held.Some? && item.Seq? && IsRepeat(item) && item.controls == []
    requires gap != [] && AllOf(gap, d.held.value.unit)
    ensures
      var count := d.held.value.count + |gap| + CountOf(item.params);
      NowRel(size, d.(held := Some(d.held.value.(count := count, verbatim := None))), After(size, now, gap, item))
  {
    hide Chars, IsRepeat, Mean, Meaning, Times;
    var held, sem, count := d.held.value, Meaning(size, d.text), CountOf(item.params);
    RepeatDoes(size, now, gap, item);
    MeanChars(size, false, now, gap);
    var middle := Mean(size, false, now, Chars(gap));
    assert 0x20 <= held.unit <= 0x7e && now.effects == sem.effects + Times(Print(held.unit), held.count);
    SameChars(gap, held.unit);
    assert middle.effects == now.effects + Times(Print(held.unit), |gap|) && middle.last == Drawn(held.unit);
    assert After(size, now, gap, item).effects == middle.effects + Times(Print(held.unit), count)
        && After(size, now, gap, item).last == Nothing;
    assert Times(Print(held.unit), held.count) + Times(Print(held.unit), |gap|) + Times(Print(held.unit), count)
        == Times(Print(held.unit), held.count + |gap| + count);
    var a, b, c := Times(Print(held.unit), held.count), Times(Print(held.unit), |gap|), Times(Print(held.unit), count);
    assert sem.effects + a + b + c == sem.effects + (a + b + c);
    assert CountOf(item.params) > 0;
  }

  lemma SameChars(gap: Text, unit: Unit)
    requires gap != [] && AllOf(gap, unit) && 0x20 <= unit <= 0x7e
    ensures CharEffects(gap) == Times(Print(unit), |gap|) && LastOf(gap[|gap| - 1]) == Drawn(unit)
  {}

  /** A repeat with nothing to repeat is left out. */
  lemma VoidKeeps(size: Size, d: Draft, text: Text, gap: Text, now: Sem, item: Item)
    requires GapRel(size, d, text, gap, Mean(size, false, now, Chars(gap))) && item.Seq? && IsRepeat(item)
    requires AllExecuted(item.controls) && Quiet(EndState(text), item.controls)
    requires item.controls != [] || (gap == [] && d.previous == Some(CsiKind))
      || (gap != [] && Executed(gap[|gap| - 1]))
    ensures NowRel(size, d.(text := text + item.controls, held := None, previous := Some(CsiKind)),
      After(size, now, gap, item))
    ensures OpenText(size, text + item.controls)
  {
    hide OpenText, Quiet;
    var middle, after := Mean(size, false, now, Chars(gap)), After(size, now, gap, item);
    assert Whole(text) && Meaning(size, text).shortened == None && middle.effects == Meaning(size, text).effects;
    ControlsKeep(size, text, item.controls);
    RepeatDoes(size, now, gap, item);
    if item.controls == [] {
      assert middle.last == Nothing;
      assert after.effects == middle.effects + [];
      AppendNothing(text);
    } else {
      assert after.effects == middle.effects + Controls(item.controls);
    }
    assert after.last == Nothing;
  }

  /** Text that ends in a character to repeat leaves nothing unfinished. */
  lemma DrawnIsClosed(size: Size, d: Draft, text: Text, gap: Text, now: Sem)
    requires GapRel(size, d, text, gap, now) && gap != [] && !Executed(gap[|gap| - 1])
    ensures EndState(text) == Ground && now.last == Meaning(size, text).last
  {
    hide EndState, Meaning, Whole, OpenText;
  }

  /** A repeat of an ASCII character is held back. */
  lemma HoldKeeps(size: Size, d: Draft, text: Text, gap: Text, now: Sem, item: Item, verbatim: Option<Text>)
    requires GapRel(size, d, text, gap, Mean(size, false, now, Chars(gap))) && item.Seq? && IsRepeat(item)
      && item.controls == []
    requires gap != [] && 0x20 <= gap[|gap| - 1] <= 0x7e
    requires verbatim.Some? ==> ReadsAsRepeat(verbatim.value, CountOf(item.params))
    ensures
      var held := Some(Held(gap[|gap| - 1], CountOf(item.params), verbatim));
      NowRel(size, d.(text := text, held := held, previous := Some(CsiKind)), After(size, now, gap, item))
  {
    hide After, Chars, IsRepeat, Mean, ReadsAsRepeat, OpenText, EndState, Whole, Meaning;
    var middle := Mean(size, false, now, Chars(gap));
    RepeatDoes(size, now, gap, item);
    DrawnIsClosed(size, d, text, gap, middle);
    assert middle.last == Drawn(gap[|gap| - 1]);
    assert CountOf(item.params) > 0;
  }

  /** Any other repeat is written at once. */
  lemma EmitKeeps(size: Size, d: Draft, text: Text, gap: Text, now: Sem, item: Item, verbatim: Option<Text>)
    requires GapRel(size, d, text, gap, Mean(size, false, now, Chars(gap))) && item.Seq? && IsRepeat(item)
      && item.controls == []
    requires if gap == [] then d.previous != Some(CsiKind) else !Executed(gap[|gap| - 1])
    requires verbatim.Some? ==> ReadsAsRepeat(verbatim.value, CountOf(item.params))
    requires verbatim.Some? && EndState(text) != Ground ==> StartsAnew(verbatim.value, EndState(text))
    ensures
      var written := RepeatText(size, CountOf(item.params), verbatim);
      && NowRel(size, d.(text := text + written, held := None, previous := Some(CsiKind)), After(size, now, gap, item))
      && EndState(text + written) == Ground
  {
    var middle, count := Mean(size, false, now, Chars(gap)), CountOf(item.params);
    var sem, written := Meaning(size, text), RepeatText(size, count, verbatim);
    RepeatDoes(size, now, gap, item);
    if gap != [] {
      DrawnIsClosed(size, d, text, gap, middle);
    }
    assert middle.last == sem.last && middle.effects == sem.effects && Whole(text);
    assert count > 0;
    RepeatMeans(size, count, verbatim, sem);
    if EndState(text) != Ground {
      WrittenStarts(size, count, verbatim, EndState(text));
    }
    Append(size, text, written);
  }

  lemma WrittenStarts(size: Size, count: nat, verbatim: Option<Text>, state: State)
    requires verbatim.Some? ==> StartsAnew(verbatim.value, state)
    ensures StartsAnew(RepeatText(size, count, verbatim), state)
  {}

  /** A copied repeat has digits for parameters. */
  lemma CopiedRepeat(item: Item)
    requires IsRepeat(item) && ReadsAlone(item.raw, item) && item.controls == [] && AllDigits(item.params)
      && EndState(item.raw) == Ground
    ensures ReadsAsRepeat(item.raw, CountOf(item.params))
  {
    DigitsAreParams(item.params);
  }

  /** A repeat that has something to repeat is held back or written. */
  lemma RepeatWritten(size: Size, d: Draft, r: Draft, token: Token, gap: Text, now: Sem, item: Item)
    requires r == Release(size, d) && r.previous == d.previous && r.held.None? && item.Seq? && IsRepeat(item)
    requires GapRel(size, r, r.text + gap, gap, Mean(size, false, now, Chars(gap)))
    requires !Joins(d, token, gap) && !Void(d, token, gap) && token.controls == item.controls
      && token.params == item.params
    requires ReadsAlone(item.raw, item) && EndState(item.raw) == Ground
    requires EndState(r.text + gap) != Ground ==> StartsAnew(item.raw, EndState(r.text + gap))
    ensures
      var after := VisitRepeat(size, d, token, gap, item.raw);
      && NowRel(size, after.(previous := Some(CsiKind)), After(size, now, gap, item))
      && EndState(after.text) == Ground && after.done == r.done
  {
    var text, count, last := r.text + gap, CountOf(item.params), GapEnd(gap);
    var verbatim := if AllDigits(token.params) then Some(item.raw) else None;
    var after := VisitRepeat(size, d, token, gap, item.raw);
    assert item.controls == [] && (gap == [] ==> r.previous != Some(CsiKind))
      && (gap != [] ==> !Executed(gap[|gap| - 1]));
    assert last == if gap == [] then None else Some(gap[|gap| - 1]);
    if AllDigits(token.params) {
      CopiedRepeat(item);
    }
    if last.Some? && 0x20 <= last.value <= 0x7e {
      assert after == r.(text := text, held := Some(Held(last.value, count, verbatim)));
      DrawnIsClosed(size, r, text, gap, Mean(size, false, now, Chars(gap)));
      HoldKeeps(size, r, text, gap, now, item, verbatim);
    } else {
      assert after == r.(text := text + RepeatText(size, count, verbatim));
      EmitKeeps(size, r, text, gap, now, item, verbatim);
    }
  }

  /** Every kind of repeat keeps the meaning. */
  lemma VisitRepeatKeeps(size: Size, buffer: Text, d: Draft, now: Sem, token: Token)
    requires NowRel(size, d, now) && OpenRel(size, d) && Ready(size, buffer, d, token)
      && IsRepeat(ItemOf(buffer, token))
    ensures
      var gap, item := Raw(buffer, d.from, token.start), ItemOf(buffer, token);
      var after := Visit(size, buffer, d, token);
      NowRel(size, after, After(size, now, gap, item)) && OpenRel(size, after) && after.done == d.done
  {
    hide CountOf, EndState, HeldRel, Mean, Meaning, ReadsAlone, RepeatText, Whole, AllDigits, Chars, OpenText, Quiet;
    var gap, item := Raw(buffer, d.from, token.start), ItemOf(buffer, token);
    assert item.Seq? && token.kind == CsiKind && token.controls == item.controls && token.params == item.params;
    var after := Visit(size, buffer, d, token);
    assert after == VisitRepeat(size, d, token, gap, item.raw).(previous := Some(CsiKind), from := token.end);
    SeqReady(size, buffer, d, token);
    var r := Release(size, d);
    if Joins(d, token, gap) {
      JoinKeeps(size, d, now, gap, item);
      var joined := d.held.value.(count := d.held.value.count + |gap| + CountOf(item.params), verbatim := None);
      assert after == d.(held := Some(joined), previous := Some(CsiKind), from := token.end);
      NowRelMoves(size, d.(held := after.held), after, After(size, now, gap, item));
    } else {
      ReleaseKeeps(size, d, now);
      ReleaseOpens(size, d, now);
      var text := r.text + gap;
      GapKeeps(size, r, gap, now);
      if Void(d, token, gap) {
        assert item.controls != [] || (gap == [] && r.previous == Some(CsiKind))
          || (gap != [] && Executed(gap[|gap| - 1]));
        QuietThen(EndState(r.text), EndState(text), item.controls);
        VoidKeeps(size, r, text, gap, now, item);
        assert after == r.(text := text + item.controls, previous := Some(CsiKind), from := token.end);
        NowRelMoves(size, r.(text := after.text, held := None, previous := Some(CsiKind)), after,
          After(size, now, gap, item));
      } else {
        RepeatWritten(size, d, r, token, gap, now, item);
        var plain := VisitRepeat(size, d, token, gap, item.raw);
        NowRelMoves(size, plain.(previous := Some(CsiKind)), after, After(size, now, gap, item));
        ClosedOpens(size, after.text);
      }
    }
  }

  lemma ClosedOpens(size: Size, text: Text)
    requires EndState(text) == Ground
    ensures OpenText(size, text)
  {
  }

  lemma ReleaseOpens(size: Size, d: Draft, now: Sem)
    requires NowRel(size, d, now) && OpenRel(size, d)
    ensures OpenText(size, Release(size, d).text)
  {
    hide EndState, Whole, Meaning, HeldRel, RepeatText, Opened;
    if d.held.Some? {
      ReleaseKeeps(size, d, now);
    }
  }

  /** The meaning does not depend on where the last sequence ended. */
  lemma NowRelMoves(size: Size, d: Draft, after: Draft, now: Sem)
    requires NowRel(size, d, now) && after == d.(done := after.done, from := after.from)
    ensures NowRel(size, after, now)
  {}

  /** What a sequence's readiness says about what is written for it. */
  lemma SeqReady(size: Size, buffer: Text, d: Draft, token: Token)
    requires Ready(size, buffer, d, token)
    ensures
      var gap, item, state := Raw(buffer, d.from, token.start), ItemOf(buffer, token), EndState(Release(size, d).text);
      && item.Seq? && item.kind == token.kind && Plain(gap) && ReadsAlone(item.raw, item) && Params(item.params)
      && AllExecuted(item.controls) && (item.kind == CsiKind ==> |item.final| == 1 && 0x40 <= item.final[0] <= 0x7e)
      && Quiet(state, gap) && (Bare(size, item) ==> Quiet(state, item.controls))
      && (!Bare(size, item) && state != Ground ==> StartsAnew(item.raw, state))
      && (IsRepeat(item) ==> EndState(item.raw) == Ground && (Bare(size, item) <==> item.controls != []))
      && (EndState(item.raw) != Ground ==> token.kind != CsiKind)
  {
    hide EndState, Items, Whole, Plain, IsErase, Excessive;
    var item := ItemOf(buffer, token);
    RepeatBare(size, item);
  }

  lemma RepeatBare(size: Size, item: Item)
    requires item.Seq?
    ensures IsRepeat(item) ==> (Bare(size, item) <==> item.controls != [])
    ensures IsRepeat(item) ==> item.kind == CsiKind
  {
  }

  /** Any other sequence does the same whether or not hooks are read. */
  lemma StepSame(size: Size, sem: Sem, now: Sem, item: Item)
    requires item.Seq? && !IsRepeat(item) && sem.effects == now.effects && sem.shortened == None
    ensures Step(size, true, sem, item) == Step(size, false, now, item)
    ensures Step(size, true, sem, item).shortened == None
    ensures item.kind == CsiKind ==> Step(size, true, sem, item).last == Nothing
  {
    hide IsErase, IsCounted, HookPeriods, Limit, CountOf, FirstParam, Controls;
  }

  lemma CopyKeeps(size: Size, d: Draft, text: Text, gap: Text, now: Sem, item: Item)
    requires GapRel(size, d, text, gap, Mean(size, false, now, Chars(gap))) && item.Seq? && !IsRepeat(item)
    requires ReadsAlone(item.raw, item) && (EndState(text) != Ground ==> StartsAnew(item.raw, EndState(text)))
    ensures NowRel(size, d.(text := text + item.raw, held := None, previous := Some(item.kind)),
      After(size, now, gap, item))
    ensures OpenText(size, text + item.raw)
  {
    hide OpenText;
    var middle, sem := Mean(size, false, now, Chars(gap)), Meaning(size, text);
    assert Whole(text) && sem.shortened == None && middle.effects == sem.effects;
    assert Items(item.raw) == [item] && Whole(item.raw);
    Append(size, text, item.raw);
    MeanOne(size, true, sem, item);
    StepSame(size, sem, middle, item);
    CopyOpens(size, text, item);
  }

  lemma EraseKeeps(size: Size, d: Draft, text: Text, gap: Text, now: Sem, item: Item)
    requires GapRel(size, d, text, gap, Mean(size, false, now, Chars(gap))) && IsErase(item) && item.Seq?
    requires AllExecuted(item.controls) && Quiet(EndState(text), item.controls)
    ensures NowRel(size, d.(text := text + item.controls, held := None, previous := Some(CsiKind)),
      After(size, now, gap, item))
    ensures OpenText(size, text + item.controls)
  {
    hide OpenText, Quiet;
    EraseDoes(size, Mean(size, false, now, Chars(gap)), item);
    ControlsKeep(size, text, item.controls);
  }

  lemma EraseDoes(size: Size, now: Sem, item: Item)
    requires IsErase(item)
    ensures Step(size, false, now, item) == Sem(now.effects + Controls(item.controls), Nothing, None)
  {
    hide Controls, FirstParam;
  }

  lemma ExcessDoes(size: Size, now: Sem, item: Item)
    requires Excessive(size, item)
    ensures Step(size, false, now, item) ==
            Sem(now.effects + Controls(item.controls)
              + [Count(item.final, Limit(size, item.final), FirstParam(item.params).1)],
                Nothing, None)
    ensures Step(size, true, now.(shortened := None), item) == Step(size, false, now, item)
  {
    hide Controls, FirstParam, HookPeriods;
  }

  /** The sequence with its count cut reads as the same, with that count. */
  lemma CutReads(size: Size, item: Item)
    requires Excessive(size, item) && Params(item.params) && |item.final| == 1 && 0x40 <= item.final[0] <= 0x7e
    ensures
      var raw := CutCount(size, item);
      var params := Printed(Limit(size, item.final)) + FirstParam(item.params).1;
      var cut := Seq(CsiKind, [], params, [], item.final, [], raw);
      && ReadsAlone(raw, cut) && EndState(raw) == Ground && IsCounted(cut)
      && CountOf(cut.params) == Limit(size, item.final) && FirstParam(cut.params).1 == FirstParam(item.params).1
  {
    hide Items, Whole, EndState, Printed, Go;
    var limit, rest := Limit(size, item.final), FirstParam(item.params).1;
    assert forall i :: 0 <= i < |rest| ==> rest[i] == item.params[ParamEnd(item.params) + i];
    assert forall i :: 0 <= i < |Printed(limit)| ==> DigitUnit(Printed(limit)[i]);
    FirstParamReads(limit, rest);
    assert Params(Printed(limit) + rest) by {
      hide FirstParam;
    }
    CsiReads(Printed(limit) + rest, item.final[0]);
    assert item.final == [item.final[0]];
  }

  lemma CutDoes(size: Size, sem: Sem, item: Item, cut: Item)
    requires Excessive(size, item) && IsCounted(cut) && cut.controls == [] && cut.final == item.final
      && sem.shortened == None
    requires CountOf(cut.params) == Limit(size, item.final) && FirstParam(cut.params).1 == FirstParam(item.params).1
    ensures Step(size, true, sem, cut) ==
            Sem(sem.effects + [Count(item.final, Limit(size, item.final), FirstParam(item.params).1)], Nothing, None)
  {
    assert Controls([]) == [];
    hide Controls, FirstParam, HookPeriods;
    assert sem.effects + [] == sem.effects;
  }

  /** A count past the screen is cut with the same result. */
  lemma CutKeeps(size: Size, d: Draft, text: Text, gap: Text, now: Sem, item: Item)
    requires GapRel(size, d, text, gap, Mean(size, false, now, Chars(gap))) && item.Seq? && Excessive(size, item)
    requires Params(item.params) && |item.final| == 1 && 0x40 <= item.final[0] <= 0x7e
    requires AllExecuted(item.controls) && Quiet(EndState(text), item.controls)
    ensures
      var written := text + item.controls + CutCount(size, item);
      NowRel(size, d.(text := written, held := None, previous := Some(CsiKind)), After(size, now, gap, item))
    ensures EndState(text + item.controls + CutCount(size, item)) == Ground
  {
    hide OpenText, Quiet;
    var middle, raw := Mean(size, false, now, Chars(gap)), CutCount(size, item);
    var cut := Seq(CsiKind, [], Printed(Limit(size, item.final)) + FirstParam(item.params).1, [], item.final, [], raw);
    assert Whole(text) && Meaning(size, text).shortened == None && middle.effects == Meaning(size, text).effects;
    ControlsKeep(size, text, item.controls);
    CutReads(size, item);
    assert Items(raw) == [cut] && Whole(raw);
    CutStarts(size, item, EndState(text));
    Append(size, text + item.controls, raw);
    var sem := Meaning(size, text + item.controls);
    MeanOne(size, true, sem, cut);
    CutDoes(size, sem, item, cut);
    ExcessDoes(size, middle, item);
  }

  lemma CutStarts(size: Size, item: Item, state: State)
    requires item.Seq?
    ensures StartsAnew(CutCount(size, item), state)
  {}

  lemma ResetKeeps(size: Size, d: Draft, story: Story, text: Text, gap: Text, item: Item)
    requires GapRel(size, d, text, gap, Mean(size, false, story.now, Chars(gap))) && IsReset(item)
      && DoneRel(size, d.done, story.done)
    requires item.Seq? && AllExecuted(item.controls) && Quiet(EndState(text), item.controls)
    ensures
      var after := TellNext(size, story.(now := Mean(size, false, story.now, Chars(gap))), item);
      && DoneRel(size, d.done + [text + item.controls], after.done)
      && NowRel(size, d.(done := d.done + [text + item.controls], text := [], held := None, previous := Some(EscKind)),
         after.now)
  {
    hide OpenText, Quiet;
    FreshText(size);
    ControlsKeep(size, text, item.controls);
  }

  lemma FreshText(size: Size)
    ensures Whole([]) && EndState([]) == Ground && Meaning(size, []) == FRESH == Sem([], Nothing, None)
  {
    GoEnd([], BEGIN);
  }

  lemma OtherKinds(size: Size, item: Item)
    requires item.Seq?
    ensures IsErase(item) || Excessive(size, item) || IsRepeat(item) ==> item.kind == CsiKind
    ensures IsReset(item) ==> item.kind == EscKind && !IsRepeat(item)
    ensures !Bare(size, item) ==> !IsErase(item) && (IsReset(item) || Excessive(size, item) ==> item.controls == [])
  {}

  /** Every other sequence keeps the meaning. */
  lemma VisitOtherKeeps(size: Size, buffer: Text, d: Draft, story: Story, token: Token)
    requires Rel(size, d, story) && Ready(size, buffer, d, token) && !IsRepeat(ItemOf(buffer, token))
    ensures
      var gap, item := Raw(buffer, d.from, token.start), ItemOf(buffer, token);
      Rel(size, Visit(size, buffer, d, token),
        TellNext(size, story.(now := Mean(size, false, story.now, Chars(gap))), item))
  {
    hide Chars, CutCount, DoneRel, EndState, Excessive, IsErase, Mean, NowRel, Raw, OpenText, Quiet;
    var gap, item, now := Raw(buffer, d.from, token.start), ItemOf(buffer, token), story.now;
    SeqReady(size, buffer, d, token);
    OtherKinds(size, item);
    ReleaseKeeps(size, d, now);
    ReleaseOpens(size, d, now);
    var r := Release(size, d);
    GapKeeps(size, r, gap, now);
    var text := r.text + gap;
    QuietThen(EndState(r.text), EndState(text), item.controls);
    var middle := story.(now := Mean(size, false, now, Chars(gap)));
    var after, told := Visit(size, buffer, d, token), TellNext(size, middle, item);
    var plain := VisitOther(size, d, item, gap);
    assert after == plain.(previous := Some(item.kind), from := token.end);
    if IsReset(item) {
      ResetKeeps(size, r, story, text, gap, item);
      assert plain == r.(done := r.done + [text + item.controls], text := []);
      NowRelMoves(size, r.(done := after.done, text := [], held := None, previous := Some(EscKind)), after, told.now);
      FreshText(size);
      ClosedOpens(size, []);
    } else {
      assert told == story.(now := After(size, now, gap, item));
      if IsErase(item) {
        EraseKeeps(size, r, text, gap, now, item);
        assert plain == r.(text := text + item.controls);
      } else if Excessive(size, item) {
        CutKeeps(size, r, text, gap, now, item);
        assert plain == r.(text := text + item.controls + CutCount(size, item));
        ClosedOpens(size, after.text);
      } else {
        CopyKeeps(size, r, text, gap, now, item);
        assert plain == r.(text := text + item.raw);
      }
      NowRelMoves(size, r.(text := after.text, held := None, previous := Some(item.kind)), after, told.now);
    }
  }

  /** A text only gets quieter: what it takes in it still takes in once closed. */
  lemma QuietThen(state: State, after: State, text: Text)
    requires after == state || after == Ground
    ensures Quiet(state, text) ==> Quiet(after, text)
    ensures Quiet(after, [])
  {
  }

  /** Each sequence keeps what the draft and the output have in common. */
  lemma VisitKeeps(size: Size, buffer: Text, d: Draft, story: Story, token: Token)
    requires Rel(size, d, story) && Ready(size, buffer, d, token)
    ensures
      var gap, item := Raw(buffer, d.from, token.start), ItemOf(buffer, token);
      Rel(size, Visit(size, buffer, d, token), Tell(size, story, Chars(gap) + [item]))
  {
    hide NowRel, OpenRel, DoneRel, Ready, Visit, Mean, Chars, IsRepeat;
    var gap, item := Raw(buffer, d.from, token.start), ItemOf(buffer, token);
    TellJoins(size, story, Chars(gap), [item]);
    TellChars(size, story, gap);
    var middle := story.(now := Mean(size, false, story.now, Chars(gap)));
    TellOne(size, middle, item);
    if IsRepeat(item) {
      VisitRepeatKeeps(size, buffer, d, story.now, token);
      RepeatIsNotReset(item);
      assert TellNext(size, middle, item) == story.(now := After(size, story.now, gap, item));
    } else {
      VisitOtherKeeps(size, buffer, d, story, token);
    }
  }

  lemma RepeatIsNotReset(item: Item)
    requires IsRepeat(item)
    ensures !IsReset(item)
  {}

  lemma TellOne(size: Size, story: Story, item: Item)
    ensures Tell(size, story, [item]) == TellNext(size, story, item)
  {
    assert [item][..0] == [];
  }

  // ----- the whole output -----

  lemma UnfinishedKind(raw: Text, item: Item)
    requires ReadsAlone(raw, item) && EndState(raw) != Ground
    ensures item.Seq? && item.kind != CsiKind
  {
    hide ReadsAlone, EndState;
    var state, token := AloneOpens(raw, item);
  }

  lemma FirstIsChar(raw: Text)
    requires raw != [] && !Starter(raw[0])
    ensures Items(raw) != [] && Items(raw)[0] == Char(raw[0])
  {
    GoStep(raw, BEGIN);
    hide Go, Forward;
    var rest, closing := Go(raw, Forward(raw, BEGIN)).items, Closing(raw, Go(raw, BEGIN).last);
    assert Items(raw) == ([Char(raw[0])] + rest) + closing;
  }

  /** A sequence that reads alone starts one. */
  lemma AloneStarts(raw: Text, item: Item)
    requires ReadsAlone(raw, item) && item.Seq?
    ensures Starter(raw[0])
  {
    if !Starter(raw[0]) {
      FirstIsChar(raw);
    }
  }

  function From(tokens: seq<Token>, k: nat): nat
    requires k <= |tokens|
  {
    if k == 0 then 0 else tokens[k - 1].end
  }

  /** Nothing between two sequences starts one. */
  lemma GapIsPlain(buffer: Text, k: nat, end: nat)
    requires !CutPair(buffer) && k <= |Tokens(buffer)|
    requires end == if k < |Tokens(buffer)| then Tokens(buffer)[k].start else |buffer|
    ensures From(Tokens(buffer), k) <= end <= |buffer| && Plain(Raw(buffer, From(Tokens(buffer), k), end))
    ensures k < |Tokens(buffer)| ==> end < Tokens(buffer)[k].end <= |buffer|
  {
    TokensSpan(buffer);
    TokensFit(buffer);
    hide Tokens, Starter, CutPair;
    var tokens := Tokens(buffer);
    var from := From(tokens, k);
    assert forall j :: 0 <= j < |tokens| ==> tokens[j].start < tokens[j].end <= |buffer|;
    var gap := Raw(buffer, from, end);
    forall i | 0 <= i < |gap|
      ensures !Starter(gap[i])
    {
      assert gap[i] == buffer[from + i];
      assert !Covered(tokens, from + i);
    }
  }

  /** Every sequence is ready when its turn comes. */
  lemma ReadyAlways(size: Size, buffer: Text, k: nat, d: Draft)
    requires !CutPair(buffer) && k < |Tokens(buffer)| && HarmlessAt(size, buffer, k)
    requires d == VisitAll(size, buffer, Tokens(buffer)[..k]) && d.from == From(Tokens(buffer), k)
    ensures Ready(size, buffer, d, Tokens(buffer)[k])
  {
    hide Tokens, VisitAll, EndState, Quiet, GoesOn, ReadsAlone;
    TokensGood(buffer);
    TokensShaped(buffer);
    var token := Tokens(buffer)[k];
    assert token in Tokens(buffer);
    assert GoodToken(buffer, token) && Shaped(token);
    GapIsPlain(buffer, k, token.start);
    var item := ItemOf(buffer, token);
    assert item.raw == buffer[token.start..token.end];
    AloneStarts(item.raw, item);
    if EndState(item.raw) != Ground {
      UnfinishedKind(item.raw, item);
    }
    assert Release(size, d).from == d.from;
  }

  lemma VisitMoves(size: Size, buffer: Text, d: Draft, token: Token)
    ensures Visit(size, buffer, d, token).from == token.end
  {}

  /** The text woven up to a sequence, and with it. */
  lemma WovenNext(buffer: Text, tokens: seq<Token>, k: nat)
    requires k < |tokens| && From(tokens, k) <= tokens[k].start
    ensures Woven(buffer, tokens[..k + 1], From(tokens, k + 1))
         == Woven(buffer, tokens[..k], From(tokens, k))
           + (Chars(Raw(buffer, From(tokens, k), tokens[k].start)) + [ItemOf(buffer, tokens[k])])
  {
    hide Woven, ItemOf, Chars, Raw;
    var first, token := tokens[..k], tokens[k];
    assert tokens[..k + 1] == first + [token];
    WovenTo(buffer, first, From(tokens, k), token.start);
    WovenLast(buffer, first, token);
    var a, c := Woven(buffer, first, From(tokens, k)), [ItemOf(buffer, token)];
    var b := Chars(Raw(buffer, From(tokens, k), token.start));
    assert a + b + c == a + (b + c);
  }

  /** A text that ends with a sequence has it woven in last. */
  lemma WovenLast(buffer: Text, first: seq<Token>, token: Token)
    ensures Woven(buffer, first + [token], token.end) == Woven(buffer, first, token.start) + [ItemOf(buffer, token)]
  {
    hide ItemOf;
    assert (first + [token])[..|first|] == first && Chars(Raw(buffer, token.end, token.end)) == [];
    var woven := Woven(buffer, first, token.start) + [ItemOf(buffer, token)];
    assert woven + [] == woven;
  }

  /** Text after the last sequence is woven in as its characters. */
  lemma WovenTo(buffer: Text, tokens: seq<Token>, from: nat, end: nat)
    requires from == (if tokens == [] then 0 else tokens[|tokens| - 1].end) && from <= end
    ensures Woven(buffer, tokens, end) == Woven(buffer, tokens, from) + Chars(Raw(buffer, from, end))
  {
    hide ItemOf;
    assert Chars(Raw(buffer, from, from)) == [];
    var gap := Chars(Raw(buffer, from, end));
    if tokens == [] {
      assert [] + gap == gap;
    } else {
      var last := tokens[|tokens| - 1];
      var woven := Woven(buffer, tokens[..|tokens| - 1], last.start) + [ItemOf(buffer, last)];
      assert woven + [] + gap == woven + gap;
    }
  }

  /** What the output did up to its `k`th sequence. */
  function Told(size: Size, buffer: Text, k: nat): Story
    requires k <= |Tokens(buffer)|
  {
    Tell(size, Story([], FRESH), Woven(buffer, Tokens(buffer)[..k], From(Tokens(buffer), k)))
  }

  function Drafted(size: Size, buffer: Text, k: nat): Draft
    requires k <= |Tokens(buffer)|
  {
    VisitAll(size, buffer, Tokens(buffer)[..k])
  }

  ghost predicate DraftedAt(size: Size, buffer: Text, k: nat)
    requires k <= |Tokens(buffer)|
  {
    Drafted(size, buffer, k).from == From(Tokens(buffer), k)
      && Rel(size, Drafted(size, buffer, k), Told(size, buffer, k))
  }

  lemma DraftedAtStart(size: Size, buffer: Text)
    ensures DraftedAt(size, buffer, 0)
  {
    FreshText(size);
    ClosedOpens(size, []);
    hide Tokens, Meaning, Whole, EndState, OpenText;
    assert Tokens(buffer)[..0] == [];
    assert Woven(buffer, [], 0) == [];
  }

  lemma DraftedNext(size: Size, buffer: Text, k: nat)
    requires !CutPair(buffer) && k < |Tokens(buffer)| && From(Tokens(buffer), k) <= Tokens(buffer)[k].start
    ensures
      var token := Tokens(buffer)[k];
      var gap := Raw(buffer, From(Tokens(buffer), k), token.start);
      && Drafted(size, buffer, k + 1) == Visit(size, buffer, Drafted(size, buffer, k), token)
      && Drafted(size, buffer, k + 1).from == From(Tokens(buffer), k + 1)
      && Told(size, buffer, k + 1) == Tell(size, Told(size, buffer, k), Chars(gap) + [ItemOf(buffer, token)])
  {
    hide Chars, FRESH, ItemOf, Raw, Tell, Tokens, Visit, Woven;
    var tokens := Tokens(buffer);
    assert tokens[..k + 1][..k] == tokens[..k];
    VisitMoves(size, buffer, Drafted(size, buffer, k), tokens[k]);
    WovenNext(buffer, tokens, k);
    TellJoins(size, Story([], FRESH), Woven(buffer, tokens[..k], From(tokens, k)),
      Chars(Raw(buffer, From(tokens, k), tokens[k].start)) + [ItemOf(buffer, tokens[k])]);
  }

  /** After any number of sequences, the draft does what the output did. */
  lemma {:induction false} DraftedAlways(size: Size, buffer: Text, k: nat)
    requires !CutPair(buffer) && k <= |Tokens(buffer)| && forall j :: 0 <= j < k ==> HarmlessAt(size, buffer, j)
    ensures DraftedAt(size, buffer, k)
    decreases k
  {
    hide Tokens, Rel, Visit, Tell, VisitAll, Told, Ready, HarmlessAt, CutPair, Woven;
    if k == 0 {
      DraftedAtStart(size, buffer);
    } else {
      var j := k - 1;
      DraftedAlways(size, buffer, j);
      var d, token := Drafted(size, buffer, j), Tokens(buffer)[j];
      ReadyAlways(size, buffer, j, d);
      VisitKeeps(size, buffer, d, Told(size, buffer, j), token);
      GapIsPlain(buffer, j, token.start);
      DraftedNext(size, buffer, j);
    }
  }

  /** The segments do what the output does: each part between full resets has
      exactly its effects, with every repeat, joined, shortened or left out,
      standing for the characters it drew. */
  lemma SegmentsKeepMeaning(size: Size, buffer: Text)
    requires !CutPair(buffer) && Harmless(size, buffer)
    ensures |Segments(size, buffer)| == |Effects(size, buffer)|
    ensures forall j :: 0 <= j < |Segments(size, buffer)| ==>
      Meaning(size, Segments(size, buffer)[j]).effects == Effects(size, buffer)[j]
  {
    hide Meaning, Tell, Tokens, VisitAll, NowRel, Quiet, EndState, OpenText, GapRel, Woven;
    var n := |Tokens(buffer)|;
    assert Tokens(buffer)[..n] == Tokens(buffer);
    DraftedAlways(size, buffer, n);
    var d, story := Drafted(size, buffer, n), Told(size, buffer, n);
    GapIsPlain(buffer, n, |buffer|);
    var tail := Raw(buffer, d.from, |buffer|);
    ReleaseKeeps(size, d, story.now);
    ReleaseOpens(size, d, story.now);
    var r := Release(size, d);
    assert HarmlessAt(size, buffer, n);
    GapKeeps(size, r, tail, story.now);
    GapEffects(size, r, r.text + tail, tail, Mean(size, false, story.now, Chars(tail)));
    TellEnds(size, buffer, story, tail);
    assert Segments(size, buffer) == r.done + [r.text + tail];
  }

  lemma GapEffects(size: Size, d: Draft, text: Text, gap: Text, now: Sem)
    requires GapRel(size, d, text, gap, now)
    ensures Meaning(size, text).effects == now.effects
  {
  }

  lemma TellEnds(size: Size, buffer: Text, story: Story, tail: Text)
    requires story == Tell(size, Story([], FRESH),
      Woven(buffer, Tokens(buffer), From(Tokens(buffer), |Tokens(buffer)|)))
    requires From(Tokens(buffer), |Tokens(buffer)|) <= |buffer|
      && tail == Raw(buffer, From(Tokens(buffer), |Tokens(buffer)|), |buffer|)
    ensures Effects(size, buffer) == story.done + [Mean(size, false, story.now, Chars(tail)).effects]
  {
    var tokens, from := Tokens(buffer), From(Tokens(buffer), |Tokens(buffer)|);
    ItemsAreWoven(buffer);
    WovenTo(buffer, tokens, from, |buffer|);
    TellJoins(size, Story([], FRESH), Woven(buffer, tokens, from), Chars(tail));
    TellChars(size, story, tail);
  }

  // ----- where it does not -----

  const ERASE: Text := [0x1b, 0x5b, 0x33, 0x4a]

  /** An unfinished command, an erase of the scrollback, and text. */
  function Swallowing(title: Text, tail: Text): Text {
    [0x1b, 0x5d] + title + (ERASE + tail)
  }

  lemma EraseReads()
    ensures
      var erase := Seq(CsiKind, [], [0x33], [], [0x4a], [], ERASE);
      Items(ERASE) == [erase] && Whole(ERASE) && EndState(ERASE) == Ground && IsErase(erase) && |ERASE| == 4
  {
    assert CsiText([0x33], 0x4a) == ERASE;
    CsiReads([0x33], 0x4a);
    var params: Text := [0x33];
    assert params == Printed(3) by {
      assert Decimal.Print(3) == [Decimal.Digit(3)] && Decimal.Digit(3) as int == 0x33;
    }
    FirstParamReads(3, []);
    AppendNothing(params);
  }

  /** In the output the erase ends the command, and the text is drawn. */
  lemma SwallowingReads(size: Size, title: Text, tail: Text)
    requires Printable(title) && Printable(tail)
    ensures Effects(size, Swallowing(title, tail)) == [[StringDone([0x1b, 0x5d] + title)] + CharEffects(tail)]
  {
    var open := [0x1b, 0x5d] + title;
    var command, erase := Seq(StringKind, [], [], [], [], [], open), Seq(CsiKind, [], [0x33], [], [0x4a], [], ERASE);
    SwallowingItems(title, tail);
    EraseReads();
    var start := Story([], FRESH);
    TellJoins(size, start, [command], [erase] + Chars(tail));
    TellJoins(size, Tell(size, start, [command]), [erase], Chars(tail));
    TellOne(size, start, command);
    TellOne(size, TellNext(size, start, command), erase);
    SwallowingTold(size, command, erase, tail);
  }

  lemma SwallowingTold(size: Size, command: Item, erase: Item, tail: Text)
    requires command.Seq? && command.kind == StringKind && command.controls == []
    requires IsErase(erase) && erase.controls == []
    ensures
      var story := Tell(size, TellNext(size, TellNext(size, Story([], FRESH), command), erase), Chars(tail));
      story.done == [] && story.now.effects == [StringDone(command.raw)] + CharEffects(tail)
  {
    var first := TellNext(size, Story([], FRESH), command);
    assert Controls([]) == [];
    assert first == Story([], Sem([StringDone(command.raw)], Unknown, None)) by {
      hide HookPeriods, Controls;
      assert [] + [] + [StringDone(command.raw)] == [StringDone(command.raw)];
    }
    var second := TellNext(size, first, erase);
    assert second == Story([], Sem([StringDone(command.raw)], Nothing, None)) by {
      EraseDoes(size, first.now, erase);
      assert [StringDone(command.raw)] + [] == [StringDone(command.raw)];
    }
    TellChars(size, second, tail);
    MeanChars(size, false, second.now, tail);
    assert [StringDone(command.raw)] + CharEffects([]) == [StringDone(command.raw)];
  }

  /** A text has only one last sequence. */
  lemma {:induction false} LastSeq(a: seq<Item>, x: Item, r: Text, b: seq<Item>, y: Item, t: Text)
    requires a + [x] + Chars(r) == b + [y] + Chars(t) && x.Seq? && y.Seq?
    ensures |r| == |t| && a == b && x == y
    decreases |r|
  {
    var left, right := a + [x] + Chars(r), b + [y] + Chars(t);
    CharsSize(r);
    CharsSize(t);
    assert left[|left| - 1] == right[|right| - 1];
    if r == [] || t == [] {
      assert left == a + [x] || right == b + [y];
      assert a == left[..|a|] && b == right[..|b|];
    } else {
      assert left[..|left| - 1] == a + [x] + Chars(r[..|r| - 1]);
      assert right[..|right| - 1] == b + [y] + Chars(t[..|t| - 1]);
      LastSeq(a, x, r[..|r| - 1], b, y, t[..|t| - 1]);
    }
  }

  lemma CharsHoldNone(text: Text, before: seq<Item>, item: Item, tail: Text)
    requires item.Seq?
    ensures Chars(text) != before + [item] + Chars(tail)
  {
    CharsSize(text);
    assert (before + [item] + Chars(tail))[|before|] == item;
  }

  /** The last sequence woven in, told by what follows it. */
  lemma LastWoven(buffer: Text, tokens: seq<Token>, end: nat, before: seq<Item>, item: Item, tail: Text)
    requires Woven(buffer, tokens, end) == before + [item] + Chars(tail) && item.Seq? && end <= |buffer|
    requires tokens != [] ==> tokens[|tokens| - 1].end <= end
    ensures tokens != []
    ensures
      var last := tokens[|tokens| - 1];
      && last.end == end - |tail| && ItemOf(buffer, last) == item
      && Woven(buffer, tokens[..|tokens| - 1], last.start) == before
  {
    CharsHoldNone(Raw(buffer, 0, end), before, item, tail);
    if tokens != [] {
      var last := tokens[|tokens| - 1];
      assert ItemOf(buffer, last).Seq?;
      hide ItemOf, Chars;
      LastSeq(Woven(buffer, tokens[..|tokens| - 1], last.start), ItemOf(buffer, last), Raw(buffer, last.end, end),
        before, item, tail);
    }
  }

  lemma SwallowingTokens(title: Text, tail: Text) returns (command: Token, erase: Token)
    requires Printable(title) && Printable(tail)
    ensures
      var buffer, open := Swallowing(title, tail), [0x1b, 0x5d] + title;
      && Tokens(buffer) == [command, erase]
      && command.start == 0 && command.end == erase.start == |open| && erase.end == |open| + 4
      && ItemOf(buffer, command) == Seq(StringKind, [], [], [], [], [], open)
      && ItemOf(buffer, erase) == Seq(CsiKind, [], [0x33], [], [0x4a], [], ERASE)
  {
    hide EndState, Items, Tokens, Whole, Woven;
    var buffer, open := Swallowing(title, tail), [0x1b, 0x5d] + title;
    var first, second := Seq(StringKind, [], [], [], [], [], open), Seq(CsiKind, [], [0x33], [], [0x4a], [], ERASE);
    var tokens := Tokens(buffer);
    SwallowingItems(title, tail);
    ItemsAreWoven(buffer);
    SwallowingEnds(title, tail);
    TokensWithin(buffer);
    EraseReads();
    assert Items(buffer) == [first] + [second] + Chars(tail);
    LastWoven(buffer, tokens, |buffer|, [first], second, tail);
    erase := tokens[|tokens| - 1];
    assert |buffer| == |open| + |ERASE| + |tail|;
    assert erase.start == |open| by { RawSize(buffer, erase, ERASE); }
    var one := tokens[..|tokens| - 1];
    assert one != [] ==> one[|one| - 1].end <= erase.start;
    assert [first] == [] + [first] + Chars([]);
    LastWoven(buffer, one, erase.start, [], first, []);
    command := one[|one| - 1];
    assert command.start == 0 by { RawSize(buffer, command, open); }
    NothingWoven(buffer, one[..|one| - 1], command.start);
    assert one == one[..|one| - 1] + [command] && tokens == one + [erase];
  }

  lemma SwallowingItems(title: Text, tail: Text)
    requires Printable(title) && Printable(tail)
    ensures
      var open := [0x1b, 0x5d] + title;
      Items(Swallowing(title, tail)) ==
        [Seq(StringKind, [], [], [], [], [], open)] + ([Seq(CsiKind, [], [0x33], [], [0x4a], [], ERASE)] + Chars(tail))
  {
    hide Items;
    var open := [0x1b, 0x5d] + title;
    OscUnfinished(title);
    EraseReads();
    assert Plain(tail);
    PlainReads(tail);
    AppendClosed(ERASE, tail);
    EraseStarts(tail);
    AppendAnew(open, ERASE + tail);
  }

  lemma EraseStarts(tail: Text)
    ensures StartsAnew(ERASE + tail, Osc)
  {}

  lemma TokensWithin(buffer: Text)
    requires |buffer| > 0 && !HighSurrogate(buffer[|buffer| - 1])
    ensures forall t :: t in Tokens(buffer) ==> t.start < t.end <= |buffer|
    ensures |Tokens(buffer)| > 1 ==>
      Tokens(buffer)[|Tokens(buffer)| - 2].end <= Tokens(buffer)[|Tokens(buffer)| - 1].start
  {
    TokensSpan(buffer);
    TokensFit(buffer);
    hide Tokens;
  }

  lemma SwallowingEnds(title: Text, tail: Text)
    requires Printable(tail)
    ensures
      var buffer := Swallowing(title, tail);
      |buffer| > 0 && !HighSurrogate(buffer[|buffer| - 1])
  {
    if tail != [] {
      assert 0x20 <= tail[|tail| - 1] <= 0x7e;
    }
  }

  lemma TwoVisits(size: Size, buffer: Text, a: Token, b: Token)
    ensures VisitAll(size, buffer, [a, b]) == Visit(size, buffer, Visit(size, buffer, START, a), b)
  {
    hide Visit;
    assert [a, b][..1] == [a] && [a][..0] == [];
    assert VisitAll(size, buffer, [a]) == Visit(size, buffer, START, a);
  }

  lemma RawSize(buffer: Text, token: Token, raw: Text)
    requires ItemOf(buffer, token).raw == raw && token.start < token.end <= |buffer|
    ensures token.end - token.start == |raw|
  {}

  lemma NothingWoven(buffer: Text, tokens: seq<Token>, end: nat)
    requires Woven(buffer, tokens, end) == []
    ensures tokens == []
  {}

  /** The rewriting leaves the erase out, and the unfinished command swallows
      the text: whatever its title, and whatever was drawn. */
  lemma TextIsSwallowed(size: Size, title: Text, tail: Text)
    requires Printable(title) && Printable(tail) && tail != []
    ensures !Harmless(size, Swallowing(title, tail))
    ensures Segments(size, Swallowing(title, tail)) == [[0x1b, 0x5d] + (title + tail)]
    ensures Meaning(size, [0x1b, 0x5d] + (title + tail)).effects == [StringDone([0x1b, 0x5d] + (title + tail))]
    ensures Effects(size, Swallowing(title, tail)) == [[StringDone([0x1b, 0x5d] + title)] + CharEffects(tail)]
  {
    SwallowingReads(size, title, tail);
    var command, erase := SwallowingTokens(title, tail);
    SwallowingWritten(size, title, tail, command, erase);
    assert Printable(title + tail);
    OscUnfinished(title + tail);
    var raw := [0x1b, 0x5d] + (title + tail);
    var item := Seq(StringKind, [], [], [], [], [], raw);
    MeanOne(size, true, FRESH, item);
    StringOnly(size, item);
  }

  lemma StringOnly(size: Size, item: Item)
    requires item.Seq? && item.kind == StringKind && item.controls == []
    ensures Step(size, true, FRESH, item).effects == [StringDone(item.raw)]
  {
    assert Controls([]) == [];
    hide HookPeriods, Controls;
  }

  lemma SwallowingWritten(size: Size, title: Text, tail: Text, command: Token, erase: Token)
    requires Printable(title) && Tokens(Swallowing(title, tail)) == [command, erase]
    requires command.start == 0 && command.end == erase.start == |title| + 2 && erase.end == |title| + 6
    requires ItemOf(Swallowing(title, tail), command) == Seq(StringKind, [], [], [], [], [], [0x1b, 0x5d] + title)
    requires ItemOf(Swallowing(title, tail), erase) == Seq(CsiKind, [], [0x33], [], [0x4a], [], ERASE)
    ensures Segments(size, Swallowing(title, tail)) == [[0x1b, 0x5d] + (title + tail)]
    ensures tail != [] ==> !Harmless(size, Swallowing(title, tail))
  {
    hide EndState, IsRepeat, Items, MAX_PARAM, Printable, RepeatText, START, Tokens, Visit, VisitAll, Whole;
    var buffer, open := Swallowing(title, tail), [0x1b, 0x5d] + title;
    var tokens := [command, erase];
    var one := Visit(size, buffer, START, command);
    assert one == Draft([], open, None, Some(command.kind), |open|) by { FirstVisit(size, buffer, command, open); }
    var two := Visit(size, buffer, one, erase);
    EraseReads();
    assert two == Draft([], open, None, Some(erase.kind), |open| + 4) by { EraseVisit(size, buffer, one, erase, open); }
    TwoVisits(size, buffer, command, erase);
    assert |buffer| == |open| + 4 + |tail| && buffer[|open| + 4..] == tail;
    assert Raw(buffer, |open| + 4, |buffer|) == tail;
    assert open + tail == [0x1b, 0x5d] + (title + tail);
    assert Segments(size, buffer) == [open + tail];
    OscUnfinished(title);
    assert Tokens(buffer)[..2] == tokens && Release(size, two) == two;
    assert tail != [] ==> !HarmlessAt(size, buffer, 2);
  }

  lemma FirstVisit(size: Size, buffer: Text, command: Token, open: Text)
    requires command.start == 0 && command.end == |open|
      && ItemOf(buffer, command) == Seq(StringKind, [], [], [], [], [], open)
    ensures Visit(size, buffer, START, command) == Draft([], open, None, Some(command.kind), |open|)
  {
    assert Raw(buffer, 0, 0) == [];
    assert [] + [] + open == open;
  }

  lemma EraseVisit(size: Size, buffer: Text, d: Draft, erase: Token, open: Text)
    requires d.text == open && d.held.None? && d.done == [] && erase.start == d.from == |open|
      && erase.end == |open| + 4
    requires ItemOf(buffer, erase) == Seq(CsiKind, [], [0x33], [], [0x4a], [], ERASE) && IsErase(ItemOf(buffer, erase))
    ensures Visit(size, buffer, d, erase) == Draft([], open, None, Some(erase.kind), |open| + 4)
  {
    hide FirstParam;
    assert Raw(buffer, |open|, |open|) == [];
    assert open + [] + [] == open;
  }
}
