/** What a saved output does to a terminal, repeats written out. */
module SavedMeaning {
  import opened Basics
  import RepeatScreen
  import opened VtScanner
  import opened VtItems
  import opened VtTokens
  import opened VtPieces
  import Arithmetic
  import Decimal

  const MAX_PARAM := 0x7fff_ffff

  datatype SizeData = Size(cols: nat, rows: nat, rule: RepeatScreen.Rule)

  /** A terminal's size, with the rule for its repeats: no count that is kept
      exceeds what a parameter can hold. */
  type Size = s: SizeData | s.cols > 0 && s.rows > 0 && s.rule.period > 0
      && 0 < s.rule.settled <= MAX_PARAM - s.rule.period
    witness Size(1, 1, RepeatScreen.Rule(1, 1))

  /** The size of a real terminal, with the rule the view uses for it. */
  function SizeOf(cols: RepeatScreen.Cols, rows: nat): (size: Size)
    requires rows > 0 && RepeatScreen.RepeatRule(cols, rows).settled + RepeatScreen.Period(cols) <= MAX_PARAM
    ensures size.cols == cols && size.rows == rows && size.rule == RepeatScreen.RepeatRule(cols, rows)
  {
    RepeatScreen.PeriodIsWholeRows(cols, RepeatScreen.Pen("a", 1, 0, 0));
    SettledIsPositive(cols, rows);
    Size(cols, rows, RepeatScreen.RepeatRule(cols, rows))
  }

  lemma SettledIsPositive(cols: RepeatScreen.Cols, rows: nat)
    ensures RepeatScreen.RepeatRule(cols, rows).settled > 0
      && RepeatScreen.RepeatRule(cols, rows).period == RepeatScreen.Period(cols)
  {
    RepeatScreen.PeriodIsWholeRows(cols, RepeatScreen.Pen("a", 1, 0, 0));
    Arithmetic.MulMono(0, 2 * rows + 1, cols);
  }

  /** One thing the output does. `Print` hands over a unit outside any sequence,
      which the terminal draws or, like CAN and SUB, acts on; `Again` draws again
      whatever was drawn last. */
  datatype Effect =
    | Print(unit: Unit)
    | Again
    | Control(unit: Unit)
    | Count(final: Text, count: nat, rest: Text)
    | Do(prefix: Text, params: Text, intermediates: Text, final: Text)
    | EscapeDone(intermediates: Text, final: Text)
    | StringDone(raw: Text)

  /** What a repeat would repeat. After an escape sequence or a string, or a
      character that is not ASCII, that is left to the terminal. */
  datatype Last = Nothing | Drawn(unit: Unit) | Unknown

  /** The effects so far, what a repeat would repeat, and what the shortened
      repeat just read did repeat. */
  datatype Sem = Sem(effects: seq<Effect>, last: Last, shortened: Option<Last>)

  const FRESH := Sem([], Nothing, None)

  // ----- parameters -----

  predicate DigitUnit(unit: Unit) {
    0x30 <= unit <= 0x39
  }

  predicate AllDigits(text: Text) {
    forall i :: 0 <= i < |text| ==> DigitUnit(text[i])
  }

  /** Digits as they are written in output. */
  function Printed(n: nat): (text: Text)
    ensures text != [] && AllDigits(text)
  {
    var s := Decimal.Print(n);
    seq(|s|, i requires 0 <= i < |s| => s[i] as int)
  }

  function Number(text: Text): nat
    requires AllDigits(text)
  {
    Decimal.Number(seq(|text|, i requires 0 <= i < |text| => text[i] as char))
  }

  lemma PrintedReadsBack(n: nat)
    ensures Number(Printed(n)) == n
  {
    var text := Printed(n);
    var s := seq(|text|, i requires 0 <= i < |text| => text[i] as char);
    assert s == Decimal.Print(n);
    Decimal.PrintReadsBack(n);
  }

  /** Where the first parameter ends. */
  function ParamEnd(params: Text): (n: nat)
    ensures n <= |params|
    ensures forall i :: 0 <= i < n ==> params[i] != 0x3a && params[i] != 0x3b
    ensures n < |params| ==> params[n] == 0x3a || params[n] == 0x3b
  {
    if params == [] || params[0] == 0x3a || params[0] == 0x3b then 0 else 1 + ParamEnd(params[1..])
  }

  function Least(a: nat, b: nat): nat {
    if a < b then a else b
  }

  /** The first parameter, 0 when left out, and the parameters after it. */
  function FirstParam(params: Text): (nat, Text) {
    var end := ParamEnd(params);
    var digits := params[..end];
    (if digits == [] || !AllDigits(digits) then 0 else Least(Number(digits), MAX_PARAM), params[end..])
  }

  function CountOf(params: Text): nat {
    if FirstParam(params).0 == 0 then 1 else FirstParam(params).0
  }

  /** A parameter that is written out is read back, with what follows it. */
  lemma FirstParamReads(n: nat, rest: Text)
    requires n <= MAX_PARAM && (rest == [] || rest[0] == 0x3a || rest[0] == 0x3b)
    ensures FirstParam(Printed(n) + rest) == (n, rest)
  {
    var params := Printed(n) + rest;
    var end := ParamEnd(params);
    assert forall i :: 0 <= i < |Printed(n)| ==> params[i] == Printed(n)[i] && DigitUnit(params[i]);
    assert rest != [] ==> params[|Printed(n)|] == rest[0];
    assert end == |Printed(n)|;
    assert params[..end] == Printed(n) && params[end..] == rest;
    PrintedReadsBack(n);
  }

  // ----- what each item is -----

  predicate PlainCsi(item: Item) {
    item.Seq? && item.kind == CsiKind && item.prefix == [] && item.intermediates == []
  }

  predicate IsRepeat(item: Item) {
    PlainCsi(item) && item.final == [0x62]
  }

  /** An erase of the scrollback. */
  predicate IsErase(item: Item) {
    item.Seq? && item.kind == CsiKind && item.final == [0x4a] && item.intermediates == []
    && (item.prefix == [] || item.prefix == [0x3f]) && FirstParam(item.params).0 == 3
  }

  predicate CountsRows(final: Text) {
    final == [0x53] || final == [0x54] || final == [0x4c] || final == [0x4d]
  }

  predicate CountsCols(final: Text) {
    final == [0x49] || final == [0x5a]
  }

  predicate IsCounted(item: Item) {
    PlainCsi(item) && (CountsRows(item.final) || CountsCols(item.final))
  }

  function Limit(size: Size, final: Text): nat {
    if CountsRows(final) then size.rows else size.cols
  }

  predicate IsReset(item: Item) {
    item.Seq? && item.kind == EscKind && item.final == [0x63] && item.intermediates == []
  }

  const HOOK := [0x37, 0x33, 0x35, 0x37, 0x3b]

  function HookText(periods: nat): Text {
    OscText(HOOK + Printed(periods))
  }

  /** The periods a hook stands for. */
  function HookPeriods(item: Item): Option<nat> {
    if item.Seq? && item.kind == StringKind && item.controls == [] && |item.raw| > 8
       && item.raw[..7] == [0x1b, 0x5d] + HOOK && item.raw[|item.raw| - 1] == 0x07
       && AllDigits(item.raw[7..|item.raw| - 1])
    then Some(Number(item.raw[7..|item.raw| - 1]))
    else None
  }

  // ----- what each item does -----

  function Controls(text: Text): (effects: seq<Effect>)
    ensures |effects| == |text| && forall i :: 0 <= i < |text| ==> effects[i] == Control(text[i])
  {
    seq(|text|, i requires 0 <= i < |text| => Control(text[i]))
  }

  function Times(effect: Effect, n: nat): (effects: seq<Effect>)
    ensures |effects| == n && forall i :: 0 <= i < n ==> effects[i] == effect
  {
    seq(n, _ => effect)
  }

  function Repeated(last: Last, n: nat): seq<Effect> {
    match last
    case Nothing => []
    case Drawn(unit) => Times(Print(unit), n)
    case Unknown => Times(Again, n)
  }

  function DoChar(sem: Sem, unit: Unit): Sem {
    if Executed(unit) then Sem(sem.effects + [Control(unit)], Nothing, None)
    else if 0x20 <= unit <= 0x7e then Sem(sem.effects + [Print(unit)], Drawn(unit), None)
    else Sem(sem.effects + [Print(unit)], Unknown, None)
  }

  function DoRepeat(sem: Sem, item: Item): Sem
    requires item.Seq?
  {
    if item.controls != [] then Sem(sem.effects + Controls(item.controls), Nothing, None)
    else
      Sem(sem.effects + Repeated(sem.last, CountOf(item.params)), Nothing,
          if FirstParam(item.params).1 != [] then Some(sem.last) else None)
  }

  function DoCsi(size: Size, sem: Sem, item: Item): Sem
    requires item.Seq?
  {
    var effects := sem.effects + Controls(item.controls);
    if IsErase(item) then Sem(effects, Nothing, None)
    else if IsCounted(item) then
      var count := Least(CountOf(item.params), Limit(size, item.final));
      Sem(effects + [Count(item.final, count, FirstParam(item.params).1)], Nothing, None)
    else Sem(effects + [Do(item.prefix, item.params, item.intermediates, item.final)], Nothing, None)
  }

  /** With `hooks`, a hook right after a shortened repeat repeats on. */
  function Step(size: Size, hooks: bool, sem: Sem, item: Item): Sem {
    if item.Char? then DoChar(sem, item.unit)
    else if IsRepeat(item) then DoRepeat(sem, item)
    else if hooks && sem.shortened.Some? && HookPeriods(item).Some? then
      Sem(sem.effects + Repeated(sem.shortened.value, HookPeriods(item).value * size.rule.period), Nothing, None)
    else
      match item.kind
      case CsiKind => DoCsi(size, sem, item)
      case EscKind =>
        Sem(sem.effects + Controls(item.controls) + [EscapeDone(item.intermediates, item.final)], Unknown, None)
      case StringKind => Sem(sem.effects + Controls(item.controls) + [StringDone(item.raw)], Unknown, None)
      case Ignored => Sem(sem.effects + Controls(item.controls), Unknown, None)
  }

  function Mean(size: Size, hooks: bool, sem: Sem, items: seq<Item>): Sem {
    if items == [] then sem
    else Step(size, hooks, Mean(size, hooks, sem, items[..|items| - 1]), items[|items| - 1])
  }

  lemma {:induction false} MeanJoins(size: Size, hooks: bool, sem: Sem, left: seq<Item>, right: seq<Item>)
    ensures Mean(size, hooks, sem, left + right) == Mean(size, hooks, Mean(size, hooks, sem, left), right)
  {
    if right == [] {
      assert left + right == left;
    } else {
      assert (left + right)[..|left + right| - 1] == left + right[..|right| - 1];
      MeanJoins(size, hooks, sem, left, right[..|right| - 1]);
    }
  }

  lemma MeanOne(size: Size, hooks: bool, sem: Sem, item: Item)
    ensures Mean(size, hooks, sem, [item]) == Step(size, hooks, sem, item)
  {
    assert [item][..0] == [];
  }

  /** What a rewritten segment does, its hooks read as the periods they stand for. */
  function Meaning(size: Size, text: Text): Sem {
    Mean(size, true, FRESH, Items(text))
  }

  /** An output as it was saved: each full reset starts over. */
  datatype Story = Story(done: seq<seq<Effect>>, now: Sem)

  function TellNext(size: Size, story: Story, item: Item): Story {
    if IsReset(item) then Story(story.done + [story.now.effects + Controls(item.controls)], FRESH)
    else story.(now := Step(size, false, story.now, item))
  }

  function Tell(size: Size, story: Story, items: seq<Item>): Story {
    if items == [] then story
    else TellNext(size, Tell(size, story, items[..|items| - 1]), items[|items| - 1])
  }

  lemma {:induction false} TellJoins(size: Size, story: Story, left: seq<Item>, right: seq<Item>)
    ensures Tell(size, story, left + right) == Tell(size, Tell(size, story, left), right)
  {
    if right == [] {
      assert left + right == left;
    } else {
      assert (left + right)[..|left + right| - 1] == left + right[..|right| - 1];
      TellJoins(size, story, left, right[..|right| - 1]);
    }
  }

  /** The effects of each part of an output between full resets. */
  function Effects(size: Size, buffer: Text): seq<seq<Effect>> {
    var story := Tell(size, Story([], FRESH), Items(buffer));
    story.done + [story.now.effects]
  }

  // ----- plain text -----

  /** Plain text does the same to the effects whichever way they were reached. */
  lemma {:induction false} TellChars(size: Size, story: Story, text: Text)
    ensures Tell(size, story, Chars(text)) == story.(now := Mean(size, false, story.now, Chars(text)))
  {
    if text != [] {
      TellChars(size, story, text[..|text| - 1]);
      var chars := Chars(text);
      assert chars[..|chars| - 1] == Chars(text[..|text| - 1]);
    }
  }

  lemma {:induction false} CharsSize(text: Text)
    ensures |Chars(text)| == |text| && forall i :: 0 <= i < |text| ==> Chars(text)[i] == Char(text[i])
  {
    if text != [] {
      CharsSize(text[..|text| - 1]);
    }
  }

  function CharEffect(unit: Unit): Effect {
    if Executed(unit) then Control(unit) else Print(unit)
  }

  function CharEffects(text: Text): (effects: seq<Effect>)
    ensures |effects| == |text| && forall i :: 0 <= i < |text| ==> effects[i] == CharEffect(text[i])
  {
    seq(|text|, i requires 0 <= i < |text| => CharEffect(text[i]))
  }

  function LastOf(unit: Unit): Last {
    if Executed(unit) then Nothing else if 0x20 <= unit <= 0x7e then Drawn(unit) else Unknown
  }

  lemma StepChar(size: Size, hooks: bool, sem: Sem, unit: Unit)
    ensures Step(size, hooks, sem, Char(unit)) == Sem(sem.effects + [CharEffect(unit)], LastOf(unit), None)
  {}

  lemma MeanNext(size: Size, hooks: bool, sem: Sem, text: Text)
    requires text != []
    ensures Mean(size, hooks, sem, Chars(text))
         == Step(size, hooks, Mean(size, hooks, sem, Chars(text[..|text| - 1])), Char(text[|text| - 1]))
  {
    hide Step;
    assert Chars(text)[..|Chars(text)| - 1] == Chars(text[..|text| - 1]);
  }

  /** What plain text does: an effect a unit, and the last unit can be repeated. */
  lemma {:induction false} MeanChars(size: Size, hooks: bool, sem: Sem, text: Text)
    ensures Mean(size, hooks, sem, Chars(text)) ==
            if text == [] then sem else Sem(sem.effects + CharEffects(text), LastOf(text[|text| - 1]), None)
  {
    if text == [] {
    } else {
      var first, unit := text[..|text| - 1], text[|text| - 1];
      MeanChars(size, hooks, sem, first);
      MeanNext(size, hooks, sem, text);
      StepChar(size, hooks, Mean(size, hooks, sem, Chars(first)), unit);
      assert CharEffects(text) == CharEffects(first) + [CharEffect(unit)];
      var a, b, c := sem.effects, CharEffects(first), [CharEffect(unit)];
      assert a + b + c == a + (b + c);
      assert first == [] ==> b + c == c;
    }
  }
}
