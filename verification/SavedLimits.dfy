/** Exactly when rewriting keeps what a saved output does.

    At any point of an output, what is written so far, with the repeat held back,
    either does what the output did so far or does not. It does throughout
    exactly when the output is harmless, and where harm is first done to a
    string, the finished segments differ whatever comes before and after. */
module SavedLimits {
  import opened Basics
  import opened VtScanner
  import opened VtItems
  import opened VtTokens
  import opened VtPieces
  import opened VtOpen
  import opened SavedMeaning
  import opened SavedSegments

  // ----- lists of effects -----

  /** A first part of a list of effects stays. */
  lemma {:induction false} MeanGrows(size: Size, hooks: bool, sem: Sem, items: seq<Item>)
    ensures sem.effects <= Mean(size, hooks, sem, items).effects
  {
    if items != [] {
      var first, item := items[..|items| - 1], items[|items| - 1];
      MeanGrows(size, hooks, sem, first);
      StepGrows(size, hooks, Mean(size, hooks, sem, first), item);
    }
  }

  lemma StepGrows(size: Size, hooks: bool, sem: Sem, item: Item)
    ensures sem.effects <= Step(size, hooks, sem, item).effects
  {
    hide IsErase, IsCounted, HookPeriods, CountOf, FirstParam, Limit, Controls, Repeated;
  }

  /** Two lists differ at a place both have, or only one of them has. */
  ghost predicate DifferAt(a: seq<Effect>, b: seq<Effect>, i: nat) {
    i < |a| && i < |b| && a[i] != b[i]
  }

  lemma StepString(size: Size, sem: Sem, item: Item)
    requires sem.shortened == None && item.Seq? && item.kind == StringKind
    ensures Step(size, true, sem, item).effects == sem.effects + Controls(item.controls) + [StringDone(item.raw)]
  {
    hide Controls, HookPeriods;
  }

  /** More text that becomes part of a string changes the string's effect. */
  lemma StringDiffers(size: Size, text: Text, more: Text) returns (i: nat)
    requires Whole(text) && InString(EndState(text)) && Unshortened(size, text)
    requires more != [] && !StartsAnew(more, EndState(text))
    ensures DifferAt(Meaning(size, text).effects, Meaning(size, text + more).effects, i)
  {
    hide Items, Whole, EndState, StartsAnew, Step, Mean, Controls;
    var front, a, b, rest := StringGrows(text, more);
    var sem := Mean(size, true, FRESH, front);
    assert Items(text)[..|Items(text)| - 1] == front;
    MeanJoins(size, true, FRESH, front, [a]);
    MeanOne(size, true, sem, a);
    StepString(size, sem, a);
    MeanJoins(size, true, FRESH, front, [b] + rest);
    MeanJoins(size, true, sem, [b], rest);
    MeanOne(size, true, sem, b);
    StepString(size, sem, b);
    MeanGrows(size, true, Step(size, true, sem, b), rest);
    i := |sem.effects + Controls(a.controls)|;
    var left, right := Meaning(size, text).effects, Meaning(size, text + more).effects;
    assert left[i] == StringDone(a.raw);
    assert right[i] == Step(size, true, sem, b).effects[i] == StringDone(b.raw);
  }

  // ----- text after an unfinished sequence that is no string -----

  /** The leading controls of a text. */
  function Leading(text: Text): (n: nat)
    ensures n <= |text| && AllExecuted(text[..n]) && (n < |text| ==> !Executed(text[n]))
  {
    if text == [] || !Executed(text[0]) then 0 else 1 + Leading(text[1..])
  }

  /** What the sequence that takes text in does, and the text after it. */
  ghost predicate Taken(item: Item, controls: Text, more: Text, m: nat, state: State) {
    && item.Seq? && 1 <= m <= |more| && controls <= item.controls
    && (0x40 <= more[0] <= 0x7e && EscapeString(more[0]) == Ground ==> m == 1)
    && (item.kind == CsiKind ==> item.final == [more[m - 1]])
    && (item.kind == CsiKind && m == 1 ==> state == Csi || state == CsiParam || state == CsiIntermediate)
  }

  /** A left-out sequence no longer ends a control sequence, and a `b` follows,
      which then makes that a repeat. */
  predicate Echo(state: State, gap: Text) {
    gap != [] && gap[0] == 0x62 && (state == Csi || state == CsiParam || state == CsiIntermediate)
  }

  lemma CsiDoes(size: Size, sem: Sem, item: Item)
    requires item.Seq? && item.kind == CsiKind && sem.shortened == None && !IsRepeat(item)
    ensures
      var before, after := sem.effects + Controls(item.controls), Step(size, true, sem, item).effects;
      after == before || exists e: Effect :: !e.Print? && after == before + [e]
  {
    hide Controls, FirstParam, Number, Limit;
    var before, after := sem.effects + Controls(item.controls), Step(size, true, sem, item).effects;
    if after != before {
      assert |after| == |before| + 1 && after == before + [after[|before|]] && !after[|before|].Print?;
    }
  }

  lemma OtherDoes(size: Size, sem: Sem, item: Item)
    requires item.Seq? && item.kind != CsiKind && sem.shortened == None
    ensures
      var before, after := sem.effects + Controls(item.controls), Step(size, true, sem, item).effects;
      after == before || exists e: Effect :: !e.Print? && after == before + [e]
  {
    hide Controls, FirstParam, HookPeriods;
    var before, after := sem.effects + Controls(item.controls), Step(size, true, sem, item).effects;
    if after != before {
      assert |after| == |before| + 1 && after == before + [after[|before|]] && !after[|before|].Print?;
    }
  }

  /** At most one more effect, which draws nothing, cannot make up for what was taken. */
  lemma OneMoreDiffers(before: seq<Effect>, controls: Text, taken: Text, done: seq<Effect>, more: Text, m: nat)
    requires more != [] && !Executed(more[0]) && 1 <= m <= |more| && controls <= taken
    requires done == before + Controls(taken) || exists e: Effect :: !e.Print? && done == before + Controls(taken) + [e]
    ensures done + CharEffects(more[m..]) != before + Controls(controls) + CharEffects(more)
  {
    var left, right := done + CharEffects(more[m..]), before + Controls(controls) + CharEffects(more);
    var i := |before| + |controls|;
    assert right[i] == CharEffect(more[0]) == Print(more[0]);
    if |taken| > |controls| {
      assert left[i] == done[i] == Control(taken[|controls|]);
    } else {
      assert taken == controls;
      if done == before + Controls(taken) {
        assert |left| < |right|;
      } else {
        var e: Effect :| !e.Print? && done == before + Controls(taken) + [e];
        assert left[i] == e;
      }
    }
  }

  lemma RepeatDiffers(before: seq<Effect>, last: Last, n: nat, more: Text, m: nat)
    requires more != [] && !Executed(more[0]) && 1 <= m <= |more| && n > 0
    requires more[m - 1] == 0x62 && (more[0] == 0x62 ==> m == 1) && more[0] != 0x62
    ensures before + Repeated(last, n) + CharEffects(more[m..]) != before + CharEffects(more)
  {
    var left, right := before + Repeated(last, n) + CharEffects(more[m..]), before + CharEffects(more);
    var i := |before|;
    assert right[i] == Print(more[0]);
    match last
    case Nothing => assert |left| < |right|;
    case Unknown => assert left[i] == Again;
    case Drawn(unit) =>
      assert left[i] == Print(unit);
      assert |left| - |right| == n - m;
      assert n == m ==> left[i + m - 1] == Print(unit);
      assert right[i + m - 1] == CharEffect(0x62) == Print(0x62);
  }

  /** Whatever the sequence that takes text in does, it is not what the text did. */
  lemma TakenDiffers(size: Size, sem: Sem, controls: Text, item: Item, more: Text, m: nat, state: State)
    requires sem.shortened == None && more != [] && !Executed(more[0]) && Taken(item, controls, more, m, state)
    requires controls == [] ==> !Echo(state, more)
    ensures Step(size, true, sem, item).effects + CharEffects(more[m..]) != sem.effects + Controls(controls)
      + CharEffects(more)
  {
    hide Step, CharEffects, Controls, Executed;
    if IsRepeat(item) {
      RepeatTaken(size, sem, controls, item, more, m, state);
    } else {
      if item.kind == CsiKind {
        CsiDoes(size, sem, item);
      } else {
        OtherDoes(size, sem, item);
      }
      OneMoreDiffers(sem.effects, controls, item.controls, Step(size, true, sem, item).effects, more, m);
    }
  }

  lemma RepeatTaken(size: Size, sem: Sem, controls: Text, item: Item, more: Text, m: nat, state: State)
    requires IsRepeat(item) && more != [] && !Executed(more[0]) && Taken(item, controls, more, m, state)
    requires controls == [] ==> !Echo(state, more)
    ensures Step(size, true, sem, item).effects + CharEffects(more[m..]) != sem.effects + Controls(controls)
      + CharEffects(more)
  {
    hide CharEffects, Controls, Executed, Repeated, CountOf;
    assert Step(size, true, sem, item) == DoRepeat(sem, item);
    if item.controls != [] {
      OneMoreDiffers(sem.effects, controls, item.controls, sem.effects + Controls(item.controls), more, m);
    } else {
      assert controls == [] && item.kind == CsiKind && item.final == [0x62];
      assert more[0] == 0x62 ==> m == 1 && Echo(state, more) by { assert EscapeString(0x62) == Ground; }
      CountPositive(item.params);
      RepeatDiffers(sem.effects, sem.last, CountOf(item.params), more, m);
      NoControls(sem.effects);
    }
  }

  lemma NoControls(effects: seq<Effect>)
    ensures effects + Controls([]) == effects
  {
  }

  lemma CountPositive(params: Text)
    ensures CountOf(params) > 0
  {
    hide FirstParam;
  }

  /** An unfinished sequence that has `u` for its start, and text after it. */
  lemma ReadsWith(size: Size, x: Text, u: Text, more: Text, item: Item, m: nat)
    requires Whole(x) && (EndState(x) == Ground || StartsAnew(u + more, EndState(x)))
    requires m <= |more| && Items(u + more) == [item] + Chars(more[m..])
    ensures Meaning(size, x + (u + more)).effects
      == Step(size, true, Meaning(size, x), item).effects + CharEffects(more[m..])
  {
    hide Items, Whole, EndState, StartsAnew, Step, Mean, Chars, CharEffects;
    if EndState(x) == Ground {
      AppendClosed(x, u + more);
    } else {
      AppendAnew(x, u + more);
    }
    var sem, rest := Meaning(size, x), more[m..];
    MeanJoins(size, true, FRESH, Items(x), [item] + Chars(rest));
    MeanJoins(size, true, sem, [item], Chars(rest));
    MeanOne(size, true, sem, item);
    MeanChars(size, true, Step(size, true, sem, item), rest);
    NoEffects(Step(size, true, sem, item).effects);
  }

  lemma NoEffects(effects: seq<Effect>)
    ensures effects + CharEffects([]) == effects
  {
  }

  lemma CharEffectsJoin(a: Text, b: Text)
    requires AllExecuted(a)
    ensures CharEffects(a + b) == Controls(a) + CharEffects(b)
  {
  }

  /** What is read of such text: the sequence takes in a first part of it. */
  lemma TakenReads(size: Size, text: Text, x: Text, u: Text, token: Token, c: Text, more: Text)
    returns (item: Item, m: nat)
    requires Opened(size, text, x, u, token) && !InString(EndState(text)) && EndState(text) != Ground
    requires AllExecuted(c) && Plain(more) && more != []
    requires !(InString(EndState(x)) && u == [0x1b] && (c + more)[0] == 0x5c)
    ensures Taken(item, token.controls + c, more, m, EndState(text))
    ensures Meaning(size, text + (c + more)).effects
      == Step(size, true, Meaning(size, x), item).effects + CharEffects(more[m..])
    ensures Meaning(size, x).shortened == None
  {
    hide Items, Whole, StartsAnew, Step, Mean, Meaning, Chars, CharEffects, Inside, EndState, EscapeString;
    var state := EndState(text);
    QuietInside(u, state, token, c);
    item, m := ReadsOn(u + c, state, token.(controls := token.controls + c), more);
    assert (u + c) + more == u + (c + more);
    if EndState(x) != Ground {
      StartsLonger(u, c + more, EndState(x));
    }
    ReadsWith(size, x, u + c, more, item, m);
    assert x + ((u + c) + more) == text + (c + more);
  }

  /** Text that is not quiet after an unfinished sequence that is no string. */
  lemma TakenText(size: Size, text: Text, x: Text, u: Text, token: Token, gap: Text)
    requires Opened(size, text, x, u, token) && !InString(EndState(text)) && EndState(text) != Ground
    requires Plain(gap) && !AllExecuted(gap) && !Echo(EndState(text), gap)
    requires !(InString(EndState(x)) && u == [0x1b] && gap[0] == 0x5c)
    ensures Meaning(size, text + gap).effects != Meaning(size, text).effects + CharEffects(gap)
  {
    hide Plain, Opened, Meaning, Step, Mean, CharEffects, Controls, Echo, EndState, AllExecuted, Executed, Leading;
    var c, more := LeadingSplit(gap);
    var item, m := TakenReads(size, text, x, u, token, c, more);
    EchoFirst(EndState(text), gap, c, more);
    TakenDiffers(size, Meaning(size, x), token.controls + c, item, more, m, EndState(text));
    TextDid(size, text, x, u, token, c, more);
  }

  /** The controls a text starts with, and what comes after them. */
  lemma LeadingSplit(gap: Text) returns (c: Text, more: Text)
    requires Plain(gap) && !AllExecuted(gap)
    ensures gap == c + more && AllExecuted(c) && Plain(more) && more != [] && !Executed(more[0])
      && (c + more)[0] == gap[0]
  {
    var n := Leading(gap);
    c, more := gap[..n], gap[n..];
    assert gap[..|gap|] == gap;
  }

  /** What the text did, its controls on their own. */
  lemma TextDid(size: Size, text: Text, x: Text, u: Text, token: Token, c: Text, more: Text)
    requires Opened(size, text, x, u, token) && !InString(EndState(text)) && AllExecuted(c)
    ensures Meaning(size, text).effects + CharEffects(c + more)
         == Meaning(size, x).effects + Controls(token.controls + c) + CharEffects(more)
  {
    hide Items, Whole, EndState, Step, Mean, CharEffects, Controls, Opens;
    MeaningOpened(size, text, x, u, token);
    StepUnfinished(size, Meaning(size, x), u, EndState(text), token);
    CharEffectsJoin(c, more);
    EffectsSum(Meaning(size, x).effects, token.controls, c);
    var a, b, d := Meaning(size, x).effects + Controls(token.controls), Controls(c), CharEffects(more);
    assert a + (b + d) == a + b + d;
  }

  lemma EchoFirst(state: State, gap: Text, c: Text, more: Text)
    requires gap == c + more && !Echo(state, gap)
    ensures c == [] ==> !Echo(state, more)
  {
    if c == [] {
      assert gap == more;
    }
  }

  /** Text that is not quiet does something else than it did. */
  lemma GapBreaks(size: Size, text: Text, gap: Text)
    requires OpenText(size, text) && Whole(text) && Plain(gap) && !Quiet(EndState(text), gap)
      && !Echo(EndState(text), gap)
    ensures Meaning(size, text + gap).effects != Meaning(size, text).effects + CharEffects(gap)
  {
    hide Items, Whole, EndState, Meaning, CharEffects, Echo, Opens;
    var x, u, token :| Opened(size, text, x, u, token);
    MeaningOpened(size, text, x, u, token);
    PlainStartsNone(gap, EndState(text));
    if InString(EndState(text)) {
      var i := StringDiffers(size, text, gap);
    } else if InString(EndState(x)) && u == [0x1b] && gap[0] == 0x5c {
      OpenedParts(size, text, x, u, token);
      EscapeThen(gap, EndState(x));
      var i := StringDiffers(size, x, u + gap);
      assert x + (u + gap) == text + gap;
      StepGrows(size, true, Meaning(size, x), OpenItem(u, EndState(text), token));
      assert Meaning(size, text).effects[i] == Meaning(size, x).effects[i];
    } else {
      TakenText(size, text, x, u, token, gap);
    }
  }

  lemma PlainStartsNone(gap: Text, state: State)
    requires Plain(gap) && gap != []
    ensures !StartsAnew(gap, state)
  {
  }

  lemma OpenedParts(size: Size, text: Text, x: Text, u: Text, token: Token)
    requires Opened(size, text, x, u, token)
    ensures text == x + u && Whole(x) && (EndState(x) != Ground ==> Unshortened(size, x) && StartsAnew(u, EndState(x)))
    ensures Inside(u, EndState(text), token) && Meaning(size, x).shortened == None
  {
  }

  lemma EscapeThen(gap: Text, state: State)
    requires gap != [] && gap[0] == 0x5c && InString(state)
    ensures !StartsAnew([0x1b] + gap, state)
  {
    assert ([0x1b] + gap)[1] == 0x5c;
  }

  // ----- at each point of an output -----

  /** The text before the `k`th sequence, or after the last. */
  function GapAt(buffer: Text, k: nat): Text
    requires k <= |Tokens(buffer)|
  {
    Raw(buffer, From(Tokens(buffer), k), if k < |Tokens(buffer)| then Tokens(buffer)[k].start else |buffer|)
  }

  /** What is written of the first `k` sequences, no repeat held back. */
  function Written(size: Size, buffer: Text, k: nat): Draft
    requires k <= |Tokens(buffer)|
  {
    Release(size, Drafted(size, buffer, k))
  }

  /** What is written up to the `k`th sequence does what the output did. */
  ghost predicate KeptAt(size: Size, buffer: Text, k: nat)
    requires k <= |Tokens(buffer)|
  {
    var d, story, gap := Written(size, buffer, k), Told(size, buffer, k), GapAt(buffer, k);
    DoneRel(size, d.done, story.done) && Meaning(size, d.text + gap).effects == story.now.effects + CharEffects(gap)
  }

  /** Rewriting keeps what the output does at every point of it. */
  ghost predicate Throughout(size: Size, buffer: Text) {
    forall k :: 0 <= k <= |Tokens(buffer)| ==> KeptAt(size, buffer, k)
  }

  lemma MeanCharEffects(size: Size, sem: Sem, gap: Text)
    ensures Mean(size, false, sem, Chars(gap)).effects == sem.effects + CharEffects(gap)
  {
    MeanChars(size, false, sem, gap);
    NoEffects(sem.effects);
  }

  /** Where nothing harmful came before, the next point is kept. */
  lemma HarmlessKeeps(size: Size, buffer: Text, k: nat)
    requires !CutPair(buffer) && k <= |Tokens(buffer)| && forall j :: 0 <= j <= k ==> HarmlessAt(size, buffer, j)
    ensures KeptAt(size, buffer, k)
  {
    hide Tokens, NowRel, OpenRel, Quiet, EndState, Mean, Meaning, VisitAll, Told, CutPair, GapRel, OpenText;
    DraftedAlways(size, buffer, k);
    var d, story, gap := Drafted(size, buffer, k), Told(size, buffer, k), GapAt(buffer, k);
    var r := Release(size, d);
    ReleaseKeeps(size, d, story.now);
    ReleaseOpens(size, d, story.now);
    GapIsPlain(buffer, k, if k < |Tokens(buffer)| then Tokens(buffer)[k].start else |buffer|);
    assert HarmlessAt(size, buffer, k) && r.from == d.from;
    GapKeeps(size, r, gap, story.now);
    GapEffects(size, r, r.text + gap, gap, Mean(size, false, story.now, Chars(gap)));
    MeanCharEffects(size, story.now, gap);
  }

  // ----- what a string takes in for good -----

  /** Text that becomes part of a string it follows, whatever comes after. */
  predicate Joining(more: Text) {
    more != [] && (!Starter(more[0]) || StringEnd(more))
  }

  lemma JoiningStays(more: Text, rest: Text, state: State)
    requires Joining(more)
    ensures Joining(more + rest) && (InString(state) ==> !StartsAnew(more + rest, state))
  {
    assert (more + rest)[0] == more[0];
    if |more| > 1 {
      assert (more + rest)[1] == more[1];
    }
  }

  /** What one sequence adds to what is written. */
  ghost predicate Adds(d: Draft, after: Draft, reset: bool, w: Text) {
    if reset then after.done == d.done + [d.text + w] && after.text == [] && after.held.None?
    else after.done == d.done && after.text == d.text + w
  }

  lemma VisitAdds(size: Size, buffer: Text, d: Draft, token: Token) returns (w: Text)
    ensures Adds(d, Visit(size, buffer, d, token), IsReset(ItemOf(buffer, token)), w)
    ensures
      var gap, item := Raw(buffer, d.from, token.start), ItemOf(buffer, token);
      d.held.None? ==>
        && gap <= w
        && (!IsRepeat(item) ==> Visit(size, buffer, d, token).held.None?)
        && (gap == [] && Bare(size, item) ==> item.controls <= w && Visit(size, buffer, d, token).held.None?)
        && (gap == [] && !Bare(size, item) && !IsRepeat(item) && !IsReset(item) && !Excessive(size, item) ==>
           w == item.raw)
  {
    var gap, item := Raw(buffer, d.from, token.start), ItemOf(buffer, token);
    RepeatBare(size, item);
    if IsRepeat(item) {
      RepeatIsNotReset(item);
      w := RepeatAdds(size, d, token, gap, item.raw);
      RepeatAddsControls(size, d, token, gap, item);
    } else {
      w := OtherAdds(size, d, item, gap);
    }
    hide IsRepeat, IsReset, VisitRepeat, VisitOther, Bare;
  }

  lemma RepeatAdds(size: Size, d: Draft, token: Token, gap: Text, raw: Text) returns (w: Text)
    ensures var after := VisitRepeat(size, d, token, gap, raw); after.done == d.done && after.text == d.text + w
    ensures d.held.None? ==> gap <= w
    ensures d.held.None? && token.controls != [] ==>
      w == gap + token.controls && VisitRepeat(size, d, token, gap, raw).held.None?
  {
    hide RepeatText, CountOf, AllDigits, AllOf;
    var after := VisitRepeat(size, d, token, gap, raw);
    if SavedSegments.Joins(d, token, gap) {
      w := [];
      assert d.text + [] == d.text;
    } else {
      var r := Release(size, d);
      w := after.text[|d.text|..];
      assert r.text + gap <= after.text && d.text <= r.text;
      assert after.text == d.text + w;
      assert d.held.None? ==> r == d;
    }
  }

  lemma RepeatAddsControls(size: Size, d: Draft, token: Token, gap: Text, item: Item)
    requires item.Seq? && item.controls == token.controls && IsRepeat(item)
    ensures Bare(size, item) <==> token.controls != []
  {
    RepeatBare(size, item);
  }

  lemma OtherAdds(size: Size, d: Draft, item: Item, gap: Text) returns (w: Text)
    requires item.Seq? && !IsRepeat(item)
    ensures Adds(d, VisitOther(size, d, item, gap), IsReset(item), w) && VisitOther(size, d, item, gap).held.None?
    ensures d.held.None? ==> gap <= w
    ensures d.held.None? && gap == [] && Bare(size, item) ==> item.controls <= w
    ensures d.held.None? && gap == [] && !Bare(size, item) ==>
      w == item.raw || (IsReset(item) && item.controls == []) || Excessive(size, item)
  {
    hide RepeatText, CountOf, IsErase, Excessive, IsReset, CutCount, IsRepeat;
    var r, after := Release(size, d), VisitOther(size, d, item, gap);
    var all := if IsReset(item) then after.done[|d.done|] else after.text;
    w := all[|d.text|..];
    assert d.text <= r.text && r.text + gap <= all;
    assert all == d.text + w;
    if d.held.None? && gap == [] {
      assert r.text + gap == d.text;
      if Bare(size, item) {
        assert d.text + item.controls <= all;
      }
    }
  }

  // ----- where harm is first done -----

  /** Harm is first done by the `k`th sequence or the text before it. */
  ghost predicate FirstHarm(size: Size, buffer: Text, k: nat) {
    && !CutPair(buffer) && k <= |Tokens(buffer)| && !HarmlessAt(size, buffer, k)
    && forall j :: 0 <= j < k ==> HarmlessAt(size, buffer, j)
  }

  /** What is known where harm is first done: an unfinished sequence is there to
      take something in, and so far all was kept. */
  lemma HarmPoint(size: Size, buffer: Text, k: nat)
    requires FirstHarm(size, buffer, k)
    ensures
      var d, story, state := Drafted(size, buffer, k), Told(size, buffer, k), EndState(Drafted(size, buffer, k).text);
      && Written(size, buffer, k) == d && d.held.None? && d.from == From(Tokens(buffer), k)
      && state != Ground && Whole(d.text) && OpenText(size, d.text) && Plain(GapAt(buffer, k))
      && DoneRel(size, d.done, story.done) && Meaning(size, d.text).effects == story.now.effects
      && (Quiet(state, GapAt(buffer, k)) ==>
         k < |Tokens(buffer)| && !GoesOn(size, state, ItemOf(buffer, Tokens(buffer)[k])))
  {
    hide Tokens, OpenText, Quiet, GoesOn, EndState, Meaning, Told, VisitAll, CutPair, DoneRel, HeldRel, Whole,
      RepeatText;
    DraftedAlways(size, buffer, k);
    var d, story := Drafted(size, buffer, k), Told(size, buffer, k);
    ReleaseKeeps(size, d, story.now);
    GapIsPlain(buffer, k, if k < |Tokens(buffer)| then Tokens(buffer)[k].start else |buffer|);
    GroundHarms(size, EndState(Release(size, d).text), GapAt(buffer, k),
      if k < |Tokens(buffer)| then ItemOf(buffer, Tokens(buffer)[k]) else Char(0));
    assert EndState(Release(size, d).text) != Ground;
    assert Release(size, d) == d;
  }

  lemma GroundHarms(size: Size, state: State, gap: Text, item: Item)
    ensures state == Ground ==> Quiet(state, gap) && GoesOn(size, state, item)
  {
  }

  /** An ESC and a backslash are a sequence of their own, which is copied. */
  lemma StringEndIsEscape(size: Size, raw: Text, item: Item)
    requires StringEnd(raw) && ReadsAlone(raw, item)
    ensures item.Seq? && !IsRepeat(item) && !IsReset(item) && !Excessive(size, item)
  {
    hide Items, Whole, EndState;
    var head, rest := [0x1b, 0x5c], raw[2..];
    StringEndReads();
    assert raw == head + rest;
    AppendClosed(head, rest);
    assert Items(raw)[0] == item && Items(head)[0] == Seq(EscKind, [], [], [], [0x5c], [], head);
  }

  lemma StringEndReads()
    ensures Items([0x1b, 0x5c]) == [Seq(EscKind, [], [], [], [0x5c], [], [0x1b, 0x5c])]
    ensures Whole([0x1b, 0x5c]) && EndState([0x1b, 0x5c]) == Ground
  {
    hide Items, Whole, EndState, Inside;
    InsideStart(0x1b);
    assert [0x1b] + [0x5c] == [0x1b, 0x5c];
    InsideEndsWith([0x1b], Escape, NO_TOKEN, 0x5c, EscKind, [0x5c]);
  }

  lemma TokenAlone(buffer: Text, k: nat)
    requires !CutPair(buffer) && k < |Tokens(buffer)|
    ensures
      var item := ItemOf(buffer, Tokens(buffer)[k]);
      item.Seq? && ReadsAlone(item.raw, item) && AllExecuted(item.controls)
  {
    hide Tokens, ReadsAlone;
    TokensGood(buffer);
    TokensShaped(buffer);
    GapIsPlain(buffer, k, Tokens(buffer)[k].start);
    var token := Tokens(buffer)[k];
    assert token in Tokens(buffer);
    assert GoodToken(buffer, token) && Shaped(token);
    assert ItemOf(buffer, token).raw == buffer[token.start..token.end];
  }

  /** Where a sequence does the harm, what is written for it becomes part of a string. */
  lemma StringToken(size: Size, buffer: Text, k: nat) returns (w: Text)
    requires FirstHarm(size, buffer, k) && Quiet(EndState(Drafted(size, buffer, k).text), GapAt(buffer, k))
    ensures k < |Tokens(buffer)| && InString(EndState(Drafted(size, buffer, k).text)) && GapAt(buffer, k) == []
      && Joining(w)
    ensures Adds(Drafted(size, buffer, k), Drafted(size, buffer, k + 1), IsReset(ItemOf(buffer, Tokens(buffer)[k])), w)
    ensures Drafted(size, buffer, k + 1).held.None?
  {
    hide Tokens, EndState, Told, VisitAll, Visit, OpenText, Meaning, DoneRel, CutPair, Whole, IsRepeat, IsReset,
      Excessive, ReadsAlone, HarmlessAt, Raw;
    HarmPoint(size, buffer, k);
    var d, token := Drafted(size, buffer, k), Tokens(buffer)[k];
    var item := ItemOf(buffer, token);
    GapIsPlain(buffer, k, token.start);
    DraftedNext(size, buffer, k);
    TokenAlone(buffer, k);
    w := VisitAdds(size, buffer, d, token);
    if Bare(size, item) {
      BareJoins(size, EndState(d.text), GapAt(buffer, k), item, w);
    } else {
      StringEndIsEscape(size, item.raw, item);
    }
  }

  lemma BareJoins(size: Size, state: State, gap: Text, item: Item, w: Text)
    requires Bare(size, item) && AllExecuted(item.controls) && !Quiet(state, item.controls) && Quiet(state, gap)
    requires gap == [] ==> item.controls <= w
    ensures InString(state) && gap == [] && Joining(w)
  {
    assert AllExecuted(item.controls);
    if gap == [] {
      assert item.controls != [] && w[0] == item.controls[0];
    }
  }

  // ----- what stays written -----

  /** The `c`th segment starts with this text. */
  ghost predicate StartsWith(d: Draft, c: nat, text: Text) {
    if c < |d.done| then text <= d.done[c] else c == |d.done| && text <= d.text
  }

  /** The `c`th part of the output started with these effects. */
  ghost predicate ToldFirst(story: Story, c: nat, effects: seq<Effect>) {
    if c < |story.done| then effects <= story.done[c] else c == |story.done| && effects <= story.now.effects
  }

  lemma StartsNext(d: Draft, after: Draft, reset: bool, w: Text, c: nat, text: Text)
    requires Adds(d, after, reset, w) && StartsWith(d, c, text)
    ensures StartsWith(after, c, text)
  {
    assert d.text <= d.text + w;
  }

  /** What was written just now stays at the start of its segment. */
  lemma StartsHere(d: Draft, after: Draft, reset: bool, w: Text, first: Text)
    requires Adds(d, after, reset, w) && first <= w
    ensures StartsWith(after, |d.done|, d.text + first)
  {
    assert d.text + first <= d.text + w;
  }

  lemma {:induction false} ToldNext(size: Size, story: Story, items: seq<Item>, c: nat, effects: seq<Effect>)
    requires ToldFirst(story, c, effects)
    ensures ToldFirst(Tell(size, story, items), c, effects)
  {
    hide Step, Controls;
    if items != [] {
      var first, item := items[..|items| - 1], items[|items| - 1];
      ToldNext(size, story, first, c, effects);
      var before := Tell(size, story, first);
      StepGrows(size, false, before.now, item);
    }
  }

  lemma {:induction false} StartsOn(size: Size, buffer: Text, k: nat, m: nat, c: nat, text: Text, effects: seq<Effect>)
    requires !CutPair(buffer) && k <= m <= |Tokens(buffer)|
    requires StartsWith(Drafted(size, buffer, k), c, text) && ToldFirst(Told(size, buffer, k), c, effects)
    ensures StartsWith(Drafted(size, buffer, m), c, text) && ToldFirst(Told(size, buffer, m), c, effects)
    decreases m - k
  {
    hide Tokens, CutPair, Visit, VisitAll, Told, IsReset, Adds, StartsWith, ToldFirst;
    if k < m {
      var token := Tokens(buffer)[k];
      GapIsPlain(buffer, k, token.start);
      DraftedNext(size, buffer, k);
      var w := VisitAdds(size, buffer, Drafted(size, buffer, k), token);
      StartsNext(Drafted(size, buffer, k), Drafted(size, buffer, k + 1), IsReset(ItemOf(buffer, token)), w, c, text);
      ToldNext(size, Told(size, buffer, k),
        Chars(Raw(buffer, From(Tokens(buffer), k), token.start)) + [ItemOf(buffer, token)], c, effects);
      StartsOn(size, buffer, k + 1, m, c, text, effects);
    }
  }

  /** What the last segment ends with. */
  lemma SegmentsEnd(size: Size, buffer: Text)
    requires !CutPair(buffer)
    ensures
      var n := |Tokens(buffer)|;
      var d, r, story, gap :=
        Drafted(size, buffer, n), Written(size, buffer, n), Told(size, buffer, n), GapAt(buffer, n);
      && d.text <= r.text && r.done == d.done && Segments(size, buffer) == r.done + [r.text + gap]
      && Effects(size, buffer) == story.done + [story.now.effects + CharEffects(gap)]
  {
    hide Tokens, Tell, VisitAll, Visit, Mean, CharEffects, Step, Woven, CutPair, RepeatText;
    var n := |Tokens(buffer)|;
    assert Tokens(buffer)[..n] == Tokens(buffer);
    GapIsPlain(buffer, n, |buffer|);
    FromIs(size, buffer, n);
    var story, tail := Told(size, buffer, n), GapAt(buffer, n);
    TellEnds(size, buffer, story, tail);
    MeanCharEffects(size, story.now, tail);
  }

  lemma FromIs(size: Size, buffer: Text, k: nat)
    requires !CutPair(buffer) && k <= |Tokens(buffer)|
    ensures Drafted(size, buffer, k).from == From(Tokens(buffer), k)
  {
    hide Tokens, Visit, Tell, Woven;
    if k == 0 {
      assert Tokens(buffer)[..0] == [];
    } else {
      GapIsPlain(buffer, k - 1, Tokens(buffer)[k - 1].start);
      DraftedNext(size, buffer, k - 1);
    }
  }

  lemma InTheEnd(size: Size, buffer: Text, k: nat, c: nat, text: Text, effects: seq<Effect>)
    requires !CutPair(buffer) && k <= |Tokens(buffer)|
    requires StartsWith(Drafted(size, buffer, k), c, text) && ToldFirst(Told(size, buffer, k), c, effects)
    ensures c < |Segments(size, buffer)| && text <= Segments(size, buffer)[c]
    ensures c < |Effects(size, buffer)| && effects <= Effects(size, buffer)[c]
  {
    hide Tokens, CutPair, VisitAll, Told, Written, Segments, Effects, CharEffects;
    var n := |Tokens(buffer)|;
    StartsOn(size, buffer, k, n, c, text, effects);
    SegmentsEnd(size, buffer);
  }

  /** The text before a sequence is written, and what it drew is told, to the end. */
  lemma GapInTheEnd(size: Size, buffer: Text, k: nat)
    requires !CutPair(buffer) && k <= |Tokens(buffer)| && Drafted(size, buffer, k).held.None?
    requires |Drafted(size, buffer, k).done| == |Told(size, buffer, k).done|
    ensures
      var d, story, gap := Drafted(size, buffer, k), Told(size, buffer, k), GapAt(buffer, k);
      var c := |d.done|;
      && c < |Segments(size, buffer)| && d.text + gap <= Segments(size, buffer)[c]
      && c < |Effects(size, buffer)| && story.now.effects + CharEffects(gap) <= Effects(size, buffer)[c]
  {
    hide Tokens, CutPair, VisitAll, Told, Segments, Effects, CharEffects, Visit, Tell, Mean, IsReset, RepeatText;
    var d, story, gap := Drafted(size, buffer, k), Told(size, buffer, k), GapAt(buffer, k);
    if k == |Tokens(buffer)| {
      SegmentsEnd(size, buffer);
      assert Written(size, buffer, k) == d;
    } else {
      var token := Tokens(buffer)[k];
      GapIsPlain(buffer, k, token.start);
      FromIs(size, buffer, k);
      DraftedNext(size, buffer, k);
      var w := VisitAdds(size, buffer, d, token);
      StartsHere(d, Drafted(size, buffer, k + 1), IsReset(ItemOf(buffer, token)), w, gap);
      TellJoins(size, story, Chars(gap), [ItemOf(buffer, token)]);
      TellChars(size, story, gap);
      MeanCharEffects(size, story.now, gap);
      var middle := story.(now := Mean(size, false, story.now, Chars(gap)));
      ToldNext(size, middle, [ItemOf(buffer, token)], |d.done|, middle.now.effects);
      InTheEnd(size, buffer, k + 1, |d.done|, d.text + gap, middle.now.effects);
    }
  }

  // ----- harm that lasts -----

  /** Text that a string takes in shows, whatever is written and told later. */
  lemma JoinedShows(size: Size, text: Text, w: Text, segment: Text, effects: seq<Effect>)
    requires Whole(text) && InString(EndState(text)) && Unshortened(size, text)
    requires Joining(w) && text + w <= segment && Meaning(size, text).effects <= effects
    ensures Meaning(size, segment).effects != effects
  {
    hide Items, Whole, EndState, Meaning, Joining, StartsAnew, Unshortened;
    var rest := segment[|text + w|..];
    assert segment == text + (w + rest);
    JoiningStays(w, rest, EndState(text));
    JoiningIsText(w + rest);
    var i := StringDiffers(size, text, w + rest);
    assert effects[i] == Meaning(size, text).effects[i];
  }

  lemma JoiningIsText(more: Text)
    requires Joining(more)
    ensures more != []
  {
  }

  /** The unit ends such a sequence, which then does something of its own. */
  predicate Ends(state: State, unit: Unit) {
    match state
    case Escape => 0x30 <= unit <= 0x7e && EscapeString(unit) == Ground
    case EscapeIntermediate => 0x30 <= unit <= 0x7e
    case Csi | CsiParam | CsiIntermediate => 0x40 <= unit <= 0x7e && unit != 0x62 && unit != 0x4a
    case _ => false
  }

  /** The text's first unit that is no control ends such a sequence. */
  predicate EndsFirst(state: State, gap: Text) {
    Leading(gap) < |gap| && Ends(state, gap[Leading(gap)])
  }

  /** The sequence that the unit ends, read with what came before it. */
  function EndedItem(u: Text, state: State, token: Token, unit: Unit): Item {
    Seq(if state == Escape || state == EscapeIntermediate then EscKind else CsiKind,
        token.prefix, token.params, token.intermediates, [unit], token.controls, u + [unit])
  }

  lemma EndedReads(u: Text, state: State, token: Token, unit: Unit)
    requires Inside(u, state, token) && Ends(state, unit)
    ensures Items(u + [unit]) == [EndedItem(u, state, token, unit)] && Whole(u + [unit])
      && EndState(u + [unit]) == Ground
  {
    EndedTurn(u, state, token, unit);
    hide Inside, Items, Whole, EndState, ReadOther;
    InsideEndsWith(u, state, token, unit, EndedItem(u, state, token, unit).kind, [unit]);
  }

  lemma EndedTurn(u: Text, state: State, token: Token, unit: Unit)
    requires Ends(state, unit)
    ensures !Starter(unit)
    ensures ReadOther(At(u, state, token), unit)
         == Finish(At(u, state, token), |u| + 1, EndedItem(u, state, token, unit).kind, [unit])
  {
  }

  lemma EndedDoes(size: Size, sem: Sem, u: Text, state: State, token: Token, unit: Unit) returns (e: Effect)
    requires Ends(state, unit) && sem.shortened == None
    ensures Step(size, true, sem, EndedItem(u, state, token, unit)).effects
      == sem.effects + Controls(token.controls) + [e]
    ensures !e.Print?
  {
    hide Controls, FirstParam, HookPeriods, CountOf, Limit, IsCounted, EscapeString;
    var item := EndedItem(u, state, token, unit);
    var before, after := sem.effects + Controls(token.controls), Step(size, true, sem, item).effects;
    assert !IsRepeat(item) && !IsErase(item);
    e := after[|before|];
  }

  /** Where text ends an unfinished sequence, that shows whatever comes later. */
  lemma EndedShows(size: Size, text: Text, gap: Text, segment: Text, effects: seq<Effect>)
    requires EndState(text) != Ground && Whole(text) && OpenText(size, text)
    requires Plain(gap) && EndsFirst(EndState(text), gap)
    requires text + gap <= segment && Meaning(size, text).effects + CharEffects(gap) <= effects
    ensures Meaning(size, segment).effects != effects
  {
    hide Items, Whole, EndState, Meaning, Opens, EndsFirst, CharEffects, Plain, Joining, Inside, StartsAnew;
    var x, u, token :| Opened(size, text, x, u, token);
    MeaningOpened(size, text, x, u, token);
    OpenedParts(size, text, x, u, token);
    if InString(EndState(x)) && u == [0x1b] && gap != [] && gap[0] == 0x5c {
      StepGrows(size, true, Meaning(size, x), OpenItem(u, EndState(text), token));
      assert x + (u + gap) == text + gap;
      EscapeJoins(gap);
      JoinedShows(size, x, u + gap, segment, effects);
    } else {
      EndedFirst(size, text, x, u, token, gap, segment, effects);
    }
  }

  lemma EscapeJoins(gap: Text)
    requires gap != [] && gap[0] == 0x5c
    ensures Joining([0x1b] + gap)
  {
    assert ([0x1b] + gap)[1] == 0x5c;
  }

  /** The sequence that the first unit which is no control ends. */
  lemma EndedAlone(size: Size, text: Text, x: Text, u: Text, token: Token, c: Text, unit: Unit)
    requires Opened(size, text, x, u, token) && AllExecuted(c) && Ends(EndState(text), unit)
    requires !(InString(EndState(x)) && u == [0x1b] && (c + [unit])[0] == 0x5c)
    ensures
      var state, read := EndState(text), token.(controls := token.controls + c);
      var ended := text + (c + [unit]);
      && Whole(ended) && EndState(ended) == Ground
      && Meaning(size, ended) == Step(size, true, Meaning(size, x), EndedItem(u + c, state, read, unit))
  {
    var state, read := EndState(text), token.(controls := token.controls + c);
    hide Items, Whole, EndState, Meaning, Ends, AllExecuted, Inside, StartsAnew, Step, EndedItem, Mean;
    OpenedParts(size, text, x, u, token);
    EndsNoString(state, unit);
    QuietInside(u, state, token, c);
    EndedReads(u + c, state, read, unit);
    var v := u + c + [unit];
    assert v == u + (c + [unit]) && x + v == text + (c + [unit]);
    if EndState(x) != Ground {
      StartsLonger(u, c + [unit], EndState(x));
    }
    Append(size, x, v);
    MeanOne(size, true, Meaning(size, x), EndedItem(u + c, state, read, unit));
  }

  lemma EndsNoString(state: State, unit: Unit)
    requires Ends(state, unit)
    ensures !InString(state) && state != Ground && !Executed(unit)
  {
  }

  lemma MeaningGrows(size: Size, text: Text, rest: Text)
    requires Whole(text) && EndState(text) == Ground
    ensures Meaning(size, text).effects <= Meaning(size, text + rest).effects
  {
    AppendClosed(text, rest);
    hide Items, Whole, EndState, Mean;
    MeanJoins(size, true, FRESH, Items(text), Items(rest));
    MeanGrows(size, true, Meaning(size, text), Items(rest));
  }

  lemma EndedFirst(size: Size, text: Text, x: Text, u: Text, token: Token, gap: Text, segment: Text,
      effects: seq<Effect>)
    requires Opened(size, text, x, u, token) && !(InString(EndState(x)) && u == [0x1b] && gap != [] && gap[0] == 0x5c)
    requires EndsFirst(EndState(text), gap)
    requires text + gap <= segment && Meaning(size, text).effects + CharEffects(gap) <= effects
    ensures Meaning(size, segment).effects != effects
  {
    hide Items, Whole, EndState, Meaning, Ends, CharEffects, AllExecuted, Opened, Step, Controls, Leading, Executed,
      Inside, StartsAnew;
    var c, unit, more := LeadingParts(gap);
    OpenedParts(size, text, x, u, token);
    EndsNoString(EndState(text), unit);
    TextDid(size, text, x, u, token, c, more);
    var ended := text + (c + [unit]);
    Prefixes(text, c, unit, more, gap, segment);
    var e := EndedWritten(size, text, x, u, token, c, unit, segment);
    EffectAt(Meaning(size, x).effects + Controls(token.controls + c), e, more, Meaning(size, segment).effects, effects);
  }

  /** What is written does something of its own where the output drew the unit. */
  lemma EndedWritten(size: Size, text: Text, x: Text, u: Text, token: Token, c: Text, unit: Unit,
      segment: Text)
    returns (e: Effect)
    requires Opened(size, text, x, u, token) && AllExecuted(c) && Ends(EndState(text), unit)
    requires !(InString(EndState(x)) && u == [0x1b] && (c + [unit])[0] == 0x5c) && text + (c + [unit]) <= segment
    ensures Meaning(size, x).effects + Controls(token.controls + c) + [e] <= Meaning(size, segment).effects && !e.Print?
  {
    hide Items, Whole, EndState, Meaning, Ends, AllExecuted, Opened, Step, Controls, Inside, StartsAnew;
    EndedAlone(size, text, x, u, token, c, unit);
    OpenedParts(size, text, x, u, token);
    var ended := text + (c + [unit]);
    var rest := segment[|ended|..];
    assert segment == ended + rest;
    MeaningGrows(size, ended, rest);
    e := EndedDoes(size, Meaning(size, x), u + c, EndState(text), token.(controls := token.controls + c), unit);
  }

  lemma LeadingParts(gap: Text) returns (c: Text, unit: Unit, more: Text)
    requires Leading(gap) < |gap|
    ensures gap == c + more && AllExecuted(c) && more != [] && more[0] == unit == gap[Leading(gap)]
      && (c + [unit])[0] == gap[0]
  {
    var n := Leading(gap);
    c, unit, more := gap[..n], gap[n], gap[n..];
  }

  lemma Prefixes(text: Text, c: Text, unit: Unit, more: Text, gap: Text, segment: Text)
    requires gap == c + more && more != [] && more[0] == unit && text + gap <= segment
    ensures text + (c + [unit]) <= segment
  {
    var ended := text + (c + [unit]);
    assert ended <= text + gap by {
      assert c + [unit] == gap[..|c| + 1];
    }
  }

  lemma EffectAt(before: seq<Effect>, e: Effect, more: Text, left: seq<Effect>, right: seq<Effect>)
    requires before + [e] <= left && before + CharEffects(more) <= right && more != [] && !Executed(more[0])
      && !e.Print?
    ensures left != right
  {
    assert left[|before|] == e;
    assert right[|before|] == CharEffects(more)[0];
  }

  // ----- exactly when -----

  lemma OpenString(size: Size, text: Text)
    requires EndState(text) != Ground && OpenText(size, text)
    ensures Unshortened(size, text)
  {
    hide Items, EndState, Meaning, Opens, Mean;
    var x, u, token :| Opened(size, text, x, u, token);
    MeaningOpened(size, text, x, u, token);
  }

  /** Where harm is first done by a sequence, the next point is not kept. */
  lemma TokenShows(size: Size, buffer: Text, k: nat)
    requires FirstHarm(size, buffer, k) && Quiet(EndState(Drafted(size, buffer, k).text), GapAt(buffer, k))
    ensures k < |Tokens(buffer)| && !KeptAt(size, buffer, k + 1)
  {
    hide Tokens, CutPair, Told, VisitAll, Visit, IsReset, Meaning, EndState, Whole, OpenText, Quiet, GoesOn, GapAt,
      CharEffects, Joining, HarmlessAt, Unshortened;
    HarmPoint(size, buffer, k);
    var d, story := Drafted(size, buffer, k), Told(size, buffer, k);
    var w := StringToken(size, buffer, k);
    OpenString(size, d.text);
    var token, next := Tokens(buffer)[k], Drafted(size, buffer, k + 1);
    GapIsPlain(buffer, k, token.start);
    DraftedNext(size, buffer, k);
    assert |d.done| == |story.done|;
    ToldNext(size, story, Chars(Raw(buffer, From(Tokens(buffer), k), token.start)) + [ItemOf(buffer, token)],
      |d.done|, story.now.effects);
    if KeptAt(size, buffer, k + 1) {
      var told, gap := Told(size, buffer, k + 1), GapAt(buffer, k + 1);
      assert Written(size, buffer, k + 1) == next;
      if IsReset(ItemOf(buffer, token)) {
        assert next.done[|d.done|] == d.text + w;
        JoinedShows(size, d.text, w, next.done[|d.done|], told.done[|d.done|]);
      } else {
        assert next.text == d.text + w;
        JoinedShows(size, d.text, w, next.text + gap, told.now.effects + CharEffects(gap));
      }
    }
  }

  /** Where text does the harm, that point is not kept. */
  lemma GapShows(size: Size, buffer: Text, k: nat)
    requires FirstHarm(size, buffer, k) && !Quiet(EndState(Drafted(size, buffer, k).text), GapAt(buffer, k))
    requires !Echo(EndState(Drafted(size, buffer, k).text), GapAt(buffer, k))
    ensures !KeptAt(size, buffer, k)
  {
    hide Tokens, CutPair, Told, VisitAll, Meaning, EndState, Whole, OpenText, Quiet, GoesOn, GapAt, CharEffects,
      HarmlessAt, Echo, DoneRel, Plain;
    HarmPoint(size, buffer, k);
    GapBreaks(size, Drafted(size, buffer, k).text, GapAt(buffer, k));
  }

  lemma {:induction false} FirstHarmOf(size: Size, buffer: Text, m: nat) returns (k: nat)
    requires !CutPair(buffer) && m <= |Tokens(buffer)| && !HarmlessAt(size, buffer, m)
    ensures FirstHarm(size, buffer, k)
    decreases m
  {
    hide Tokens, CutPair, HarmlessAt;
    if j: nat :| j < m && !HarmlessAt(size, buffer, j) {
      k := FirstHarmOf(size, buffer, j);
    } else {
      k := m;
    }
  }

  /** No left-out sequence that ended a control sequence has a `b` after it. */
  ghost predicate NoEcho(size: Size, buffer: Text) {
    forall k :: 0 <= k <= |Tokens(buffer)| ==> !Echo(EndState(Written(size, buffer, k).text), GapAt(buffer, k))
  }

  /** Rewriting keeps what an output does at every point of it exactly when
      nothing that is written is taken in by an unfinished sequence. */
  lemma KeepsThroughoutExactlyWhen(size: Size, buffer: Text)
    requires !CutPair(buffer) && NoEcho(size, buffer)
    ensures Throughout(size, buffer) <==> Harmless(size, buffer)
  {
    hide Tokens, CutPair, HarmlessAt, KeptAt, Echo, Written, GapAt, EndState, Quiet, VisitAll;
    if Harmless(size, buffer) {
      forall k | 0 <= k <= |Tokens(buffer)|
        ensures KeptAt(size, buffer, k)
      {
        HarmlessKeeps(size, buffer, k);
      }
    } else {
      var m :| 0 <= m <= |Tokens(buffer)| && !HarmlessAt(size, buffer, m);
      var k := FirstHarmOf(size, buffer, m);
      assert !Echo(EndState(Written(size, buffer, k).text), GapAt(buffer, k));
      HarmPoint(size, buffer, k);
      if Quiet(EndState(Drafted(size, buffer, k).text), GapAt(buffer, k)) {
        TokenShows(size, buffer, k);
      } else {
        GapShows(size, buffer, k);
      }
    }
  }

  /** The segments do what the output does, part by part. */
  ghost predicate SegmentsKeep(size: Size, buffer: Text) {
    && |Segments(size, buffer)| == |Effects(size, buffer)|
    && forall j :: 0 <= j < |Segments(size, buffer)| ==>
       Meaning(size, Segments(size, buffer)[j]).effects == Effects(size, buffer)[j]
  }

  /** What a sequence adds to a string is written to the end. */
  lemma TokenInTheEnd(size: Size, buffer: Text, k: nat, w: Text)
    requires !CutPair(buffer) && k < |Tokens(buffer)| && |Drafted(size, buffer, k).done| == |Told(size, buffer, k).done|
    requires Adds(Drafted(size, buffer, k), Drafted(size, buffer, k + 1), IsReset(ItemOf(buffer, Tokens(buffer)[k])), w)
    ensures
      var d, story := Drafted(size, buffer, k), Told(size, buffer, k);
      var c := |d.done|;
      && c < |Segments(size, buffer)| && d.text + w <= Segments(size, buffer)[c]
      && c < |Effects(size, buffer)| && story.now.effects <= Effects(size, buffer)[c]
  {
    hide Tokens, CutPair, VisitAll, Told, Segments, Effects, Visit, Tell, IsReset, Adds, StartsWith;
    var d, story, token := Drafted(size, buffer, k), Told(size, buffer, k), Tokens(buffer)[k];
    GapIsPlain(buffer, k, token.start);
    DraftedNext(size, buffer, k);
    StartsHere(d, Drafted(size, buffer, k + 1), IsReset(ItemOf(buffer, token)), w, w);
    ToldNext(size, story, Chars(Raw(buffer, From(Tokens(buffer), k), token.start)) + [ItemOf(buffer, token)],
      |d.done|, story.now.effects);
    InTheEnd(size, buffer, k + 1, |d.done|, d.text + w, story.now.effects);
  }

  /** Harm first done to a string, or by text that ends a sequence, shows in the
      segments, whatever comes before and after. */
  lemma HarmShows(size: Size, buffer: Text, k: nat)
    requires FirstHarm(size, buffer, k)
    requires
      var state := EndState(Drafted(size, buffer, k).text);
      InString(state) || AllExecuted(GapAt(buffer, k)) || EndsFirst(state, GapAt(buffer, k))
    ensures !SegmentsKeep(size, buffer)
  {
    hide Tokens, CutPair, Told, VisitAll, Meaning, EndState, Whole, OpenText, GoesOn, GapAt, CharEffects, HarmlessAt,
      EndsFirst, Segments, Effects, Joining, Unshortened;
    HarmPoint(size, buffer, k);
    var d, story, gap := Drafted(size, buffer, k), Told(size, buffer, k), GapAt(buffer, k);
    var c := |d.done|;
    assert |d.done| == |story.done|;
    if Quiet(EndState(d.text), gap) {
      var w := StringToken(size, buffer, k);
      OpenString(size, d.text);
      TokenInTheEnd(size, buffer, k, w);
      JoinedShows(size, d.text, w, Segments(size, buffer)[c], Effects(size, buffer)[c]);
    } else {
      GapInTheEnd(size, buffer, k);
      if InString(EndState(d.text)) {
        PlainJoins(gap);
        OpenString(size, d.text);
        assert story.now.effects <= story.now.effects + CharEffects(gap);
        JoinedShows(size, d.text, gap, Segments(size, buffer)[c], Effects(size, buffer)[c]);
      } else {
        EndedShows(size, d.text, gap, Segments(size, buffer)[c], Effects(size, buffer)[c]);
      }
    }
  }

  lemma PlainJoins(gap: Text)
    requires Plain(gap) && gap != []
    ensures Joining(gap)
  {
  }

  /** Each text that an unfinished sequence could take in follows a string, is
      controls, or first ends that sequence. */
  ghost predicate Settled(size: Size, buffer: Text) {
    forall k :: 0 <= k <= |Tokens(buffer)| ==>
      var state, gap := EndState(Written(size, buffer, k).text), GapAt(buffer, k);
      state == Ground || InString(state) || AllExecuted(gap) || EndsFirst(state, gap)
  }

  /** For such outputs the segments do what the output does exactly when nothing
      that is written is taken in by an unfinished sequence. */
  lemma SegmentsKeepExactlyWhen(size: Size, buffer: Text)
    requires !CutPair(buffer) && Settled(size, buffer)
    ensures SegmentsKeep(size, buffer) <==> Harmless(size, buffer)
  {
    hide Tokens, CutPair, HarmlessAt, Written, GapAt, EndState, Quiet, VisitAll, Segments, Effects, EndsFirst,
      AllExecuted, Meaning;
    if Harmless(size, buffer) {
      SegmentsKeepMeaning(size, buffer);
    } else {
      var m :| 0 <= m <= |Tokens(buffer)| && !HarmlessAt(size, buffer, m);
      var k := FirstHarmOf(size, buffer, m);
      HarmPoint(size, buffer, k);
      assert EndState(Written(size, buffer, k).text) != Ground;
      HarmShows(size, buffer, k);
    }
  }
}
