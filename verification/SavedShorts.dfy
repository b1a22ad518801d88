/** Every shortened repeat that is written is followed by the hook that makes up
    for it, with the counts the rule gives. */
module SavedShorts {
  import opened Basics
  import RepeatScreen
  import opened VtScanner
  import opened VtItems
  import opened VtTokens
  import opened VtPieces
  import opened VtOpen
  import opened SavedMeaning
  import opened SavedSegments

  predicate Shortened(item: Item) {
    IsRepeat(item) && item.controls == [] && FirstParam(item.params).1 != []
  }

  /** A shortened repeat and the hook after it are what the rule makes of the
      whole count. */
  predicate Matches(size: Size, item: Item, next: Item) {
    && item.Seq? && HookPeriods(next).Some?
    && var kept, periods := CountOf(item.params), HookPeriods(next).value;
       var count := kept + periods * size.rule.period;
       count > size.rule.settled && kept == RepeatScreen.Kept(size.rule, count)
       && periods == RepeatScreen.Omitted(size.rule, count)
  }

  ghost predicate AllHooked(size: Size, items: seq<Item>) {
    forall i :: 0 <= i < |items| && Shortened(items[i]) ==> i + 1 < |items| && Matches(size, items[i], items[i + 1])
  }

  lemma HookedJoin(size: Size, a: seq<Item>, b: seq<Item>)
    requires AllHooked(size, a) && AllHooked(size, b)
    ensures AllHooked(size, a + b)
  {
    hide Shortened, Matches;
    var all := a + b;
    forall i | 0 <= i < |all| && Shortened(all[i])
      ensures i + 1 < |all| && Matches(size, all[i], all[i + 1])
    {
      if i < |a| {
        assert all[i] == a[i] && all[i + 1] == a[i + 1];
      } else {
        assert all[i] == b[i - |a|] && all[i + 1] == b[i - |a| + 1];
      }
    }
  }

  lemma CharsHooked(size: Size, text: Text)
    ensures AllHooked(size, Chars(text))
  {
    CharsSize(text);
    hide Matches;
  }

  lemma OneHooked(size: Size, item: Item)
    requires !Shortened(item)
    ensures AllHooked(size, [item])
  {
    hide Matches, Shortened;
  }

  lemma AppendHooked(size: Size, text: Text, more: Text)
    requires Whole(text) && Whole(more) && (EndState(text) == Ground || StartsAnew(more, EndState(text)))
    requires AllHooked(size, Items(text)) && AllHooked(size, Items(more))
    ensures AllHooked(size, Items(text + more))
  {
    hide Items, Whole, EndState, StartsAnew, AllHooked;
    if EndState(text) == Ground {
      AppendClosed(text, more);
    } else {
      AppendAnew(text, more);
    }
    HookedJoin(size, Items(text), Items(more));
  }

  /** Controls that run in an unfinished sequence leave it the last item. */
  lemma InsideHooked(size: Size, text: Text, controls: Text)
    requires EndState(text) != Ground && !InString(EndState(text)) && OpenText(size, text) && AllExecuted(controls)
    requires AllHooked(size, Items(text))
    ensures AllHooked(size, Items(text + controls))
  {
    hide Items, EndState, Whole, Opens, Matches, Meaning;
    var x, u, token :| Opened(size, text, x, u, token);
    var state, token' := EndState(text), token.(controls := token.controls + controls);
    MeaningOpened(size, text, x, u, token);
    QuietOpens(text, x, u, state, token, controls);
    OpensReads(text + controls, x, u + controls, state, token');
    LastChanged(size, Items(x), OpenItem(u, state, token), OpenItem(u + controls, state, token'));
  }

  lemma LastChanged(size: Size, items: seq<Item>, a: Item, b: Item)
    requires AllHooked(size, items + [a]) && a.Seq? && b.Seq? && a.kind == b.kind == Ignored
    ensures AllHooked(size, items + [b])
  {
    var before, after := items + [a], items + [b];
    assert !Shortened(b);
    hide HookPeriods, Shortened, FirstParam, Matches;
    forall i | 0 <= i < |after| && Shortened(after[i])
      ensures i + 1 < |after| && Matches(size, after[i], after[i + 1])
    {
      assert i < |items| && after[i] == before[i];
      NoHook(size, before[i], a);
      assert before[|items|] == a;
      assert i + 1 < |before| && Matches(size, before[i], before[i + 1]);
      assert i + 1 < |items| && after[i + 1] == before[i + 1];
    }
  }

  lemma NoHook(size: Size, item: Item, next: Item)
    requires next.Seq? && next.kind == Ignored
    ensures !Matches(size, item, next)
  {
  }

  /** Text that leaves an unfinished sequence as it was. */
  lemma QuietHooked(size: Size, text: Text, gap: Text)
    requires Whole(text) && Plain(gap) && OpenText(size, text) && Quiet(EndState(text), gap)
    requires AllHooked(size, Items(text))
    ensures AllHooked(size, Items(text + gap))
  {
    hide Items, EndState, Whole, AllHooked, OpenText;
    if gap == [] {
      AppendNothing(text);
    } else if EndState(text) == Ground {
      PlainReads(gap);
      CharsHooked(size, gap);
      AppendHooked(size, text, gap);
    } else {
      InsideHooked(size, text, gap);
    }
  }

  /** A repeat is written with its hook, if it is shortened. */
  lemma RepeatHooked(size: Size, count: nat, verbatim: Option<Text>)
    requires 0 < count && (verbatim.Some? ==> ReadsAsRepeat(verbatim.value, count))
    ensures AllHooked(size, Items(RepeatText(size, count, verbatim)))
  {
    if count > size.rule.settled {
      LongHooked(size, count, verbatim);
    } else if verbatim.Some? {
      var item := RepeatItem(verbatim.value, count);
      OneHooked(size, item);
    } else {
      DigitsAreParams(Printed(count));
      RepeatReads(Printed(count));
      FirstParamReads(count, []);
      AppendNothing(Printed(count));
      OneHooked(size, Seq(CsiKind, [], Printed(count), [], [0x62], [], CsiText(Printed(count), 0x62)));
    }
  }

  lemma LongHooked(size: Size, count: nat, verbatim: Option<Text>)
    requires count > size.rule.settled
    ensures AllHooked(size, Items(RepeatText(size, count, verbatim)))
  {
    hide *;
    var kept, periods := LongParts(size, count, verbatim);
    var params := Printed(kept) + [0x3b, 0x31];
    var short, hook := CsiText(params, 0x62), HookText(periods);
    ShortenedParams(kept);
    RepeatReads(params);
    HookReads(periods);
    AppendClosed(short, hook);
    var first, second := Seq(CsiKind, [], params, [], [0x62], [], short), Seq(StringKind, [], [], [], [], [], hook);
    JoinedItems(short, hook, first, second);
    PairHooked(size, first, second, kept, periods, count);
  }

  lemma LongParts(size: Size, count: nat, verbatim: Option<Text>) returns (kept: nat, periods: nat)
    requires count > size.rule.settled
    ensures 0 < kept <= MAX_PARAM && kept + periods * size.rule.period == count
    ensures kept == RepeatScreen.Kept(size.rule, count) && periods == RepeatScreen.Omitted(size.rule, count)
    ensures RepeatText(size, count, verbatim) == CsiText(Printed(kept) + [0x3b, 0x31], 0x62) + HookText(periods)
  {
    hide CsiText, HookText;
    kept, periods := RepeatScreen.Kept(size.rule, count), RepeatScreen.Omitted(size.rule, count);
    RepeatScreen.KeptBounds(size.rule, count);
  }

  lemma JoinedItems(short: Text, hook: Text, first: Item, second: Item)
    requires VtItems.Joins(short, hook) && Items(short) == [first] && Items(hook) == [second]
    ensures Items(short + hook) == [first, second]
  {
    hide Items;
    assert [first] + [second] == [first, second];
  }

  lemma PairHooked(size: Size, first: Item, second: Item, kept: nat, periods: nat, count: nat)
    requires first.Seq? && CountOf(first.params) == kept && HookPeriods(second) == Some(periods)
    requires count > size.rule.settled && kept + periods * size.rule.period == count
    requires kept == RepeatScreen.Kept(size.rule, count) && periods == RepeatScreen.Omitted(size.rule, count)
    ensures AllHooked(size, [first, second])
  {
    hide FirstParam, CountOf, RepeatScreen.Kept, RepeatScreen.Omitted;
    assert !Shortened(second);
  }

  // ----- what is written -----

  ghost predicate DraftHooked(size: Size, d: Draft) {
    AllHooked(size, Items(d.text)) && forall j :: 0 <= j < |d.done| ==> AllHooked(size, Items(d.done[j]))
  }

  lemma ReleaseHooked(size: Size, d: Draft, now: Sem)
    requires NowRel(size, d, now) && DraftHooked(size, d)
    ensures DraftHooked(size, Release(size, d))
  {
    hide Items, Whole, EndState, Meaning, AllHooked, RepeatText;
    if d.held.Some? {
      var held := d.held.value;
      assert HeldRel(held, Meaning(size, d.text), now);
      RepeatHooked(size, held.count, held.verbatim);
      RepeatMeans(size, held.count, held.verbatim, Meaning(size, d.text));
      AppendHooked(size, d.text, RepeatText(size, held.count, held.verbatim));
    }
  }

  lemma MoveHooked(size: Size, d: Draft, after: Draft)
    requires DraftHooked(size, d) && after.done == d.done && AllHooked(size, Items(after.text))
    ensures DraftHooked(size, after)
  {
  }

  /** A repeat that has something to repeat is held back, or written with its hook. */
  lemma WriteHooked(size: Size, d: Draft, r: Draft, token: Token, gap: Text, now: Sem, item: Item)
    requires r == Release(size, d) && r.previous == d.previous && r.held.None? && item.Seq? && IsRepeat(item)
    requires GapRel(size, r, r.text + gap, gap, Mean(size, false, now, Chars(gap)))
    requires !SavedSegments.Joins(d, token, gap) && !Void(d, token, gap)
    requires token.controls == item.controls && token.params == item.params
    requires ReadsAlone(item.raw, item) && EndState(item.raw) == Ground
    requires EndState(r.text + gap) != Ground ==> StartsAnew(item.raw, EndState(r.text + gap))
    requires DraftHooked(size, r) && AllHooked(size, Items(r.text + gap))
    ensures
      var after := VisitRepeat(size, d, token, gap, item.raw);
      after.done == r.done && AllHooked(size, Items(after.text)) && DraftHooked(size, after)
  {
    hide CountOf, EndState, Mean, Meaning, ReadsAlone, RepeatText, Whole, AllDigits, Chars, OpenText, Items, AllHooked,
      ReadsAsRepeat, StartsAnew;
    var text, count, last := r.text + gap, CountOf(item.params), GapEnd(gap);
    var verbatim := if AllDigits(token.params) then Some(item.raw) else None;
    if AllDigits(token.params) {
      CopiedRepeat(item);
    }
    if !(last.Some? && 0x20 <= last.value <= 0x7e) {
      PositiveCount(item.params);
      RepeatHooked(size, count, verbatim);
      RepeatMeans(size, count, verbatim, Meaning(size, text));
      if EndState(text) != Ground {
        WrittenStarts(size, count, verbatim, EndState(text));
      }
      AppendHooked(size, text, RepeatText(size, count, verbatim));
    }
  }

  lemma PositiveCount(params: Text)
    ensures CountOf(params) > 0
  {
    hide FirstParam;
  }

  lemma VisitRepeatHooked(size: Size, buffer: Text, d: Draft, now: Sem, token: Token)
    requires NowRel(size, d, now) && OpenRel(size, d) && Ready(size, buffer, d, token)
      && IsRepeat(ItemOf(buffer, token))
    requires DraftHooked(size, d)
    ensures DraftHooked(size, Visit(size, buffer, d, token))
  {
    hide CountOf, EndState, HeldRel, Mean, Meaning, ReadsAlone, RepeatText, Whole, AllDigits, Chars, OpenText, Quiet,
      DraftHooked, AllHooked, Items, ReadsAsRepeat;
    var gap, item := Raw(buffer, d.from, token.start), ItemOf(buffer, token);
    SeqReady(size, buffer, d, token);
    var r, after := Release(size, d), Visit(size, buffer, d, token);
    if SavedSegments.Joins(d, token, gap) {
      SameHooked(size, d, after);
    } else {
      ReleaseKeeps(size, d, now);
      ReleaseOpens(size, d, now);
      ReleaseHooked(size, d, now);
      GapKeeps(size, r, gap, now);
      GapHooked(size, r, gap, now);
      if Void(d, token, gap) {
        QuietThen(EndState(r.text), EndState(r.text + gap), item.controls);
        ControlsHooked(size, r, r.text + gap, gap, item, Mean(size, false, now, Chars(gap)));
        MoveHooked(size, r, after);
      } else {
        WriteHooked(size, d, r, token, gap, now, item);
        MoveHooked(size, VisitRepeat(size, d, token, gap, item.raw), after);
      }
    }
  }

  lemma SameHooked(size: Size, d: Draft, after: Draft)
    requires DraftHooked(size, d) && after.done == d.done && after.text == d.text
    ensures DraftHooked(size, after)
  {
  }

  lemma GapHooked(size: Size, r: Draft, gap: Text, now: Sem)
    requires NowRel(size, r, now) && OpenText(size, r.text) && Plain(gap) && Quiet(EndState(r.text), gap)
      && DraftHooked(size, r)
    ensures AllHooked(size, Items(r.text + gap))
  {
    hide Items, EndState, OpenText, Quiet, AllHooked, Meaning, Whole;
    QuietHooked(size, r.text, gap);
  }

  /** Controls on their own draw nothing and repeat nothing. */
  lemma ControlsHooked(size: Size, r: Draft, text: Text, gap: Text, item: Item, now: Sem)
    requires GapRel(size, r, text, gap, now) && item.Seq? && AllExecuted(item.controls)
      && Quiet(EndState(text), item.controls)
    requires AllHooked(size, Items(text))
    ensures AllHooked(size, Items(text + item.controls)) && Whole(text + item.controls)
  {
    hide Items, EndState, OpenText, Quiet, AllHooked, Meaning, Whole;
    ControlsKeep(size, text, item.controls);
    ExecutedPlain(item.controls);
    QuietHooked(size, text, item.controls);
  }

  lemma ExecutedPlain(controls: Text)
    requires AllExecuted(controls)
    ensures Plain(controls)
  {
  }

  lemma ResetHooked(size: Size, r: Draft, after: Draft, text: Text)
    requires DraftHooked(size, r) && after.done == r.done + [text] && after.text == [] && AllHooked(size, Items(text))
    ensures DraftHooked(size, after)
  {
    FreshText(size);
    NothingHooked(size);
    hide Items, AllHooked;
  }

  lemma NothingHooked(size: Size)
    ensures Items([]) == [] && AllHooked(size, Items([]))
  {
    GoEnd([], BEGIN);
  }

  lemma CopyHooked(size: Size, text: Text, item: Item)
    requires item.Seq? && ReadsAlone(item.raw, item) && !IsRepeat(item) && Whole(text)
    requires EndState(text) != Ground ==> StartsAnew(item.raw, EndState(text))
    requires AllHooked(size, Items(text))
    ensures AllHooked(size, Items(text + item.raw))
  {
    hide Items, Whole, EndState, StartsAnew, AllHooked, IsRepeat;
    OneHooked(size, item);
    AppendHooked(size, text, item.raw);
  }

  /** A count that is cut is no repeat. */
  lemma CutHooked(size: Size, text: Text, item: Item)
    requires item.Seq? && Excessive(size, item) && Params(item.params)
    requires |item.final| == 1 && 0x40 <= item.final[0] <= 0x7e
    requires Whole(text) && AllHooked(size, Items(text))
    ensures AllHooked(size, Items(text + CutCount(size, item)))
  {
    hide Items, Whole, EndState, AllHooked, FirstParam, CutCount, Excessive;
    var raw := CutCount(size, item);
    CutReads(size, item);
    CutStarts(size, item, EndState(text));
    assert ReadsAlone(raw, Items(raw)[0]) && IsCounted(Items(raw)[0]);
    OneHooked(size, Items(raw)[0]);
    AppendHooked(size, text, raw);
  }

  lemma VisitOtherHooked(size: Size, buffer: Text, d: Draft, story: Story, token: Token)
    requires Rel(size, d, story) && Ready(size, buffer, d, token) && !IsRepeat(ItemOf(buffer, token))
      && DraftHooked(size, d)
    ensures DraftHooked(size, Visit(size, buffer, d, token))
  {
    hide Chars, CutCount, DoneRel, EndState, Excessive, IsErase, Mean, NowRel, Raw, OpenText, Quiet, DraftHooked,
      AllHooked, Items, Whole, ReadsAlone, StartsAnew, IsReset, IsRepeat;
    var gap, item, now := Raw(buffer, d.from, token.start), ItemOf(buffer, token), story.now;
    SeqReady(size, buffer, d, token);
    OtherKinds(size, item);
    ReleaseKeeps(size, d, now);
    ReleaseOpens(size, d, now);
    ReleaseHooked(size, d, now);
    var r := Release(size, d);
    GapKeeps(size, r, gap, now);
    GapHooked(size, r, gap, now);
    var text, middle := r.text + gap, Mean(size, false, now, Chars(gap));
    QuietThen(EndState(r.text), EndState(text), item.controls);
    GapParts(size, r, text, gap, middle);
    var after := Visit(size, buffer, d, token);
    if IsReset(item) {
      ControlsHooked(size, r, text, gap, item, middle);
      ResetHooked(size, r, after, text + item.controls);
    } else if IsErase(item) {
      ControlsHooked(size, r, text, gap, item, middle);
      MoveHooked(size, r, after);
    } else if Excessive(size, item) {
      ControlsHooked(size, r, text, gap, item, middle);
      CutHooked(size, text + item.controls, item);
      MoveHooked(size, r, after);
    } else {
      CopyHooked(size, text, item);
      MoveHooked(size, r, after);
    }
  }

  lemma GapParts(size: Size, r: Draft, text: Text, gap: Text, now: Sem)
    requires GapRel(size, r, text, gap, now)
    ensures Whole(text)
  {
    hide Whole, OpenText, Meaning, EndState;
  }

  // ----- the whole output -----

  lemma {:induction false} DraftedHooked(size: Size, buffer: Text, k: nat)
    requires !CutPair(buffer) && k <= |Tokens(buffer)| && forall j :: 0 <= j < k ==> HarmlessAt(size, buffer, j)
    ensures DraftHooked(size, Drafted(size, buffer, k))
    decreases k
  {
    hide Tokens, Rel, Visit, Told, Ready, HarmlessAt, CutPair, DraftHooked, IsRepeat, VisitAll;
    if k == 0 {
      StartHooked(size, buffer);
    } else {
      var j := k - 1;
      DraftedHooked(size, buffer, j);
      DraftedAlways(size, buffer, j);
      var d, token := Drafted(size, buffer, j), Tokens(buffer)[j];
      ReadyAlways(size, buffer, j, d);
      GapIsPlain(buffer, j, token.start);
      DraftedNext(size, buffer, j);
      VisitHooked(size, buffer, d, Told(size, buffer, j), token);
    }
  }

  lemma StartHooked(size: Size, buffer: Text)
    ensures DraftHooked(size, Drafted(size, buffer, 0))
  {
    NothingHooked(size);
    hide Tokens, Items, AllHooked;
    assert Tokens(buffer)[..0] == [];
  }

  lemma VisitHooked(size: Size, buffer: Text, d: Draft, story: Story, token: Token)
    requires Rel(size, d, story) && Ready(size, buffer, d, token) && DraftHooked(size, d)
    ensures DraftHooked(size, Visit(size, buffer, d, token))
  {
    hide Visit, Ready, DraftHooked, IsRepeat, NowRel, OpenRel, DoneRel;
    if IsRepeat(ItemOf(buffer, token)) {
      VisitRepeatHooked(size, buffer, d, story.now, token);
    } else {
      VisitOtherHooked(size, buffer, d, story, token);
    }
  }

  /** In every segment that is written each shortened repeat is followed by the
      hook that makes up for it. */
  lemma SegmentsHooked(size: Size, buffer: Text)
    requires !CutPair(buffer) && Harmless(size, buffer)
    ensures forall j :: 0 <= j < |Segments(size, buffer)| ==> AllHooked(size, Items(Segments(size, buffer)[j]))
  {
    hide Tokens, Told, Rel, NowRel, HarmlessAt, CutPair, VisitAll, AllHooked, Items, EndState, OpenText, Quiet;
    var n := |Tokens(buffer)|;
    assert Tokens(buffer)[..n] == Tokens(buffer);
    DraftedAlways(size, buffer, n);
    DraftedHooked(size, buffer, n);
    GapIsPlain(buffer, n, |buffer|);
    var d, story := Drafted(size, buffer, n), Told(size, buffer, n);
    LastHooked(size, buffer, d, story, Raw(buffer, d.from, |buffer|));
  }

  lemma LastHooked(size: Size, buffer: Text, d: Draft, story: Story, tail: Text)
    requires d == Drafted(size, buffer, |Tokens(buffer)|) && Rel(size, d, story) && DraftHooked(size, d)
    requires tail == Raw(buffer, d.from, |buffer|) && Plain(tail) && HarmlessAt(size, buffer, |Tokens(buffer)|)
    ensures forall j :: 0 <= j < |Segments(size, buffer)| ==> AllHooked(size, Items(Segments(size, buffer)[j]))
  {
    hide Tokens, NowRel, VisitAll, AllHooked, Items, EndState, OpenText, Quiet, DoneRel;
    assert Tokens(buffer)[..|Tokens(buffer)|] == Tokens(buffer);
    ReleaseKeeps(size, d, story.now);
    ReleaseOpens(size, d, story.now);
    ReleaseHooked(size, d, story.now);
    var r := Release(size, d);
    GapHooked(size, r, tail, story.now);
    assert Segments(size, buffer) == r.done + [r.text + tail];
  }
}
