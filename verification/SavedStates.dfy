/** Whether an output is harmless, told from the output alone: no need to run
    the rewriting to find what it leaves unfinished. */
module SavedStates {
  import opened Basics
  import opened VtScanner
  import opened VtItems
  import opened VtTokens
  import opened VtPieces
  import opened VtOpen
  import opened SavedMeaning
  import opened SavedSegments
  import opened SavedLimits

  /** Of the `k`th sequence nothing is written, or only its controls: it erases
      the scrollback, or repeats where there is nothing to repeat. */
  predicate LeavesNothing(buffer: Text, k: nat)
    requires k < |Tokens(buffer)|
  {
    var item, gap := ItemOf(buffer, Tokens(buffer)[k]), GapAt(buffer, k);
    || IsErase(item)
    || (IsRepeat(item)
        && (item.controls != [] || (gap == [] && k > 0 && Tokens(buffer)[k - 1].kind == CsiKind)
            || (gap != [] && Executed(gap[|gap| - 1]))))
  }

  /** The state that the last of the first `k` sequences which is written, cut
      out, leaves the terminal in. */
  function OpenState(buffer: Text, k: nat): State
    requires k <= |Tokens(buffer)|
  {
    if k == 0 then Ground
    else if LeavesNothing(buffer, k - 1) then OpenState(buffer, k - 1)
    else EndState(ItemOf(buffer, Tokens(buffer)[k - 1]).raw)
  }

  /** The text before the `k`th sequence and that sequence do no harm to it. */
  predicate HarmlessHere(size: Size, buffer: Text, k: nat)
    requires k <= |Tokens(buffer)|
  {
    var state := OpenState(buffer, k);
    Quiet(state, GapAt(buffer, k))
    && (k < |Tokens(buffer)| ==> GoesOn(size, state, ItemOf(buffer, Tokens(buffer)[k])))
  }

  // ----- what is written leaves that state -----

  lemma PreviousIs(size: Size, buffer: Text, k: nat)
    requires !CutPair(buffer) && k <= |Tokens(buffer)|
    ensures Drafted(size, buffer, k).previous == if k == 0 then None else Some(Tokens(buffer)[k - 1].kind)
    ensures Drafted(size, buffer, k).from == From(Tokens(buffer), k)
  {
    hide Tokens, Tell, Woven, VisitRepeat, VisitOther;
    FromIs(size, buffer, k);
    if k == 0 {
      assert Tokens(buffer)[..0] == [];
    } else {
      GapIsPlain(buffer, k - 1, Tokens(buffer)[k - 1].start);
      DraftedNext(size, buffer, k - 1);
    }
  }

  lemma DispatchedEnds(raw: Text, item: Item)
    requires ReadsAlone(raw, item) && item.Seq? && (item.kind == CsiKind || item.kind == EscKind)
    ensures EndState(raw) == Ground
  {
    hide ReadsAlone, EndState, Inside;
    if EndState(raw) != Ground {
      var state, token := AloneOpens(raw, item);
    }
  }

  lemma AppendEnds(text: Text, more: Text)
    requires Whole(text) && Whole(more) && (EndState(text) == Ground || StartsAnew(more, EndState(text)))
    ensures EndState(text + more) == EndState(more)
  {
    hide Items, Whole, EndState, StartsAnew;
    if EndState(text) == Ground {
      AppendClosed(text, more);
    } else {
      AppendAnew(text, more);
    }
  }

  /** A repeat leaves nothing unfinished, or is left out. */
  lemma RepeatState(size: Size, buffer: Text, d: Draft, now: Sem, token: Token)
    requires NowRel(size, d, now) && OpenRel(size, d) && Ready(size, buffer, d, token)
    requires IsRepeat(ItemOf(buffer, token))
    ensures
      var gap, r, after := Raw(buffer, d.from, token.start), Release(size, d), Visit(size, buffer, d, token);
      if !SavedSegments.Joins(d, token, gap) && Void(d, token, gap) then
        EndState(Release(size, after).text) == EndState(r.text)
      else EndState(Release(size, after).text) == Ground
  {
    hide CountOf, EndState, HeldRel, Mean, Meaning, ReadsAlone, RepeatText, Whole, AllDigits, Chars, OpenText, Quiet;
    var gap, item := Raw(buffer, d.from, token.start), ItemOf(buffer, token);
    SeqReady(size, buffer, d, token);
    VisitRepeatKeeps(size, buffer, d, now, token);
    var r, after := Release(size, d), Visit(size, buffer, d, token);
    var story := After(size, now, gap, item);
    ReleaseKeeps(size, after, story);
    ReleaseKeeps(size, d, now);
    ReleaseOpens(size, d, now);
    if SavedSegments.Joins(d, token, gap) {
      assert after.held.Some?;
    } else {
      GapKeeps(size, r, gap, now);
      if Void(d, token, gap) {
        QuietThen(EndState(r.text), EndState(r.text + gap), item.controls);
        ControlsState(size, r, r.text + gap, gap, item, Mean(size, false, now, Chars(gap)));
      } else {
        RepeatWritten(size, d, r, token, gap, now, item);
      }
    }
  }

  lemma ControlsState(size: Size, r: Draft, text: Text, gap: Text, item: Item, now: Sem)
    requires GapRel(size, r, text, gap, now) && item.Seq? && AllExecuted(item.controls)
      && Quiet(EndState(text), item.controls)
    ensures EndState(text + item.controls) == EndState(text) && Whole(text + item.controls)
  {
    hide Items, EndState, OpenText, Quiet, Meaning, Whole;
    ControlsKeep(size, text, item.controls);
  }

  /** Any other sequence leaves what it alone would, but for an erase. */
  lemma OtherState(size: Size, buffer: Text, d: Draft, story: Story, token: Token)
    requires Rel(size, d, story) && Ready(size, buffer, d, token) && !IsRepeat(ItemOf(buffer, token))
    ensures
      var item, after := ItemOf(buffer, token), Visit(size, buffer, d, token);
      && after.held.None?
      && EndState(after.text) == if IsErase(item) then EndState(Release(size, d).text) else EndState(item.raw)
  {
    hide Chars, CutCount, DoneRel, EndState, Excessive, IsErase, Mean, NowRel, Raw, OpenText, Quiet, Items, Whole,
      ReadsAlone, StartsAnew, IsReset, IsRepeat, Meaning;
    var gap, item, now := Raw(buffer, d.from, token.start), ItemOf(buffer, token), story.now;
    SeqReady(size, buffer, d, token);
    OtherKinds(size, item);
    ReleaseKeeps(size, d, now);
    ReleaseOpens(size, d, now);
    var r := Release(size, d);
    GapKeeps(size, r, gap, now);
    var text, middle := r.text + gap, Mean(size, false, now, Chars(gap));
    QuietThen(EndState(r.text), EndState(text), item.controls);
    var after := Visit(size, buffer, d, token);
    if IsReset(item) {
      FreshText(size);
      DispatchedEnds(item.raw, item);
    } else if IsErase(item) {
      ControlsState(size, r, text, gap, item, middle);
      assert after.text == text + item.controls;
    } else if Excessive(size, item) {
      CutKeeps(size, r, text, gap, now, item);
      DispatchedEnds(item.raw, item);
      assert after.text == text + item.controls + CutCount(size, item);
    } else {
      GapWhole(size, r, text, gap, middle, item);
      AppendEnds(text, item.raw);
      assert after.text == text + item.raw;
    }
  }

  lemma GapWhole(size: Size, r: Draft, text: Text, gap: Text, now: Sem, item: Item)
    requires GapRel(size, r, text, gap, now) && item.Seq? && ReadsAlone(item.raw, item)
    ensures Whole(text) && Whole(item.raw)
  {
    hide Whole, OpenText, Meaning, EndState, Items;
  }

  /** While nothing harmful came, what is written is left as the output alone tells. */
  lemma {:induction false} StateIs(size: Size, buffer: Text, k: nat)
    requires !CutPair(buffer) && k <= |Tokens(buffer)| && forall j :: 0 <= j < k ==> HarmlessAt(size, buffer, j)
    ensures EndState(Written(size, buffer, k).text) == OpenState(buffer, k)
    decreases k
  {
    hide Tokens, Rel, Visit, Told, Ready, HarmlessAt, CutPair, VisitAll, EndState, LeavesNothing, IsErase, IsRepeat;
    if k == 0 {
      StartState(size, buffer);
    } else {
      var j := k - 1;
      StateIs(size, buffer, j);
      DraftedAlways(size, buffer, j);
      var d, token := Drafted(size, buffer, j), Tokens(buffer)[j];
      ReadyAlways(size, buffer, j, d);
      GapIsPlain(buffer, j, token.start);
      DraftedNext(size, buffer, j);
      NextState(size, buffer, j, d, Told(size, buffer, j), token);
    }
  }

  lemma StartState(size: Size, buffer: Text)
    ensures EndState(Written(size, buffer, 0).text) == Ground
  {
    FreshText(size);
    hide Tokens, EndState;
    assert Tokens(buffer)[..0] == [];
  }

  lemma NextState(size: Size, buffer: Text, k: nat, d: Draft, story: Story, token: Token)
    requires !CutPair(buffer) && k < |Tokens(buffer)| && token == Tokens(buffer)[k] && d == Drafted(size, buffer, k)
    requires Rel(size, d, story) && Ready(size, buffer, d, token)
    ensures EndState(Release(size, Visit(size, buffer, d, token)).text) ==
      if LeavesNothing(buffer, k) then EndState(Release(size, d).text) else EndState(ItemOf(buffer, token).raw)
  {
    hide Tokens, Visit, Ready, VisitAll, EndState, IsErase, NowRel, OpenRel, DoneRel, CutPair, ReadsAlone;
    var item := ItemOf(buffer, token);
    PreviousIs(size, buffer, k);
    SeqReady(size, buffer, d, token);
    if IsRepeat(item) {
      RepeatState(size, buffer, d, story.now, token);
      DispatchedEnds(item.raw, item);
      HeldAscii(size, d, story.now);
      RepeatLeaves(size, buffer, k, d, token);
    } else {
      OtherState(size, buffer, d, story, token);
    }
  }

  lemma HeldAscii(size: Size, d: Draft, now: Sem)
    requires NowRel(size, d, now)
    ensures d.held.Some? ==> 0x20 <= d.held.value.unit <= 0x7e
  {
    hide Whole, Meaning, EndState;
  }

  /** A repeat leaves nothing exactly where it is left out as void. */
  lemma RepeatLeaves(size: Size, buffer: Text, k: nat, d: Draft, token: Token)
    requires k < |Tokens(buffer)| && token == Tokens(buffer)[k] && IsRepeat(ItemOf(buffer, token))
    requires d.previous == if k == 0 then None else Some(Tokens(buffer)[k - 1].kind)
    requires d.from == From(Tokens(buffer), k) && (d.held.Some? ==> 0x20 <= d.held.value.unit <= 0x7e)
    ensures
      var gap := Raw(buffer, d.from, token.start);
      LeavesNothing(buffer, k) <==> !SavedSegments.Joins(d, token, gap) && Void(d, token, gap)
  {
    hide Tokens, FirstParam;
    var gap := Raw(buffer, d.from, token.start);
    assert gap == GapAt(buffer, k);
    if SavedSegments.Joins(d, token, gap) {
      assert gap[|gap| - 1] == d.held.value.unit;
    }
  }

  /** An output is harmless exactly when its own sequences and the text between
      them tell so. */
  lemma HarmlessFromOutput(size: Size, buffer: Text)
    requires !CutPair(buffer)
    ensures Harmless(size, buffer) <==> forall k :: 0 <= k <= |Tokens(buffer)| ==> HarmlessHere(size, buffer, k)
  {
    hide Tokens, HarmlessAt, HarmlessHere, CutPair;
    if Harmless(size, buffer) {
      forall k | 0 <= k <= |Tokens(buffer)|
        ensures HarmlessHere(size, buffer, k)
      {
        HereIsThere(size, buffer, k);
      }
    }
    if forall k :: 0 <= k <= |Tokens(buffer)| ==> HarmlessHere(size, buffer, k) {
      forall k | 0 <= k <= |Tokens(buffer)|
        ensures HarmlessAt(size, buffer, k)
      {
        HarmlessUpTo(size, buffer, k);
      }
    }
  }

  lemma {:induction false} HarmlessUpTo(size: Size, buffer: Text, k: nat)
    requires !CutPair(buffer) && k <= |Tokens(buffer)| && forall j :: 0 <= j <= k ==> HarmlessHere(size, buffer, j)
    ensures forall j :: 0 <= j <= k ==> HarmlessAt(size, buffer, j)
    decreases k
  {
    hide Tokens, HarmlessAt, HarmlessHere, CutPair;
    if k > 0 {
      HarmlessUpTo(size, buffer, k - 1);
    }
    HereIsThere(size, buffer, k);
  }

  lemma HereIsThere(size: Size, buffer: Text, k: nat)
    requires !CutPair(buffer) && k <= |Tokens(buffer)| && forall j :: 0 <= j < k ==> HarmlessAt(size, buffer, j)
    ensures HarmlessAt(size, buffer, k) <==> HarmlessHere(size, buffer, k)
  {
    hide Tokens, CutPair, VisitAll, EndState, OpenState, Quiet, GoesOn, RepeatText;
    StateIs(size, buffer, k);
    PreviousIs(size, buffer, k);
    var d := Drafted(size, buffer, k);
    assert Release(size, d).from == d.from;
  }
}
