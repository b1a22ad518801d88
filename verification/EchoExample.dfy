/** An output whose segments do what it does although a sequence takes in text:
    the text is a `b`, which makes an unfinished control sequence a repeat, and
    what that repeats is a `b`. */
module EchoExample {
  import opened Basics
  import opened VtScanner
  import opened VtItems
  import opened VtTokens
  import opened VtPieces
  import opened VtOpen
  import opened SavedMeaning
  import opened SavedSegments
  import opened SavedLimits

  const B: Text := [0x62]
  const OPEN: Text := [0x1b, 0x5b]

  /** A `b`, an unfinished control sequence, an erase of the scrollback, a `b`. */
  const ECHOED: Text := B + (OPEN + (ERASE + B))

  const UNFINISHED := Seq(Ignored, [], [], [], [], [], OPEN)
  const ERASES := Seq(CsiKind, [], [0x33], [], [0x4a], [], ERASE)

  lemma OpenReads()
    ensures Items(OPEN) == [UNFINISHED] && Whole(OPEN) && EndState(OPEN) == Csi
  {
    hide Items, Whole, EndState, Inside;
    CsiOpens();
    InsideReads(OPEN, Csi, NO_TOKEN);
  }

  lemma BReads()
    ensures Items(B) == [Char(0x62)] && Whole(B) && EndState(B) == Ground
  {
    hide Items, Whole, EndState;
    OneChar(0x62);
  }

  lemma EchoedItems()
    ensures Items(ECHOED) == [Char(0x62), UNFINISHED, ERASES, Char(0x62)]
  {
    hide Items, Whole, EndState, StartsAnew;
    BReads();
    OpenReads();
    EraseReads();
    AppendClosed(ERASE, B);
    EraseAnew();
    AppendAnew(OPEN, ERASE + B);
    AppendClosed(B, OPEN + (ERASE + B));
  }

  lemma EraseAnew()
    ensures StartsAnew(ERASE + B, Csi)
  {
  }

  lemma CharIsNoSequence(buffer: Text, tokens: seq<Token>, end: nat)
    requires Woven(buffer, tokens, end) == [Char(0x62)]
    ensures tokens == []
  {
    BIsChars();
    if tokens != [] {
      var last := tokens[|tokens| - 1];
      CharsHoldNone(B, Woven(buffer, tokens[..|tokens| - 1], last.start), ItemOf(buffer, last),
        Raw(buffer, last.end, end));
    }
  }

  lemma EchoedTokens() returns (open: Token, erase: Token)
    ensures Tokens(ECHOED) == [open, erase] && open.start == 1 && open.end == 3 == erase.start && erase.end == 7
    ensures ItemOf(ECHOED, open) == UNFINISHED && ItemOf(ECHOED, erase) == ERASES
  {
    hide EndState, Items, Tokens, Whole, Woven;
    var tokens := Tokens(ECHOED);
    EchoedItems();
    ItemsAreWoven(ECHOED);
    TokensWithin(ECHOED);
    BIsChars();
    assert [Char(0x62), UNFINISHED, ERASES, Char(0x62)] == [Char(0x62), UNFINISHED] + [ERASES] + Chars(B);
    LastWoven(ECHOED, tokens, |ECHOED|, [Char(0x62), UNFINISHED], ERASES, B);
    erase := tokens[|tokens| - 1];
    assert erase.start == 3 by { RawSize(ECHOED, erase, ERASE); }
    var one := tokens[..|tokens| - 1];
    assert one != [] ==> one[|one| - 1].end <= erase.start;
    assert [Char(0x62), UNFINISHED] == [Char(0x62)] + [UNFINISHED] + Chars([]);
    LastWoven(ECHOED, one, 3, [Char(0x62)], UNFINISHED, []);
    open := one[|one| - 1];
    assert open.start == 1 by { RawSize(ECHOED, open, OPEN); }
    CharIsNoSequence(ECHOED, one[..|one| - 1], 1);
    assert one == one[..|one| - 1] + [open] && tokens == one + [erase];
  }

  lemma BIsChars()
    ensures Chars(B) == [Char(0x62)] && Chars([]) == []
  {
    assert B[..0] == [];
  }

  /** What is written: the erase is left out, and the `b` follows the unfinished sequence. */
  lemma EchoedWritten(size: Size)
    ensures Segments(size, ECHOED) == [B + (OPEN + B)] && !Harmless(size, ECHOED)
  {
    hide EndState, Items, Tokens, Visit, VisitAll, Whole;
    var open, erase := EchoedTokens();
    var one := OpenVisit(size, open);
    var two := ErasedVisit(size, one, erase);
    TwoVisits(size, ECHOED, open, erase);
    assert Raw(ECHOED, 7, |ECHOED|) == B;
    assert B + OPEN + B == B + (OPEN + B);
    BReads();
    OpenReads();
    AppendClosed(B, OPEN);
    assert Tokens(ECHOED)[..2] == [open, erase] && Release(size, two) == two;
    assert EndState(two.text) == Csi && !Executed(B[0]);
    assert !Quiet(Csi, B);
    assert !HarmlessAt(size, ECHOED, 2);
  }

  lemma OpenVisit(size: Size, open: Token) returns (d: Draft)
    requires open.start == 1 && open.end == 3 && ItemOf(ECHOED, open) == UNFINISHED
    ensures d == Visit(size, ECHOED, START, open) == Draft([], B + OPEN, None, Some(open.kind), 3)
  {
    d := Visit(size, ECHOED, START, open);
    assert Raw(ECHOED, 0, 1) == B;
    assert [] + B == B;
  }

  lemma ErasedVisit(size: Size, d: Draft, erase: Token) returns (after: Draft)
    requires d.done == [] && d.text == B + OPEN && d.held.None? && d.from == 3 == erase.start && erase.end == 7
    requires ItemOf(ECHOED, erase) == ERASES
    ensures after == Visit(size, ECHOED, d, erase) == Draft([], B + OPEN, None, Some(erase.kind), 7)
  {
    hide FirstParam;
    EraseReads();
    after := Visit(size, ECHOED, d, erase);
    assert Raw(ECHOED, 3, 3) == [];
    assert B + OPEN + [] + [] == B + OPEN;
  }

  lemma UnfinishedDoes(size: Size)
    ensures TellNext(size, Story([], Sem([Print(0x62)], Drawn(0x62), None)), UNFINISHED)
      == Story([], Sem([Print(0x62)], Unknown, None))
  {
    assert Controls([]) == [] && [Print(0x62)] + [] == [Print(0x62)];
    hide Controls, FirstParam, HookPeriods;
  }

  lemma ErasesDoes(size: Size)
    ensures TellNext(size, Story([], Sem([Print(0x62)], Unknown, None)), ERASES)
      == Story([], Sem([Print(0x62)], Nothing, None))
  {
    EraseReads();
    assert Controls([]) == [] && [Print(0x62)] + [] == [Print(0x62)];
    hide Controls, FirstParam, Items, Whole, EndState;
    EraseDoes(size, Sem([Print(0x62)], Unknown, None), ERASES);
  }

  lemma BDoes(size: Size, effects: seq<Effect>, last: Last)
    ensures TellNext(size, Story([], Sem(effects, last, None)), Char(0x62))
      == Story([], Sem(effects + [Print(0x62)], Drawn(0x62), None))
  {
  }

  /** In the output the `b` is drawn twice. */
  lemma EchoedTold(size: Size)
    ensures Effects(size, ECHOED) == [[Print(0x62), Print(0x62)]]
  {
    hide Items, TellNext, UNFINISHED, ERASES;
    EchoedItems();
    BDoes(size, [], Nothing);
    assert [] + [Print(0x62)] == [Print(0x62)];
    UnfinishedDoes(size);
    ErasesDoes(size);
    BDoes(size, [Print(0x62)], Nothing);
    assert [Print(0x62)] + [Print(0x62)] == [Print(0x62), Print(0x62)];
    ToldFour(size, Story([], FRESH), Char(0x62), UNFINISHED, ERASES, Char(0x62));
  }

  lemma ToldFour(size: Size, start: Story, a: Item, b: Item, c: Item, d: Item)
    ensures Tell(size, start, [a, b, c, d])
         == TellNext(size, TellNext(size, TellNext(size, TellNext(size, start, a), b), c), d)
  {
    hide TellNext;
    assert [a, b, c, d] == [a] + [b] + [c] + [d];
    TellJoins(size, start, [a] + [b] + [c], [d]);
    TellJoins(size, start, [a] + [b], [c]);
    TellJoins(size, start, [a], [b]);
    TellOne(size, start, a);
    TellOne(size, TellNext(size, start, a), b);
    TellOne(size, TellNext(size, TellNext(size, start, a), b), c);
    TellOne(size, TellNext(size, TellNext(size, TellNext(size, start, a), b), c), d);
  }

  /** What is written draws a `b` and repeats it once. */
  lemma EchoedMeans(size: Size)
    ensures Meaning(size, B + (OPEN + B)).effects == [Print(0x62), Print(0x62)]
  {
    hide Items, Whole, EndState;
    BReads();
    RepeatReads([]);
    assert OPEN + [] + B == CsiText([], 0x62) == OPEN + B;
    AppendClosed(B, OPEN + B);
    var repeat := Seq(CsiKind, [], [], [], [0x62], [], OPEN + B);
    MeanJoins(size, true, FRESH, [Char(0x62)], [repeat]);
    MeanOne(size, true, FRESH, Char(0x62));
    StepRepeat(size, Sem([Print(0x62)], Drawn(0x62), None), repeat);
    assert CountOf([]) == 1;
    assert Times(Print(0x62), 1) == [Print(0x62)];
  }

  /** The output is not harmless, yet its segments do what it does: the `b` that
      is taken in repeats the one before it. */
  lemma EchoKeeps(size: Size)
    ensures !Harmless(size, ECHOED) && SegmentsKeep(size, ECHOED)
  {
    hide Segments, Effects, Meaning, Harmless;
    EchoedWritten(size);
    EchoedTold(size);
    EchoedMeans(size);
  }
}
