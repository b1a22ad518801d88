/** The rewriting as it runs: text is written in slices of bounded work. */
module SavedRewriter {
  import opened Basics
  import RepeatScreen
  import RewriteChoices
  import VtPieces
  import opened VtScanner
  import opened VtItems
  import opened SavedMeaning
  import opened SavedSegments

  const WORK_SLICE := 524288
  const TEXT_SLICE := 32768

  function Join(writes: seq<Text>): Text {
    if writes == [] then [] else Join(writes[..|writes| - 1]) + writes[|writes| - 1]
  }

  function JoinAll(segments: seq<seq<Text>>): (texts: seq<Text>)
    ensures |texts| == |segments| && forall i :: 0 <= i < |texts| ==> texts[i] == Join(segments[i])
  {
    seq(|segments|, i requires 0 <= i < |segments| => Join(segments[i]))
  }

  lemma JoinAdds(writes: seq<Text>, data: Text)
    ensures Join(writes + [data]) == Join(writes) + data
  {
    assert (writes + [data])[..|writes|] == writes;
  }

  function Newlines(text: Text): nat {
    if text == [] then 0 else Newlines(text[..|text| - 1]) + if text[|text| - 1] == 0x0a then 1 else 0
  }

  lemma {:induction false} NewlinesSum(a: Text, b: Text, unit: Unit)
    ensures Newlines(a + b) == Newlines(a) + Newlines(b)
    ensures Newlines([unit]) == if unit == 0x0a then 1 else 0
  {
    assert [unit][..0] == [];
    if b == [] {
      assert a + b == a;
    } else {
      NewlinesSum(a, b[..|b| - 1], unit);
      assert (a + b)[..|a + b| - 1] == a + b[..|b| - 1];
    }
  }

  /** What waits to be written: the writes so far, the text after them and the
      work it makes. */
  datatype Pending = Pending(writes: seq<Text>, data: Text, work: nat)

  /** A text joins what waits, which is written once it makes 524,288 of work. */
  ghost function Put(p: Pending, text: Text, weight: nat): Pending {
    if p.work + weight < 524288 then Pending(p.writes, p.data + text, p.work + weight)
    else Pending(p.writes + [p.data + text], [], 0)
  }

  /** Where the piece that starts at `at` ends. */
  function PieceEnd(text: Text, at: nat): (end: nat)
    requires at < |text|
    ensures at < end <= |text|
  {
    var end := if at + TEXT_SLICE < |text| then at + TEXT_SLICE else |text|;
    if HighSurrogate(text[end - 1]) && end < |text| then end + 1 else end
  }

  /** A piece has 32,768 units, or one more to keep a surrogate pair whole, or what
      is left of the text. */
  lemma PieceIs(text: Text, at: nat)
    requires at < |text|
    ensures PieceEnd(text, at) ==
      if at + 32768 >= |text| then |text|
      else if 0xd800 <= text[at + 32767] <= 0xdbff then at + 32769 else at + 32768
  {}

  /** The pieces of a text are put one after another; a newline may scroll the
      screen, which makes work for an eighth of its columns. */
  ghost function PutFrom(p: Pending, text: Text, at: nat, cols: nat): Pending
    requires at <= |text|
    decreases |text| - at
  {
    if at == |text| then p
    else
      var piece := text[at..PieceEnd(text, at)];
      PutFrom(Put(p, piece, |piece| + Newlines(piece) * (cols / 8)), text, PieceEnd(text, at), cols)
  }

  lemma PutFromNext(p: Pending, text: Text, at: nat, cols: nat)
    requires at < |text|
    ensures
      var piece := text[at..PieceEnd(text, at)];
      PutFrom(p, text, at, cols)
      == PutFrom(Put(p, piece, |piece| + Newlines(piece) * (cols / 8)), text, PieceEnd(text, at), cols)
  {
    hide Put, Newlines;
  }

  lemma PutFromEnd(p: Pending, text: Text, cols: nat)
    ensures PutFrom(p, text, |text|, cols) == p
  {}

  /** The work that a sequence makes. */
  function Weight(size: Size, item: Item): nat
    requires item.Seq?
  {
    if IsCounted(item) then
      Least(CountOf(item.params), Limit(size, item.final)) * (if CountsRows(item.final) then size.cols / 4 else 1)
    else if item.final == [0x4a] then size.rows * size.cols / 8
    else |item.raw|
  }

  /** A count that rolls rows makes a quarter of the columns of work each time, one
      that tabs one, neither more than the screen can show; J an eighth of the
      screen; and any other sequence its own length. */
  lemma WeightIs(size: Size, buffer: Text, token: Token, n: nat, rest: Text)
    requires RewriteChoices.Says(token.params, n, rest)
    ensures
      var most, count :=
        RewriteChoices.MostOf(size, token.final), RewriteChoices.AtLeastOne(n);
      Weight(size, ItemOf(buffer, token)) ==
      if token.kind == CsiKind && token.prefix == [] && token.intermediates == [] && most.Some? then
        (if count < most.value then count else most.value)
        * (if token.final == [0x49] || token.final == [0x5a] then 1 else size.cols / 4)
      else if token.final == [0x4a] then size.rows * size.cols / 8
      else |Raw(buffer, token.start, token.end)|
  {
    hide FirstParam;
    RewriteChoices.SaysParam(token.params, n, rest);
  }

  function Digits(verbatim: Option<Text>, count: nat): Text {
    if verbatim.Some? then verbatim.value else VtPieces.CsiText(Printed(count), 0x62)
  }

  lemma RepeatParts(size: Size, count: nat, verbatim: Option<Text>)
    ensures count <= size.rule.settled ==> RepeatText(size, count, verbatim) == Digits(verbatim, count)
    ensures count > size.rule.settled ==>
      var kept, periods := RepeatScreen.Kept(size.rule, count), RepeatScreen.Omitted(size.rule, count);
      && size.rule.settled + (count - size.rule.settled) % size.rule.period == kept <= count
      && (count - kept) / size.rule.period == periods
      && RepeatText(size, count, verbatim)
         == VtPieces.CsiText(Printed(kept) + [0x3b, 0x31], 0x62) + HookText(periods)
  {
    hide Printed, VtPieces.CsiText, HookText;
    if count > size.rule.settled {
      RepeatScreen.KeptBounds(size.rule, count);
    }
  }

  class Rewriter {
    const size: Size
    const buffer: Text
    var segments: seq<seq<Text>>
    var writes: seq<Text>
    var data: Text
    var work: nat
    var held: Option<Held>
    var previous: Option<Kind>
    var from: nat

    /** Less work than a slice is waiting to be written. */
    ghost predicate Valid()
      reads this
    {
      work < WORK_SLICE
    }

    ghost function Now(): Draft
      reads this
    {
      Draft(JoinAll(segments), Join(writes) + data, held, previous, from)
    }

    ghost function Waiting(): Pending
      reads this
    {
      Pending(writes, data, work)
    }

    constructor (size: Size, buffer: Text)
      ensures Valid() && Now() == START && this.size == size && this.buffer == buffer
    {
      this.size, this.buffer := size, buffer;
      segments, writes, data, work, held, previous, from := [], [], [], 0, None, None, 0;
    }

    method Emit(text: Text, weight: nat)
      requires Valid()
      modifies this`writes, this`data, this`work
      ensures Valid() && Now() == old(Now()).(text := old(Now()).text + text)
      ensures Waiting() == Put(old(Waiting()), text, weight)
    {
      ghost var before := Join(writes) + data;
      assert Join(writes) + (data + text) == before + text;
      data := data + text;
      work := work + weight;
      if work < WORK_SLICE { return; }
      JoinAdds(writes, data);
      writes := writes + [data];
      data := [];
      work := 0;
      assert Join(writes) + [] == Join(writes);
    }

    static lemma PieceAdds(before: Text, text: Text, at: nat, end: nat)
      requires at <= end <= |text|
      ensures before + text[..at] + text[at..end] == before + text[..end]
    {
      assert text[..end] == text[..at] + text[at..end];
    }

    method EmitText(text: Text)
      requires Valid()
      modifies this`writes, this`data, this`work
      ensures Valid() && Now() == old(Now()).(text := old(Now()).text + text)
      ensures Waiting() == PutFrom(old(Waiting()), text, 0, size.cols)
    {
      hide *;
      var at := 0;
      ghost var before := Now();
      assert text[..0] == [] && before.text + [] == before.text;
      while at < |text|
        invariant 0 <= at <= |text| && Valid() && Now() == before.(text := before.text + text[..at])
        invariant PutFrom(Waiting(), text, at, size.cols) == PutFrom(old(Waiting()), text, 0, size.cols)
        decreases |text| - at
      {
        PutFromNext(Waiting(), text, at, size.cols);
        var end := PieceEnd(text, at);
        var piece := text[at..end];
        PieceAdds(before.text, text, at, end);
        Emit(piece, |piece| + Newlines(piece) * (size.cols / 8));
        at := end;
      }
      assert text[..at] == text;
      PutFromEnd(Waiting(), text, size.cols);
    }

    method EmitRepeat(count: nat, verbatim: Option<Text>)
      requires Valid()
      modifies this`writes, this`data, this`work
      ensures Valid() && Now() == old(Now()).(text := old(Now()).text + RepeatText(size, count, verbatim))
      ensures Waiting() == Put(old(Waiting()), RepeatText(size, count, verbatim),
        if count <= size.rule.settled then count else RepeatScreen.Kept(size.rule, count))
    {
      RepeatParts(size, count, verbatim);
      hide *;
      if count <= size.rule.settled {
        Emit(Digits(verbatim, count), count);
        return;
      }
      var kept := size.rule.settled + (count - size.rule.settled) % size.rule.period;
      var periods := (count - kept) / size.rule.period;
      Emit(VtPieces.CsiText(Printed(kept) + [0x3b, 0x31], 0x62) + HookText(periods), kept);
    }

    method ReleaseHeld()
      requires Valid()
      modifies this`writes, this`data, this`work, this`held
      ensures Valid() && Now() == Release(size, old(Now())) && held == None
    {
      if held.Some? {
        EmitRepeat(held.value.count, held.value.verbatim);
      }
      held := None;
    }

    /** Ends a segment, with whatever is still waiting as its last write. */
    method Close()
      requires Valid()
      modifies this`segments, this`writes, this`data, this`work, this`held
      ensures Valid() && held == None
      ensures Now() ==
        Release(size, old(Now())).(done := old(Now()).done + [Release(size, old(Now())).text], text := [])
    {
      ReleaseHeld();
      hide Release, RepeatText;
      ghost var text := Now().text;
      if data != [] {
        JoinAdds(writes, data);
        writes := writes + [data];
      }
      assert Join(writes) == text;
      assert JoinAll(segments + [writes]) == JoinAll(segments) + [text];
      segments := segments + [writes];
      writes, data, work := [], [], 0;
    }

    method Repeat(token: Token, gap: Text, raw: Text)
      requires Valid()
      modifies this`writes, this`data, this`work, this`held
      ensures Valid() && Now() == VisitRepeat(size, old(Now()), token, gap, raw)
    {
      hide Join, JoinAll;
      var count := CountOf(token.params);
      if held.Some? && token.controls == [] && gap != [] && AllOf(gap, held.value.unit) {
        held := Some(held.value.(count := held.value.count + |gap| + count, verbatim := None));
        return;
      }
      ghost var d := Now();
      ReleaseHeld();
      hide Release, RepeatText;
      EmitText(gap);
      var last := GapEnd(gap);
      if token.controls != [] || (gap == [] && previous == Some(CsiKind)) || (last.Some? && Executed(last.value)) {
        Emit(token.controls, |token.controls|);
        return;
      }
      var verbatim := if AllDigits(token.params) then Some(raw) else None;
      if last.Some? && 0x20 <= last.value <= 0x7e {
        held := Some(Held(last.value, count, verbatim));
      } else {
        EmitRepeat(count, verbatim);
      }
    }

    method Other(item: Item, gap: Text)
      requires Valid() && item.Seq?
      modifies this`segments, this`writes, this`data, this`work, this`held
      ensures Valid() && Now() == VisitOther(size, old(Now()), item, gap)
    {
      hide Join, JoinAll;
      ReleaseHeld();
      ghost var r := Now();
      hide RepeatText, IsReset, IsErase, Excessive, CutCount;
      EmitText(gap);
      if IsReset(item) {
        Emit(item.controls, |item.controls|);
        ghost var closing := Now();
        Close();
        assert Release(size, closing) == closing;
      } else if IsErase(item) {
        Emit(item.controls, |item.controls|);
      } else if Excessive(size, item) {
        ghost var text := r.text + gap;
        assert text + (item.controls + CutCount(size, item)) == text + item.controls + CutCount(size, item);
        Emit(item.controls + CutCount(size, item), Weight(size, item));
      } else {
        Emit(item.raw, Weight(size, item));
      }
    }

    method VisitToken(token: Token)
      requires Valid()
      modifies this
      ensures Valid() && Now() == Visit(size, buffer, old(Now()), token)
    {
      hide Join, JoinAll, VisitRepeat, VisitOther, IsRepeat;
      var gap, item := Raw(buffer, from, token.start), ItemOf(buffer, token);
      if IsRepeat(item) {
        Repeat(token, gap, item.raw);
      } else {
        Other(item, gap);
      }
      previous := Some(token.kind);
      from := token.end;
    }
  }

  /** `savedSegments`: the writes of each segment make up exactly its text. */
  method SavedSegmentsOf(size: Size, buffer: Text, slices: seq<nat>) returns (segments: seq<seq<Text>>)
    requires forall i :: 0 <= i < |slices| ==> slices[i] < |buffer|
    requires forall i, j :: 0 <= i < j < |slices| ==> slices[i] <= slices[j]
    ensures JoinAll(segments) == Segments(size, buffer)
  {
    hide JoinAll, Rewriter.Now, Rewriter.Valid, Rewriter.buffer, Rewriter.size, START, Segments, Visit;
    var tokens := ScanSlices(buffer, slices);
    var rewriter := new Rewriter(size, buffer);
    assert VisitAll(size, buffer, tokens[..0]) == START;
    for k := 0 to |tokens|
      invariant fresh(rewriter) && rewriter.size == size && rewriter.buffer == buffer
      invariant rewriter.Valid() && rewriter.Now() == VisitAll(size, buffer, tokens[..k])
    {
      assert tokens[..k + 1][..k] == tokens[..k];
      assert VisitAll(size, buffer, tokens[..k + 1])
        == Visit(size, buffer, VisitAll(size, buffer, tokens[..k]), tokens[k]);
      rewriter.VisitToken(tokens[k]);
    }
    assert tokens[..|tokens|] == tokens;
    Finish(rewriter, tokens);
    segments := rewriter.segments;
  }

  method Finish(rewriter: Rewriter, ghost tokens: seq<Token>)
    requires rewriter.Valid() && tokens == Tokens(rewriter.buffer)
    requires rewriter.Now() == VisitAll(rewriter.size, rewriter.buffer, tokens)
    modifies rewriter
    ensures JoinAll(rewriter.segments) == Segments(rewriter.size, rewriter.buffer)
  {
    ghost var before := rewriter.Now();
    rewriter.ReleaseHeld();
    assert rewriter.from == before.from;
    rewriter.EmitText(Raw(rewriter.buffer, rewriter.from, |rewriter.buffer|));
    ghost var closing := rewriter.Now();
    assert Release(rewriter.size, closing) == closing;
    rewriter.Close();
  }
}
