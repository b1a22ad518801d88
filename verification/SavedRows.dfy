/** All segments of a saved output read back, newest first, within the budgets. */
module SavedRows {
  import opened Basics
  import opened RepeatScreen
  import opened RowBudget
  import opened LeftOutRows
  import opened SavedOutput

  const MAX_SAVED_ROWS: nat := 20_000
  const MAX_SAVED_CHARS: nat := 4 * 1024 * 1024

  /** Every segment keeps the terminal's size. */
  ghost predicate Sound<H(!new)>(segments: seq<seq<Op<H>>>) {
    forall i :: 0 <= i < |segments| ==> KeepAll(segments[i])
  }

  /** In every segment all repeats are restored. */
  ghost predicate Restores<H(!new)>(segments: seq<seq<Op<H>>>, start: View, hidden: H) {
    forall i :: 0 <= i < |segments| ==> AllRestored(Begins(start, hidden), segments[i])
  }

  /** What segments print in full, in order. */
  ghost function PrintedTexts<H(!new)>(segments: seq<seq<Op<H>>>, start: View, hidden: H, draw: Draw): seq<string>
    requires Sound(segments)
  {
    if segments == [] then []
    else SegmentTexts(segments[0], start, hidden, draw) + PrintedTexts(segments[1..], start, hidden, draw)
  }

  /** What is read back of segments, in order. */
  ghost function AllTexts<H(!new)>(segments: seq<seq<Op<H>>>, start: View, hidden: H, draw: Draw): seq<string>
    requires Sound(segments)
  {
    if segments == [] then []
    else ReadTexts(segments[0], start, hidden, draw) + AllTexts(segments[1..], start, hidden, draw)
  }

  /** An empty terminal shows nothing. */
  lemma {:induction false} NothingShown(rows: seq<Row>, draw: Draw)
    requires forall i :: 0 <= i < |rows| ==> NothingDrawn(rows[i], draw)
    ensures Undrawn(rows, |rows|, draw) == |rows|
  {
    if rows != [] {
      NothingShown(rows[..|rows| - 1], draw);
    }
  }

  lemma NoOutput<H(!new)>(start: View, hidden: H, draw: Draw)
    requires forall i :: 0 <= i < |start.lines| ==> NothingDrawn(start.lines[i], draw)
    ensures ReadTexts<H>([], start, hidden, draw) == []
  {
    NothingShown(start.lines, draw);
    NothingRestored(Begins(start, hidden));
    assert Rows(Screen([], start)) == start.lines;
  }

  lemma {:induction false} AllTextsSplit<H(!new)>(segments: seq<seq<Op<H>>>, start: View, hidden: H, draw: Draw, i: nat)
    requires Sound(segments)
    requires i <= |segments|
    ensures AllTexts(segments, start, hidden, draw)
      == AllTexts(segments[..i], start, hidden, draw) + AllTexts(segments[i..], start, hidden, draw)
    decreases i
  {
    hide ReadTexts;
    if i == 0 {
      assert segments[..0] == [] && segments[0..] == segments;
    } else {
      AllTextsSplit(segments[1..], start, hidden, draw, i - 1);
      assert segments[..i][0] == segments[0] && segments[..i][1..] == segments[1..][..i - 1];
      assert segments[1..][i - 1..] == segments[i..];
      var x, z := ReadTexts(segments[0], start, hidden, draw), AllTexts(segments[i..], start, hidden, draw);
      var y := AllTexts(segments[1..][..i - 1], start, hidden, draw);
      assert x + (y + z) == (x + y) + z;
    }
  }

  /** The texts of the segments from i on. */
  ghost function From<H(!new)>(segments: seq<seq<Op<H>>>, start: View, hidden: H, draw: Draw, i: nat): seq<string>
    requires Sound(segments) && i <= |segments|
  {
    AllTexts(segments[i..], start, hidden, draw)
  }

  lemma FromNext<H(!new)>(segments: seq<seq<Op<H>>>, start: View, hidden: H, draw: Draw, i: nat)
    requires Sound(segments) && i < |segments|
    ensures KeepAll(segments[i])
    ensures From(segments, start, hidden, draw, i)
      == ReadTexts(segments[i], start, hidden, draw) + From(segments, start, hidden, draw, i + 1)
  {
    assert segments[i..][0] == segments[i] && segments[i..][1..] == segments[i + 1..];
  }

  lemma ReadNothing<H(!new)>(segments: seq<seq<Op<H>>>, start: View, hidden: H, draw: Draw)
    requires Sound(segments)
    ensures ReadFrom(From(segments, start, hidden, draw, |segments|), [], MAX_SAVED_ROWS, MAX_SAVED_CHARS, false)
  {
    assert segments[|segments|..] == [];
  }

  lemma NoTexts<H(!new)>(segments: seq<seq<Op<H>>>, start: View, hidden: H, draw: Draw)
    requires Sound(segments)
    ensures AllTexts(segments[..0], start, hidden, draw) == []
  {
    assert segments[..0] == [];
  }

  /** What was read from the segments from i on. */
  ghost predicate ReadFrom(texts: seq<string>, kept: seq<string>, budget: nat, chars: nat, dropped: bool) {
    && budget + |kept| == MAX_SAVED_ROWS && chars + Chars(Reverse(kept)) == MAX_SAVED_CHARS
    && (if dropped then |kept| < |texts| && Greedy(texts, Reverse(kept), MAX_SAVED_ROWS, MAX_SAVED_CHARS)
        else texts == Reverse(kept))
  }

  lemma ReadMore(texts: seq<string>, kept: seq<string>, budget: nat, chars: nat, older: seq<string>, r: Read)
    requires ReadFrom(texts, kept, budget, chars, false) && r == Newest(older, budget, chars)
    ensures |r.kept| <= budget && r.size <= chars
    ensures ReadFrom(older + texts, kept + r.kept, budget - |r.kept|, chars - r.size, r.dropped)
  {
    NewestGreedy(older, budget, chars);
    ReverseSum(kept, r.kept);
    CharsSum(Reverse(r.kept), Reverse(kept));
    GreedyMore(older, Reverse(r.kept), Reverse(kept), MAX_SAVED_ROWS, MAX_SAVED_CHARS);
  }

  /** With every repeat restored that is what they print in full. */
  lemma {:induction false} RestoredTexts<H(!new)>(segments: seq<seq<Op<H>>>, start: View, hidden: H, draw: Draw)
    requires Sound(segments) && Restores(segments, start, hidden)
    ensures AllTexts(segments, start, hidden, draw) == PrintedTexts(segments, start, hidden, draw)
  {
    hide AllRestored, Shown, KeepAll;
    if segments != [] {
      ReadIsRun(Begins(start, hidden), segments[0]);
      RestoredTexts(segments[1..], start, hidden, draw);
    }
  }

  /** A contiguous end of all rows within both budgets. Unless older rows were
      left out, that is all of them. When they were, one more did not fit, or
      what was read used a budget up to the last row or character. */
  ghost predicate ReadsEnd(all: seq<string>, rows: seq<string>, dropped: bool) {
    && Ends(all, rows) && |rows| <= MAX_SAVED_ROWS && Chars(rows) <= MAX_SAVED_CHARS
    && (Chars(rows) == MAX_SAVED_CHARS || Greedy(all, rows, MAX_SAVED_ROWS, MAX_SAVED_CHARS))
    && (|rows| < |all| ==> dropped)
    && (dropped && |rows| < MAX_SAVED_ROWS && Chars(rows) < MAX_SAVED_CHARS ==> |rows| < |all|)
  }

  /** Saved output as one terminal shows it, a full reset starting a fresh one
      below the rows before it: the newest rows within both budgets. */
  method SavedOutputRows<H(!new)>(segments: seq<seq<Op<H>>>, start: View, hidden: H, draw: Draw)
    returns (rows: seq<string>, dropped: bool)
    requires Sound(segments)
    requires forall i :: 0 <= i < |start.lines| ==> NothingDrawn(start.lines[i], draw)
    ensures ReadsEnd(AllTexts(segments, start, hidden, draw), rows, dropped)
    ensures Restores(segments, start, hidden) ==>
      ReadsEnd(PrintedTexts(segments, start, hidden, draw), rows, dropped)
  {
    hide ReadTexts, Newest, Greedy, Ends, AllTexts, Reverse, Chars, PrintedTexts, Restores;
    var kept: seq<string>, budget: nat, chars: nat := [], MAX_SAVED_ROWS, MAX_SAVED_CHARS;
    var full, index := false, |segments| - 1;
    dropped := false;
    ReadNothing(segments, start, hidden, draw);
    while index >= 0 && !dropped
      invariant -1 <= index < |segments| && !full
      invariant ReadFrom(From(segments, start, hidden, draw, index + 1), kept, budget, chars, dropped)
    {
      FromNext(segments, start, hidden, draw, index);
      if segments[index] == [] {
        NoOutput(start, hidden, draw);
      } else if budget <= 0 || chars <= 0 {
        full := true;
        break;
      } else {
        var more, size;
        more, size, dropped := SegmentRows(segments[index], start, hidden, budget, chars, draw);
        ReadMore(From(segments, start, hidden, draw, index + 1), kept, budget, chars,
          ReadTexts(segments[index], start, hidden, draw), Read(more, size, dropped));
        kept, budget, chars := kept + more, budget - |more|, chars - size;
      }
      index := index - 1;
    }
    rows := Reverse(kept);
    AllTextsSplit(segments, start, hidden, draw, index + 1);
    NoTexts(segments, start, hidden, draw);
    ReadEnd(AllTexts(segments, start, hidden, draw), AllTexts(segments[..index + 1], start, hidden, draw),
      From(segments, start, hidden, draw, index + 1), kept, budget, chars, dropped, full);
    dropped := dropped || full;
    if Restores(segments, start, hidden) {
      RestoredTexts(segments, start, hidden, draw);
    }
  }

  lemma EndsItself(texts: seq<string>)
    ensures Ends(texts, texts)
  {
    assert texts[..0] + texts == texts;
  }

  /** What was read of all texts when the newest of them, `read`, were read. */
  lemma ReadEnd(all: seq<string>, older: seq<string>, read: seq<string>, kept: seq<string>, budget: nat, chars: nat,
    dropped: bool, full: bool)
    requires all == older + read && ReadFrom(read, kept, budget, chars, dropped)
    requires if full then budget == 0 || chars == 0 else dropped || older == []
    ensures var rows := Reverse(kept);
      && Ends(all, rows) && |rows| <= MAX_SAVED_ROWS && Chars(rows) <= MAX_SAVED_CHARS
      && (Chars(rows) == MAX_SAVED_CHARS || Greedy(all, rows, MAX_SAVED_ROWS, MAX_SAVED_CHARS))
      && (|rows| < |all| ==> dropped || full)
      && (dropped ==> |rows| < |all|)
  {
    hide MAX_SAVED_ROWS, MAX_SAVED_CHARS, Reverse, Chars, Ends;
    var rows := Reverse(kept);
    EndsItself(read);
    OlderTexts(older, read, rows, MAX_SAVED_ROWS, MAX_SAVED_CHARS);
    assert |all| == |older| + |read|;
  }
}
