/** The control sequences in a terminal's output, as a VT500 parser reads them
    (control functions and their coding: sections 5.3 and 5.4 of ECMA-48). */
module VtScanner {

  /** A UTF-16 code unit. */
  type Unit = u: nat | u < 0x1_0000
  type Text = seq<Unit>

  datatype State = Ground | Escape | EscapeIntermediate | Csi | CsiParam | CsiIntermediate | CsiIgnore | Osc | Str

  datatype Kind = CsiKind | EscKind | StringKind | Ignored

  datatype Token = Token(start: nat, end: nat, kind: Kind, prefix: Text, params: Text, intermediates: Text,
                         final: Text, controls: Text)

  /** The scanner between two code units: the parser state, the sequence it is
      in, the index it reads next and what it visited so far. */
  datatype Scan = Scan(state: State, token: Token, at: nat, visited: seq<Token>)

  const NO_TOKEN := Token(0, 0, Ignored, [], [], [], [], [])
  const BEGIN := Scan(Ground, NO_TOKEN, 0, [])

  predicate InRange(code: int, low: int, high: int) { low <= code <= high }

  /** The C0 controls that run where they are found outside a string. */
  predicate Executed(code: int) {
    0 <= code <= 0x17 || code == 0x19 || InRange(code, 0x1c, 0x1f)
  }

  /** CAN, SUB, ST and the other C1 controls end any sequence. */
  predicate Ending(code: int) {
    code == 0x18 || code == 0x1a || InRange(code, 0x80, 0x8f) || InRange(code, 0x91, 0x97)
    || code == 0x99 || code == 0x9a || code == 0x9c
  }

  predicate Starter(code: int) {
    code == 0x1b || code == 0x9b || code == 0x9d || code == 0x90 || code == 0x98 || code == 0x9e || code == 0x9f
  }

  function StartState(code: int): State {
    if code == 0x1b then Escape else if code == 0x9b then Csi else if code == 0x9d then Osc else Str
  }

  /** The state that ESC and one more unit lead to, if that starts a CSI or a
      string. */
  function EscapeString(code: int): State {
    if code == 0x5b then Csi
    else if code == 0x5d then Osc
    else if code == 0x50 || code == 0x58 || code == 0x5e || code == 0x5f then Str
    else Ground
  }

  predicate InString(state: State) { state == Osc || state == Str }

  predicate HighSurrogate(code: int) { InRange(code, 0xd800, 0xdbff) }

  // ----- one code unit -----

  function Finish(s: Scan, end: nat, kind: Kind, final: Text): Scan {
    var token := s.token.(end := end, kind := kind, final := final);
    s.(state := Ground, token := token, visited := s.visited + [token])
  }

  /** Ends a sequence that was not dispatched. */
  function Drop(s: Scan, end: nat): Scan {
    Finish(s, end, if InString(s.state) then StringKind else Ignored, [])
  }

  function EscapeStep(s: Scan, unit: Unit): Scan {
    if s.state == Escape && EscapeString(unit) != Ground then s.(state := EscapeString(unit))
    else if InRange(unit, 0x20, 0x2f) then
      s.(state := EscapeIntermediate, token := s.token.(intermediates := s.token.intermediates + [unit]))
    else Finish(s, s.at + 1, EscKind, [unit])
  }

  function CsiStep(s: Scan, unit: Unit): Scan {
    if InRange(unit, 0x40, 0x7e) then Finish(s, s.at + 1, CsiKind, [unit])
    else if InRange(unit, 0x20, 0x2f) then
      s.(state := CsiIntermediate, token := s.token.(intermediates := s.token.intermediates + [unit]))
    else if s.state == CsiIntermediate || (s.state == CsiParam && unit >= 0x3c) then s.(state := CsiIgnore)
    else if unit >= 0x3c then s.(state := CsiParam, token := s.token.(prefix := [unit]))
    else s.(state := CsiParam, token := s.token.(params := s.token.params + [unit]))
  }

  /** Reads the unit at s.at, which starts a sequence or is inside one. */
  function Read(buffer: Text, s: Scan): Scan
    requires s.at < |buffer|
  {
    var unit := buffer[s.at];
    var code := if unit < 0xa0 then unit else 0xa0;
    if code == 0x1b && InString(s.state) && s.at + 1 < |buffer| && buffer[s.at + 1] == 0x5c then
      Drop(s, s.at + 2).(at := s.at + 1)
    else if Starter(code) then
      var t := if s.state != Ground then Drop(s, s.at) else s;
      t.(state := StartState(code), token := NO_TOKEN.(start := s.at))
    else if Ending(code) then Drop(s, s.at + 1)
    else if s.state == Osc then (if code == 0x07 then Drop(s, s.at + 1) else s)
    else if s.state == Str || code == 0x7f then s
    else if Executed(code) then s.(token := s.token.(controls := s.token.controls + [unit]))
    else if s.state == CsiIgnore then (if InRange(code, 0x40, 0x7e) then Drop(s, s.at + 1) else s)
    else if code == 0xa0 then
      var pair := if HighSurrogate(unit) then 1 else 0;
      Drop(s, s.at + 1 + pair).(at := s.at + pair)
    else if s.state == Escape || s.state == EscapeIntermediate then EscapeStep(s, unit)
    else CsiStep(s, unit)
  }

  /** One turn of the scanner: printed text runs on to the next unit that
      starts a sequence. */
  function Next(buffer: Text, s: Scan): (r: Scan)
    requires s.at < |buffer|
    ensures s.at < r.at <= s.at + 2
  {
    var t := if s.state != Ground || Starter(buffer[s.at]) then Read(buffer, s) else s;
    t.(at := t.at + 1)
  }

  /** The scanner once it has read on to index end. */
  function ScanTo(buffer: Text, s: Scan, end: nat): Scan
    requires end <= |buffer|
    decreases if s.at < end then end - s.at else 0
  {
    if s.at < end then ScanTo(buffer, Next(buffer, s), end) else s
  }

  /** A sequence still open at the buffer's end ends there. */
  function Close(buffer: Text, s: Scan): Scan {
    if s.state != Ground then Drop(s, |buffer|) else s
  }

  /** Every control sequence in buffer, in order. */
  function Tokens(buffer: Text): seq<Token> {
    Close(buffer, ScanTo(buffer, BEGIN, |buffer|)).visited
  }

  // ----- any slicing reads the same -----

  lemma {:induction false} ScanThen(buffer: Text, s: Scan, mid: nat, end: nat)
    requires mid <= end <= |buffer|
    ensures ScanTo(buffer, ScanTo(buffer, s, mid), end) == ScanTo(buffer, s, end)
    decreases if s.at < mid then mid - s.at else 0
  {
    if s.at < mid {
      ScanThen(buffer, Next(buffer, s), mid, end);
    }
  }

  /** A reader that goes on where it stopped, as the page lets it run. */
  class ControlScanner {
    const buffer: Text
    var state: State
    var token: Token
    var at: nat
    var visited: seq<Token>

    ghost function Now(): Scan
      reads this
    {
      Scan(state, token, at, visited)
    }

    constructor (buffer: Text)
      ensures this.buffer == buffer && Now() == BEGIN
    {
      this.buffer := buffer;
      state, token, at, visited := Ground, NO_TOKEN, 0, [];
    }

    /** Reads on to index end; the sequence open at the buffer's end, if any,
        ends with it. */
    method ReadOn(end: nat)
      requires end <= |buffer|
      modifies this
      ensures Now() == if end == |buffer| then Close(buffer, ScanTo(buffer, old(Now()), end))
        else ScanTo(buffer, old(Now()), end)
    {
      hide Next;
      while at < end
        invariant ScanTo(buffer, Now(), end) == ScanTo(buffer, old(Now()), end)
      {
        var s := Next(buffer, Scan(state, token, at, visited));
        state, token, at, visited := s.state, s.token, s.at, s.visited;
      }
      if end == |buffer| && state != Ground {
        var s := Drop(Scan(state, token, at, visited), |buffer|);
        state, token, visited := s.state, s.token, s.visited;
      }
    }
  }

  /** However the buffer is sliced for reading, the same sequences are visited. */
  method ScanSlices(buffer: Text, ends: seq<nat>) returns (tokens: seq<Token>)
    requires forall i :: 0 <= i < |ends| ==> ends[i] < |buffer|
    requires forall i, j :: 0 <= i < j < |ends| ==> ends[i] <= ends[j]
    ensures tokens == Tokens(buffer)
  {
    var scanner := new ControlScanner(buffer);
    for i := 0 to |ends|
      invariant fresh(scanner) && scanner.buffer == buffer
      invariant i > 0 ==> scanner.Now() == ScanTo(buffer, BEGIN, ends[i - 1])
      invariant i == 0 ==> scanner.Now() == BEGIN
    {
      if i > 0 {
        ScanThen(buffer, BEGIN, ends[i - 1], ends[i]);
      }
      scanner.ReadOn(ends[i]);
    }
    if ends != [] {
      ScanThen(buffer, BEGIN, ends[|ends| - 1], |buffer|);
    }
    scanner.ReadOn(|buffer|);
    tokens := scanner.visited;
  }

  // ----- where the sequences are -----

  ghost predicate Covered(tokens: seq<Token>, i: nat) {
    exists k :: 0 <= k < |tokens| && tokens[k].start <= i < tokens[k].end
  }

  /** Sequences are not empty and follow each other up to `limit`. */
  ghost predicate InOrder(tokens: seq<Token>, limit: nat) {
    && (forall k :: 0 <= k < |tokens| ==> tokens[k].start < tokens[k].end <= limit)
    && (forall j, k :: 0 <= j < k < |tokens| ==> tokens[j].end <= tokens[k].start)
  }

  /** What was read is visited or printed: a unit that starts a sequence is
      never printed. */
  ghost predicate Spanned(buffer: Text, s: Scan) {
    && (s.state != Ground ==> s.token.start < s.at <= |buffer|)
    && InOrder(s.visited, if s.state == Ground then s.at else s.token.start)
    && (forall i :: 0 <= i < s.at && i < |buffer| && Starter(buffer[i]) ==>
         Covered(s.visited, i) || (s.state != Ground && s.token.start <= i))
  }

  /** What one turn can do to the sequences: print, go on in a sequence, start
      one (which may end one just there), or end one. */
  ghost predicate Turn(buffer: Text, s: Scan, r: Scan)
    requires s.at < |buffer|
  {
    || (s.state == Ground && !Starter(buffer[s.at]) && r == s.(at := s.at + 1))
    || (s.state != Ground && r.state != Ground && r.visited == s.visited && r.token.start == s.token.start
       && r.at == s.at + 1)
    || (r.state != Ground && r.token.start == s.at && r.at == s.at + 1
        && (if s.state == Ground then r.visited == s.visited else Ended(s, r, s.at)))
    || (s.state != Ground && r.state == Ground && s.at < r.at && Ended(s, r, r.at))
  }

  ghost predicate Ended(s: Scan, r: Scan, end: nat) {
    && |r.visited| == |s.visited| + 1 && r.visited[..|s.visited|] == s.visited
    && r.visited[|s.visited|].start == s.token.start && r.visited[|s.visited|].end == end
  }

  lemma NextTurn(buffer: Text, s: Scan)
    requires s.at < |buffer|
    ensures Turn(buffer, s, Next(buffer, s))
  {
    var r := Next(buffer, s);
    assert |r.visited| > |s.visited| ==> r.visited[..|s.visited|] == s.visited;
  }

  lemma CoveredMore(s: Scan, r: Scan, end: nat, i: nat)
    requires Ended(s, r, end) && (Covered(s.visited, i) || s.token.start <= i < end)
    ensures Covered(r.visited, i)
  {
    if s.token.start <= i < end {
      assert r.visited[|s.visited|].start <= i < r.visited[|s.visited|].end;
    } else {
      var k :| 0 <= k < |s.visited| && s.visited[k].start <= i < s.visited[k].end;
      assert r.visited[k] == r.visited[..|s.visited|][k];
    }
  }

  lemma InOrderMore(s: Scan, r: Scan, end: nat)
    requires Ended(s, r, end) && InOrder(s.visited, s.token.start) && s.token.start < end
    ensures InOrder(r.visited, end)
  {
    assert forall k :: 0 <= k < |s.visited| ==> r.visited[k] == r.visited[..|s.visited|][k] == s.visited[k];
  }

  lemma TurnSpanned(buffer: Text, s: Scan, r: Scan)
    requires s.at < |buffer| && Spanned(buffer, s) && Turn(buffer, s, r)
    ensures Spanned(buffer, r)
  {
    var ended := s.state != Ground && |r.visited| > |s.visited|;
    if ended {
      var end := r.visited[|s.visited|].end;
      InOrderMore(s, r, end);
      forall i | 0 <= i < end && i < |buffer| && Starter(buffer[i])
        ensures Covered(r.visited, i)
      {
        CoveredMore(s, r, end, i);
      }
    }
    hide Covered;
  }

  lemma {:induction false} ScanSpanned(buffer: Text, s: Scan, end: nat)
    requires end <= |buffer| && Spanned(buffer, s)
    ensures Spanned(buffer, ScanTo(buffer, s, end)) && end <= ScanTo(buffer, s, end).at
    decreases if s.at < end then end - s.at else 0
  {
    hide Spanned, Next;
    if s.at < end {
      NextTurn(buffer, s);
      TurnSpanned(buffer, s, Next(buffer, s));
      ScanSpanned(buffer, Next(buffer, s), end);
    }
  }

  /** The spans are not empty, do not overlap and stand in order; outside them
      no unit starts a sequence.  Only the last can end past the buffer, by
      one. */
  lemma TokensSpan(buffer: Text)
    ensures InOrder(Tokens(buffer), |buffer| + 1)
    ensures forall i :: 0 <= i < |buffer| && !Covered(Tokens(buffer), i) ==> !Starter(buffer[i])
  {
    ScanSpanned(buffer, BEGIN, |buffer|);
    ScanBound(buffer, BEGIN, |buffer|);
    var s := ScanTo(buffer, BEGIN, |buffer|);
    if s.state != Ground {
      var r := Close(buffer, s);
      assert r.visited[..|s.visited|] == s.visited;
      InOrderMore(s, r, |buffer|);
      forall i | 0 <= i < |buffer| && Starter(buffer[i])
        ensures Covered(r.visited, i)
      {
        CoveredMore(s, r, |buffer|, i);
      }
    }
  }

  lemma {:induction false} ScanBound(buffer: Text, s: Scan, end: nat)
    requires end <= |buffer|
    ensures ScanTo(buffer, s, end).at <= end + 1 || ScanTo(buffer, s, end).at == s.at
    decreases if s.at < end then end - s.at else 0
  {
    hide Read;
    if s.at < end {
      ScanBound(buffer, Next(buffer, s), end);
    }
  }

  /** The last span ends past the buffer exactly when the buffer ends in a
      high surrogate that breaks off an escape or control sequence. */
  predicate CutPair(buffer: Text) {
    |buffer| > 0 && HighSurrogate(buffer[|buffer| - 1]) && BrokenAt(ScanTo(buffer, BEGIN, |buffer| - 1), |buffer| - 1)
  }

  predicate BrokenAt(s: Scan, at: nat) {
    s.at == at && s.state != Ground && !InString(s.state) && s.state != CsiIgnore
  }

  ghost predicate Fit(tokens: seq<Token>, limit: nat) {
    forall k :: 0 <= k < |tokens| ==> tokens[k].end <= limit
  }

  lemma TokensFit(buffer: Text)
    ensures Fit(Tokens(buffer), |buffer|) <==> !CutPair(buffer)
  {
    var n := |buffer|;
    if buffer != [] {
      ScanThen(buffer, BEGIN, n - 1, n);
      ScanSpanned(buffer, BEGIN, n - 1);
      ScanBound(buffer, BEGIN, n - 1);
      var s := ScanTo(buffer, BEGIN, n - 1);
      var r := ScanTo(buffer, s, n);
      if s.at == n - 1 {
        LastUnit(buffer, s);
        assert r == Next(buffer, s);
      }
      CloseFits(buffer, r);
    }
  }

  lemma LastUnit(buffer: Text, s: Scan)
    requires |buffer| > 0 && s.at == |buffer| - 1 && Spanned(buffer, s)
    ensures Spanned(buffer, Next(buffer, s))
    ensures if HighSurrogate(buffer[s.at]) && BrokenAt(s, s.at) then Broke(Next(buffer, s), |buffer|)
            else Next(buffer, s).at == |buffer|
  {
    NextTurn(buffer, s);
    TurnSpanned(buffer, s, Next(buffer, s));
    LastStep(buffer, s);
  }

  predicate Broke(r: Scan, n: nat) {
    r.state == Ground && r.visited != [] && r.visited[|r.visited| - 1].end == n + 1
  }

  lemma LastStep(buffer: Text, s: Scan)
    requires |buffer| > 0 && s.at == |buffer| - 1
    ensures if HighSurrogate(buffer[s.at]) && BrokenAt(s, s.at) then Broke(Next(buffer, s), |buffer|)
            else Next(buffer, s).at == |buffer|
  {
  }

  lemma CloseFits(buffer: Text, r: Scan)
    requires Spanned(buffer, r)
    ensures r.at <= |buffer| ==> Fit(Close(buffer, r).visited, |buffer|)
    ensures Broke(r, |buffer|) ==> !Fit(Close(buffer, r).visited, |buffer|)
  {
  }
}
