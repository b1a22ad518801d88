/** Reading a terminal broker's status lines from its output. */
module BrokerStatus {

  const ATTACHED := "__OUTRIGHT_BROKER_ATTACHED_V1__"
  const DETACHED := "__OUTRIGHT_BROKER_DETACHED_V1__"
  const BUFFER := 40

  /** 1 for the attached line, -1 for the detached line, 0 for any other. */
  function Meaning(line: string): int {
    if line == ATTACHED then 1 else if line == DETACHED then -1 else 0
  }

  lemma MeaningIs(line: string)
    ensures Meaning(line) == 1 <==> line == "__OUTRIGHT_BROKER_ATTACHED_V1__"
    ensures Meaning(line) == -1 <==> line == "__OUTRIGHT_BROKER_DETACHED_V1__"
    ensures Meaning(line) == 0 || Meaning(line) == 1 || Meaning(line) == -1
  {
    assert DETACHED[18] != ATTACHED[18];
  }

  /** Where the unfinished last line starts. */
  function LineStart(text: string): (start: nat)
    ensures start <= |text| && (start > 0 ==> text[start - 1] == '\n')
    ensures forall i :: start <= i < |text| ==> text[i] != '\n'
  {
    if text == "" || text[|text| - 1] == '\n' then |text| else LineStart(text[..|text| - 1])
  }

  function Pending(text: string): string {
    text[LineStart(text)..]
  }

  /** The last status line among those that end at or after `from`, or 0. */
  function Since(text: string, from: nat): int {
    if |text| <= from then 0
    else
      var before, last := text[..|text| - 1], text[|text| - 1];
      if last == '\n' && Meaning(Pending(before)) != 0 then Meaning(Pending(before)) else Since(before, from)
  }

  lemma PendingAdds(text: string, c: char)
    requires c != '\n'
    ensures Pending(text + [c]) == Pending(text) + [c]
  {
    assert (text + [c])[..|text|] == text;
  }

  lemma PendingEnds(text: string)
    ensures Pending(text + ['\n']) == ""
  {}

  /** No status line is longer than the buffer. */
  lemma LongLine(line: string)
    ensures |line| > BUFFER ==> Meaning(line) == 0
  {}

  /** The scanner: the first bytes of the line being read, and the last status
      since it was taken. */
  class Scanner {
    const line: array<char>
    var used: nat
    var overflow: bool
    var status: int

    /** It has read `text`, and its status was last taken after `taken` bytes. */
    ghost predicate Valid(text: string, taken: nat)
      reads this, line
    {
      var pending := Pending(text);
      && line.Length == BUFFER && taken <= |text|
      && used == (if |pending| <= BUFFER then |pending| else BUFFER)
      && line[..used] == pending[..used]
      && overflow == (|pending| > BUFFER)
      && status == Since(text, taken)
    }

    constructor ()
      ensures Valid("", 0) && fresh(line)
    {
      line := new char[BUFFER];
      used, overflow, status := 0, false, 0;
    }

    method Scan(data: string, ghost text: string, ghost taken: nat)
      requires Valid(text, taken)
      modifies this`used, this`overflow, this`status, line
      ensures Valid(text + data, taken)
    {
      assert text + data[..0] == text;
      for index := 0 to |data|
        invariant Valid(text + data[..index], taken)
      {
        hide Valid;
        assert text + data[..index + 1] == text + data[..index] + [data[index]];
        ScanNext(data[index], text + data[..index], taken);
      }
      assert data[..|data|] == data;
    }

    method ScanNext(next: char, ghost text: string, ghost taken: nat)
      requires Valid(text, taken)
      modifies this`used, this`overflow, this`status, line
      ensures Valid(text + [next], taken)
    {
      hide Meaning, Pending;
      assert (text + [next])[..|text|] == text;
      if next != '\n' {
        PendingAdds(text, next);
        assert Since(text + [next], taken) == Since(text, taken);
        if used < line.Length {
          ghost var before := line[..used];
          line[used] := next;
          used := used + 1;
          assert line[..used] == before + [next];
          assert (Pending(text) + [next])[..used] == Pending(text) + [next];
        } else {
          overflow := true;
          assert (Pending(text) + [next])[..used] == Pending(text)[..used];
        }
        return;
      }
      assert !overflow ==> line[..used] == Pending(text);
      PendingEnds(text);
      LongLine(Pending(text));
      status := Recognised();
      assert status == Since(text + [next], taken);
      used := 0;
      overflow := false;
    }

    /** The status after the line in the buffer ends. */
    method Recognised() returns (now: int)
      requires used <= line.Length
      ensures now == if overflow || Meaning(line[..used]) == 0 then status else Meaning(line[..used])
    {
      if !overflow && used == |ATTACHED| && line[..used] == ATTACHED {
        now := 1;
      } else if !overflow && used == |DETACHED| && line[..used] == DETACHED {
        now := -1;
      } else {
        now := status;
      }
    }

    method TakeStatus(ghost text: string, ghost taken: nat) returns (taking: int)
      requires Valid(text, taken)
      modifies this`status
      ensures taking == Since(text, taken) && Valid(text, |text|)
    {
      taking := status;
      status := 0;
    }
  }

  /** However a text is cut into reads, its status is the same: the last status
      line of the later part, or else the last one before it. */
  lemma {:induction false} SinceSplits(text: string, more: string, from: nat)
    requires from <= |text|
    ensures Since(text + more, from) ==
            if Since(text + more, |text|) != 0 then Since(text + more, |text|) else Since(text, from)
  {
    if more == "" {
      assert text + more == text;
    } else {
      assert (text + more)[..|text + more| - 1] == text + more[..|more| - 1];
      SinceSplits(text, more[..|more| - 1], from);
    }
  }

  /** A whole line of the text: from after a newline, or the start, to a newline. */
  ghost predicate IsLine(text: string, start: nat, end: nat)
    requires end < |text|
  {
    && start <= end && text[end] == '\n' && (start > 0 ==> text[start - 1] == '\n')
    && forall i :: start <= i < end ==> text[i] != '\n'
  }

  lemma LineIsPending(text: string, start: nat, end: nat)
    requires end < |text| && IsLine(text, start, end)
    ensures Pending(text[..end]) == text[start..end]
  {
    assert LineStart(text[..end]) == start;
  }

  ghost predicate IsStatus(text: string, start: nat, end: nat, meaning: int) {
    start <= end < |text| && IsLine(text, start, end) && Meaning(text[start..end]) == meaning
  }

  /** No status line ends at or after `from`. */
  ghost predicate NoStatus(text: string, from: nat) {
    forall start: nat, end: nat, meaning :: from <= end && IsStatus(text, start, end, meaning) ==> meaning == 0
  }

  lemma StatusHere(text: string, start: nat, meaning: int)
    requires text != "" && IsStatus(text, start, |text| - 1, meaning)
    ensures Meaning(Pending(text[..|text| - 1])) == meaning
  {
    hide Meaning;
    LineIsPending(text, start, |text| - 1);
  }

  lemma PendingIsLine(text: string)
    requires text != "" && text[|text| - 1] == '\n'
    ensures IsLine(text, LineStart(text[..|text| - 1]), |text| - 1)
  {}

  lemma StatusBefore(text: string, start: nat, end: nat, meaning: int)
    requires end + 1 < |text|
    ensures IsStatus(text, start, end, meaning) == IsStatus(text[..|text| - 1], start, end, meaning)
  {
    hide Meaning;
    var before := text[..|text| - 1];
    if start <= end {
      assert text[start..end] == before[start..end];
    }
  }

  lemma NoStatusGrows(text: string, from: nat)
    requires text != "" && !(text[|text| - 1] == '\n' && Meaning(Pending(text[..|text| - 1])) != 0)
    ensures NoStatus(text, from) <==> NoStatus(text[..|text| - 1], from)
  {
    hide Meaning, Pending;
    var before, n := text[..|text| - 1], |text| - 1;
    forall start: nat, end: nat, meaning | end < n
      ensures IsStatus(text, start, end, meaning) == IsStatus(before, start, end, meaning)
    {
      StatusBefore(text, start, end, meaning);
    }
    forall start: nat, meaning | IsStatus(text, start, n, meaning)
      ensures meaning == 0
    {
      StatusHere(text, start, meaning);
    }
  }

  /** A status is reported exactly when some whole line is that status line and
      no status line ends after it. */
  lemma {:induction false} SinceIsLastLine(text: string, from: nat)
    ensures Since(text, from) == 0 <==> NoStatus(text, from)
    ensures Since(text, from) != 0 ==>
      exists start: nat, end: nat ::
        from <= end && IsStatus(text, start, end, Since(text, from)) && NoStatus(text, end + 1)
  {
    hide Meaning;
    if |text| > from {
      var before, n := text[..|text| - 1], |text| - 1;
      SinceIsLastLine(before, from);
      if text[n] == '\n' && Meaning(Pending(before)) != 0 {
        PendingIsLine(text);
        assert IsStatus(text, LineStart(before), n, Since(text, from));
        assert NoStatus(text, n + 1);
      } else {
        NoStatusGrows(text, from);
        if Since(text, from) != 0 {
          var start: nat, end: nat :| from <= end && IsStatus(before, start, end, Since(text, from))
            && NoStatus(before, end + 1);
          StatusBefore(text, start, end, Since(text, from));
          NoStatusGrows(text, end + 1);
          assert IsStatus(text, start, end, Since(text, from));
        }
      }
    }
  }
}
