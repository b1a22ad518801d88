/** The window a supervisor gives a terminal whose owner is gone. */
module DetachWindow {
  import opened BrokerStatus

  const MAX_WINDOW := 600000
  const MAX_GRACE := 10000

  /** A window's length in milliseconds, as the command line admits it. */
  type Window = w: nat | 50 <= w <= MAX_WINDOW witness 50

  function Allowance(window: Window): nat {
    window + if window < MAX_GRACE then window else MAX_GRACE
  }

  /** One turn of the loop: whether the owner was found gone, the clock before
      the status pipe was drained, what was read since the turn before (while
      polling, and by that drain), and the clock after. */
  datatype Turn = Turn(ownerGone: bool, check: int, read: string, after: int)

  datatype State = State(ownerLost: bool, reattached: bool, deadline: int, expired: bool)

  const START := State(false, false, 0, false)

  function Decide(s: State, window: Window, turn: Turn, status: int): State {
    if s.expired then s
    else
      var lost := s.ownerLost || turn.ownerGone;
      var reattached := if status != 0 then status > 0 else s.reattached;
      var deadline := if status != 0 then 0 else s.deadline;
      if deadline != 0 && turn.check >= deadline then State(lost, reattached, deadline, true)
      else if lost && !reattached && deadline == 0 then State(lost, reattached, turn.after + Allowance(window), false)
      else State(lost, reattached, deadline, false)
  }

  function Text(turns: seq<Turn>): string {
    if turns == [] then "" else Text(turns[..|turns| - 1]) + turns[|turns| - 1].read
  }

  function Run(window: Window, turns: seq<Turn>): State {
    if turns == [] then START
    else
      var before := turns[..|turns| - 1];
      Decide(Run(window, before), window, turns[|turns| - 1], Since(Text(turns), |Text(before)|))
  }

  /** Both clock samples of every turn, in order. */
  ghost predicate Clocked(turns: seq<Turn>) {
    && (forall i :: 0 <= i < |turns| ==> 0 < turns[i].check <= turns[i].after)
    && (forall i, j :: 0 <= i < j < |turns| ==> turns[i].after <= turns[j].check)
  }

  // ----- the loop -----

  class Supervisor {
    const scanner: Scanner
    const window: Window
    var ownerLost: bool
    var reattached: bool
    var deadline: int
    var stopping: bool

    ghost predicate Valid(text: string)
      reads this, scanner, scanner.line
    {
      scanner.Valid(text, |text|)
    }

    ghost function Now(): State
      reads this
    {
      State(ownerLost, reattached, deadline, stopping)
    }

    constructor (window: Window)
      ensures Valid("") && Now() == START && this.window == window && fresh(scanner) && fresh(scanner.line)
    {
      scanner := new Scanner();
      this.window := window;
      ownerLost, reattached, deadline, stopping := false, false, 0, false;
    }

    /** Reads what the pipe holds, in whatever pieces it comes. */
    method Drain(pieces: seq<string>, ghost text: string) returns (status: int)
      requires Valid(text)
      modifies scanner, scanner.line
      ensures Valid(text + Joined(pieces)) && status == Since(text + Joined(pieces), |text|)
    {
      assert text + Joined(pieces[..0]) == text;
      for i := 0 to |pieces|
        invariant scanner.Valid(text + Joined(pieces[..i]), |text|)
      {
        assert pieces[..i + 1][..i] == pieces[..i];
        assert text + Joined(pieces[..i + 1]) == text + Joined(pieces[..i]) + pieces[i];
        scanner.Scan(pieces[i], text + Joined(pieces[..i]), |text|);
      }
      assert pieces[..|pieces|] == pieces;
      status := scanner.TakeStatus(text + Joined(pieces), |text|);
    }

    /** A turn of the Linux and macOS loops. */
    method Turns(ownerGone: bool, check: int, pieces: seq<string>, after: int, ghost text: string)
      requires Valid(text) && !stopping
      modifies this, scanner, scanner.line
      ensures Valid(text + Joined(pieces))
      ensures Now() == Decide(old(Now()), window, Turn(ownerGone, check, Joined(pieces), after),
        Since(text + Joined(pieces), |text|))
    {
      if ownerGone {
        ownerLost := true;
      }
      var status := Drain(pieces, text);
      if status != 0 {
        reattached := status > 0;
        deadline := 0;
      }
      if deadline != 0 && check >= deadline {
        stopping := true;
      } else if ownerLost && !reattached && deadline == 0 {
        deadline := after + Allowance(window);
      }
    }

    /** A turn of the Windows loop, which leaves at once when the window ends. */
    method TurnsWindows(ownerGone: bool, check: int, pieces: seq<string>, after: int, ghost text: string)
      requires Valid(text) && !stopping
      modifies this, scanner, scanner.line
      ensures Valid(text + Joined(pieces))
      ensures Now() == Decide(old(Now()), window, Turn(ownerGone, check, Joined(pieces), after),
        Since(text + Joined(pieces), |text|))
    {
      ownerLost := ownerLost || ownerGone;
      var status := Drain(pieces, text);
      if status != 0 {
        reattached := status > 0;
        deadline := 0;
      }
      if deadline != 0 && check >= deadline {
        stopping := true;
        return;
      }
      if ownerLost && !reattached && deadline == 0 {
        deadline := after + Allowance(window);
      }
    }
  }

  function Joined(pieces: seq<string>): string {
    if pieces == [] then "" else Joined(pieces[..|pieces| - 1]) + pieces[|pieces| - 1]
  }

  // ----- when a run expires -----

  ghost predicate LostBy(turns: seq<Turn>, k: nat)
    requires k < |turns|
  {
    exists i :: 0 <= i <= k && turns[i].ownerGone
  }

  /** From the end of turn `k` to the end of turn `i` the owner was gone, the
      last status line was not `attached`, and no status line was read. */
  ghost predicate Waits(turns: seq<Turn>, k: nat, i: nat)
    requires k <= i < |turns|
  {
    && LostBy(turns, k) && Since(Text(turns[..k + 1]), 0) != 1
    && Since(Text(turns[..i + 1]), |Text(turns[..k + 1])|) == 0
  }

  ghost predicate NoneWaits(turns: seq<Turn>, i: nat)
    requires i < |turns|
  {
    forall k :: 0 <= k <= i ==> !Waits(turns, k, i)
  }

  ghost predicate Earliest(turns: seq<Turn>, k: nat, i: nat)
    requires k <= i < |turns|
  {
    Waits(turns, k, i) && forall j :: 0 <= j < k ==> !Waits(turns, j, i)
  }

  /** The deadline is the one of the first turn that has been waited on since. */
  ghost predicate Tracks(window: Window, turns: seq<Turn>, i: nat, s: State)
    requires i < |turns|
  {
    && !s.expired && (s.ownerLost <==> LostBy(turns, i))
    && (s.reattached <==> Since(Text(turns[..i + 1]), 0) == 1)
    && (s.deadline == 0 ==> NoneWaits(turns, i))
    && (s.deadline != 0 ==>
      exists k :: 0 <= k <= i && Earliest(turns, k, i) && s.deadline == turns[k].after + Allowance(window))
  }

  /** Turn `i` ends a wait that has lasted the window and a grace of as long
      again, but at most ten seconds. */
  ghost predicate Over(window: Window, turns: seq<Turn>, i: nat)
    requires i < |turns|
  {
    exists k :: 0 <= k < i && Waits(turns, k, i)
      && turns[i].check - turns[k].after >= window + (if window < 10000 then window else 10000)
  }

  lemma TextGrows(turns: seq<Turn>, k: nat, i: nat)
    requires k <= i <= |turns|
    ensures |Text(turns[..k])| <= |Text(turns[..i])| && Text(turns[..i])[..|Text(turns[..k])|] == Text(turns[..k])
    decreases i
  {
    if k < i {
      TextGrows(turns, k, i - 1);
      assert turns[..i][..i - 1] == turns[..i - 1];
    }
  }

  lemma TextNext(turns: seq<Turn>, i: nat)
    requires i < |turns|
    ensures Text(turns[..i + 1]) == Text(turns[..i]) + turns[i].read
  {
    assert turns[..i + 1][..i] == turns[..i];
  }

  /** A wait goes on through a turn exactly when that turn reads no status line. */
  lemma WaitsNext(turns: seq<Turn>, k: nat, i: nat)
    requires k < i < |turns|
    ensures Waits(turns, k, i) <==> Waits(turns, k, i - 1) && Since(Text(turns[..i + 1]), |Text(turns[..i])|) == 0
  {
    TextNext(turns, i);
    TextGrows(turns, k + 1, i);
    SinceSplits(Text(turns[..i]), turns[i].read, |Text(turns[..k + 1])|);
  }

  lemma SinceEnd(text: string)
    ensures Since(text, |text|) == 0
  {}

  ghost predicate Before(window: Window, turns: seq<Turn>, i: nat)
    requires i < |turns|
  {
    if i == 0 then true else Tracks(window, turns, i - 1, Run(window, turns[..i]))
  }

  lemma RunNext(window: Window, turns: seq<Turn>, i: nat)
    requires i < |turns|
    ensures Run(window, turns[..i + 1])
         == Decide(Run(window, turns[..i]), window, turns[i], Since(Text(turns[..i + 1]), |Text(turns[..i])|))
  {
    assert turns[..i + 1][..i] == turns[..i];
  }

  /** The last status line decides whether a runtime is attached. */
  lemma ReattachedNext(window: Window, turns: seq<Turn>, i: nat)
    requires i < |turns| && Before(window, turns, i)
    ensures
      var status := Since(Text(turns[..i + 1]), |Text(turns[..i])|);
      (if status != 0 then status > 0 else Run(window, turns[..i]).reattached) <==> Since(Text(turns[..i + 1]), 0) == 1
  {
    TextNext(turns, i);
    SinceSplits(Text(turns[..i]), turns[i].read, 0);
    SinceIsLastLine(Text(turns[..i + 1]), |Text(turns[..i])|);
  }

  lemma LostNext(turns: seq<Turn>, i: nat)
    requires i < |turns|
    ensures LostBy(turns, i) <==> turns[i].ownerGone || (i > 0 && LostBy(turns, i - 1))
  {}

  lemma FreshWait(turns: seq<Turn>, i: nat)
    requires i < |turns|
    ensures Waits(turns, i, i) <==> LostBy(turns, i) && Since(Text(turns[..i + 1]), 0) != 1
  {
    SinceEnd(Text(turns[..i + 1]));
  }

  /** A turn that reads a status line starts the waiting afresh. */
  lemma StatusTurn(window: Window, turns: seq<Turn>, i: nat)
    requires Clocked(turns) && i < |turns| && Before(window, turns, i)
    requires Since(Text(turns[..i + 1]), |Text(turns[..i])|) != 0
    ensures !Over(window, turns, i) && Tracks(window, turns, i, Run(window, turns[..i + 1]))
  {
    hide Since, Text;
    RunNext(window, turns, i);
    ReattachedNext(window, turns, i);
    LostNext(turns, i);
    FreshWait(turns, i);
    assert Run(window, turns[..0]) == START;
    forall k | 0 <= k < i
      ensures !Waits(turns, k, i)
    {
      WaitsNext(turns, k, i);
    }
    hide Waits, LostBy;
  }

  lemma EarliestKept(turns: seq<Turn>, k: nat, i: nat)
    requires k < i < |turns| && Earliest(turns, k, i - 1) && Since(Text(turns[..i + 1]), |Text(turns[..i])|) == 0
    ensures Earliest(turns, k, i)
  {
    hide Since, Text, Waits;
    WaitsNext(turns, k, i);
    forall j | 0 <= j < k
      ensures !Waits(turns, j, i)
    {
      WaitsNext(turns, j, i);
    }
  }

  /** Of all the waits that are going on, the earliest is over first. */
  lemma EarliestDecides(window: Window, turns: seq<Turn>, k: nat, i: nat)
    requires Clocked(turns) && k < i < |turns| && Earliest(turns, k, i)
    ensures Over(window, turns, i)
      <==> turns[i].check - turns[k].after >= window + (if window < 10000 then window else 10000)
  {
    hide Waits;
  }

  lemma NothingWaits(window: Window, turns: seq<Turn>, i: nat)
    requires i < |turns| && Since(Text(turns[..i + 1]), |Text(turns[..i])|) == 0
    requires i > 0 ==> NoneWaits(turns, i - 1)
    ensures !Over(window, turns, i) && forall k :: 0 <= k < i ==> !Waits(turns, k, i)
  {
    hide Since, Text, Waits;
    forall k | 0 <= k < i
      ensures !Waits(turns, k, i)
    {
      WaitsNext(turns, k, i);
    }
  }

  /** A turn that reads none goes on with the wait there was, if any. */
  lemma QuietTurn(window: Window, turns: seq<Turn>, i: nat)
    requires Clocked(turns) && i < |turns| && Before(window, turns, i)
    requires Since(Text(turns[..i + 1]), |Text(turns[..i])|) == 0
    ensures Run(window, turns[..i + 1]).expired <==> Over(window, turns, i)
    ensures !Over(window, turns, i) ==> Tracks(window, turns, i, Run(window, turns[..i + 1]))
  {
    var s, t := Run(window, turns[..i]), Run(window, turns[..i + 1]);
    RunNext(window, turns, i);
    ReattachedNext(window, turns, i);
    LostNext(turns, i);
    assert turns[i].after > 0;
    assert i == 0 ==> s == State(false, false, 0, false);
    assert !s.expired && (s.ownerLost || turns[i].ownerGone <==> LostBy(turns, i));
    if s.deadline != 0 {
      assert i > 0;
      assert exists k :: 0 <= k < i && Earliest(turns, k, i - 1) && s.deadline == turns[k].after + Allowance(window);
      var k :| 0 <= k < i && Earliest(turns, k, i - 1) && s.deadline == turns[k].after + Allowance(window);
      EarliestKept(turns, k, i);
      EarliestDecides(window, turns, k, i);
    } else {
      assert i > 0 ==> NoneWaits(turns, i - 1);
      NothingWaits(window, turns, i);
      FreshWait(turns, i);
      assert Waits(turns, i, i) ==> Earliest(turns, i, i);
      assert !Waits(turns, i, i) ==> NoneWaits(turns, i);
    }
  }

  /** What the loop knows after every turn, until one ends the provider. */
  lemma {:induction false} Tracked(window: Window, turns: seq<Turn>, i: nat)
    requires Clocked(turns) && i < |turns|
    requires forall j :: 0 <= j < i ==> !Over(window, turns, j)
    ensures Before(window, turns, i)
    ensures Run(window, turns[..i + 1]).expired <==> Over(window, turns, i)
    decreases i
  {
    if i > 0 {
      Tracked(window, turns, i - 1);
      if Since(Text(turns[..i]), |Text(turns[..i - 1])|) != 0 {
        StatusTurn(window, turns, i - 1);
      } else {
        QuietTurn(window, turns, i - 1);
      }
    }
    assert Before(window, turns, i);
    if Since(Text(turns[..i + 1]), |Text(turns[..i])|) != 0 {
      StatusTurn(window, turns, i);
    } else {
      QuietTurn(window, turns, i);
    }
  }

  /** The provider is ended at exactly the first turn whose wait is over: the
      owner has been gone, and nothing attached or reported, for the whole
      window and its grace. */
  lemma {:induction false} ExpiresExactlyWhenOver(window: Window, turns: seq<Turn>)
    requires Clocked(turns)
    ensures Run(window, turns).expired <==> exists i :: 0 <= i < |turns| && Over(window, turns, i)
  {
    hide Over, Run;
    if turns == [] {
      NotExpiredAtStart(window);
    } else {
      var n := |turns| - 1;
      var before := turns[..n];
      assert Clocked(before);
      ExpiresExactlyWhenOver(window, before);
      forall i | 0 <= i < n
        ensures Over(window, before, i) <==> Over(window, turns, i)
      {
        OverBefore(window, turns, i);
      }
      assert turns[..n + 1] == turns;
      if Run(window, before).expired {
        RunNext(window, turns, n);
        assert Run(window, turns).expired;
        var i :| 0 <= i < n && Over(window, before, i);
        assert Over(window, turns, i);
      } else {
        Tracked(window, turns, n);
      }
    }
  }

  lemma NotExpiredAtStart(window: Window)
    ensures !Run(window, []).expired
  {}

  lemma OverBefore(window: Window, turns: seq<Turn>, i: nat)
    requires i + 1 < |turns|
    ensures Over(window, turns[..|turns| - 1], i) <==> Over(window, turns, i)
  {
    var before := turns[..|turns| - 1];
    forall k: nat | k <= i
      ensures Waits(before, k, i) <==> Waits(turns, k, i)
    {
      assert before[..k + 1] == turns[..k + 1] && before[..i + 1] == turns[..i + 1];
      assert LostBy(before, k) <==> LostBy(turns, k);
    }
  }

  /** By turn `k` the owner was gone, and everything up to the last status line
      had been read; the whole window and its grace followed. */
  ghost predicate WindowGiven(window: Window, turns: seq<Turn>, k: nat, i: nat, written: string)
    requires k <= i < |turns|
  {
    && LostBy(turns, k) && NoStatus(written, |Text(turns[..k + 1])|)
    && turns[i].check - turns[k].after >= window + (if window < 10000 then window else 10000)
  }

  /** When the provider is ended at a turn whose drain emptied the pipe, no
      status line was waiting at the clock sample that decided it, and the last
      status line the broker had written was not `attached`. */
  lemma NothingPending(window: Window, turns: seq<Turn>, i: nat, written: string)
    requires Clocked(turns) && i < |turns| && Over(window, turns, i)
    requires |Text(turns[..i])| <= |written| <= |Text(turns[..i + 1])|
    requires written == Text(turns[..i + 1])[..|written|]
    ensures NoStatus(written, |Text(turns[..i])|) && Since(written, 0) != 1
    ensures exists k :: 0 <= k < i && WindowGiven(window, turns, k, i, written)
  {
    hide *;
    var k := OverWait(window, turns, i);
    TextGrows(turns, k + 1, i);
    TextGrows(turns, k + 1, i + 1);
    var all, from := Text(turns[..i + 1]), |Text(turns[..k + 1])|;
    assert all[..from] == Text(turns[..k + 1]);
    PrefixQuiet(all, from, |Text(turns[..i])|, written);
    WindowIs(window, turns, k, i, written);
  }

  lemma WindowIs(window: Window, turns: seq<Turn>, k: nat, i: nat, written: string)
    requires k <= i < |turns| && LostBy(turns, k) && NoStatus(written, |Text(turns[..k + 1])|)
    requires turns[i].check - turns[k].after >= window + (if window < 10000 then window else 10000)
    ensures WindowGiven(window, turns, k, i, written)
  {
    hide LostBy, NoStatus, Text;
  }

  lemma OverWait(window: Window, turns: seq<Turn>, i: nat) returns (k: nat)
    requires i < |turns| && Over(window, turns, i)
    ensures k < i && LostBy(turns, k)
    ensures turns[i].check - turns[k].after >= window + (if window < 10000 then window else 10000)
    ensures Since(Text(turns[..i + 1]), |Text(turns[..k + 1])|) == 0 && Since(Text(turns[..k + 1]), 0) != 1
  {
    hide Since, Text, LostBy;
    k :| 0 <= k < i && Waits(turns, k, i)
      && turns[i].check - turns[k].after >= window + (if window < 10000 then window else 10000);
  }

  lemma PrefixQuiet(text: string, from: nat, later: nat, written: string)
    requires from <= later <= |written| <= |text| && written == text[..|written|]
    requires Since(text, from) == 0 && Since(text[..from], 0) != 1
    ensures NoStatus(written, from) && NoStatus(written, later) && Since(written, 0) != 1
  {
    hide *;
    SinceIsLastLine(text, from);
    NoStatusPrefix(text, from, |written|);
    NoStatusLater(written, from, later);
    LastStatusStays(written, from);
    assert written[..from] == text[..from];
  }

  lemma NoStatusPrefix(text: string, from: nat, end: nat)
    requires end <= |text| && NoStatus(text, from)
    ensures NoStatus(text[..end], from)
  {
    hide Meaning;
    forall start: nat, stop: nat, meaning | from <= stop && IsStatus(text[..end], start, stop, meaning)
      ensures meaning == 0
    {
      assert text[..end][start..stop] == text[start..stop];
      assert IsStatus(text, start, stop, meaning);
    }
  }

  lemma LastStatusStays(text: string, from: nat)
    requires from <= |text| && NoStatus(text, from)
    ensures Since(text, 0) == Since(text[..from], 0)
  {
    hide *;
    SinceIsLastLine(text, from);
    assert text[..from] + text[from..] == text;
    SinceSplits(text[..from], text[from..], 0);
  }

  lemma NoStatusLater(text: string, from: nat, later: nat)
    requires from <= later && NoStatus(text, from)
    ensures NoStatus(text, later)
  {}
}
