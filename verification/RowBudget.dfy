/** The newest rows that fit a budget of rows and characters. */
module RowBudget {
  import opened Basics

  // ----- comparing from the newest entry -----

  function FromEnd<T>(s: seq<T>, i: nat): T
    requires i < |s|
  {
    s[|s| - 1 - i]
  }

  /** The newest n entries are the same. */
  ghost predicate Agree<T>(a: seq<T>, b: seq<T>, n: nat) {
    n <= |a| && n <= |b| && forall i: nat :: i < n ==> FromEnd(a, i) == FromEnd(b, i)
  }

  lemma AgreePop<T>(a: seq<T>, b: seq<T>, n: nat)
    requires 1 <= n && Agree(a, b, n)
    ensures a[|a| - 1] == b[|b| - 1] && Agree(a[..|a| - 1], b[..|b| - 1], n - 1)
  {
    assert FromEnd(a, 0) == FromEnd(b, 0);
    var a', b' := a[..|a| - 1], b[..|b| - 1];
    forall i: nat | i < n - 1
      ensures FromEnd(a', i) == FromEnd(b', i)
    {
      assert FromEnd(a, i + 1) == FromEnd(b, i + 1);
    }
  }

  lemma AgreePush<T>(a: seq<T>, b: seq<T>, n: nat, c: seq<T>)
    requires Agree(a, b, n)
    ensures Agree(a + c, b + c, n + |c|)
  {
    forall i: nat | i < n + |c|
      ensures FromEnd(a + c, i) == FromEnd(b + c, i)
    {
      if |c| <= i {
        assert FromEnd(a, i - |c|) == FromEnd(b, i - |c|);
      }
    }
  }

  lemma AgreeLess<T>(a: seq<T>, b: seq<T>, n: nat, m: nat)
    requires Agree(a, b, n) && m <= n
    ensures Agree(a, b, m)
  {
  }

  // ----- the newest rows within a budget -----

  datatype Read = Read(kept: seq<string>, size: nat, dropped: bool)

  /** The newest texts, newest first: at most `budget` of them, in at most
      `chars` characters, and whether older ones were left out. */
  function Newest(texts: seq<string>, budget: nat, chars: nat): Read {
    if texts == [] then Read([], 0, false)
    else
      var last := texts[|texts| - 1];
      if budget == 0 || |last| > chars then Read([], 0, true)
      else After([last], |last|, Newest(texts[..|texts| - 1], budget - 1, chars - |last|))
  }

  function After(kept: seq<string>, size: nat, rest: Read): Read {
    Read(kept + rest.kept, size + rest.size, rest.dropped)
  }

  /** What is read depends only on the newest `budget` texts, and on whether
      there are more. */
  lemma {:induction false} NewestAgree(a: seq<string>, b: seq<string>, budget: nat, chars: nat)
    requires Agree(a, b, budget) && budget < |a| && budget < |b|
    ensures Newest(a, budget, chars) == Newest(b, budget, chars)
    decreases budget
  {
    if budget != 0 {
      AgreePop(a, b, budget);
      if |a[|a| - 1]| <= chars {
        NewestAgree(a[..|a| - 1], b[..|b| - 1], budget - 1, chars - |a[|a| - 1]|);
      }
    }
  }

  /** The newest k texts. */
  function NewestOf(texts: seq<string>, k: nat): seq<string>
    requires k <= |texts|
  {
    texts[|texts| - k..]
  }

  /** Reading comes as far as the k newest texts and the next of either list. */
  predicate InReach(a: seq<string>, b: seq<string>, k: nat, budget: nat, chars: nat)
    requires k < |a| && k < |b|
  {
    k < budget
    && (Chars(NewestOf(a, k)) + |FromEnd(a, k)| <= chars || Chars(NewestOf(a, k)) + |FromEnd(b, k)| <= chars)
  }

  /** Texts that first differ after the k newest read the same exactly when
      reading does not come so far. */
  lemma {:induction false} NewestDiffer(a: seq<string>, b: seq<string>, k: nat, budget: nat, chars: nat)
    requires k < |a| && k < |b| && Agree(a, b, k) && FromEnd(a, k) != FromEnd(b, k)
    ensures Newest(a, budget, chars) == Newest(b, budget, chars) <==> !InReach(a, b, k, budget, chars)
    decreases k
  {
    var x, y, last := a[..|a| - 1], b[..|b| - 1], a[|a| - 1];
    if k == 0 {
      assert NewestOf(a, 0) == [];
      NewestHead(a, budget, chars);
      NewestHead(b, budget, chars);
    } else {
      AgreePop(a, b, k);
      assert NewestOf(a, k) == NewestOf(x, k - 1) + [last] && Chars([last]) == |last|;
      CharsSum(NewestOf(x, k - 1), [last]);
      assert FromEnd(a, k) == FromEnd(x, k - 1) && FromEnd(b, k) == FromEnd(y, k - 1);
      if budget > 0 && |last| <= chars {
        NewestDiffer(x, y, k - 1, budget - 1, chars - |last|);
        hide Newest;
        NewestSame(a, b, budget, chars);
      }
    }
  }

  lemma NewestHead(texts: seq<string>, budget: nat, chars: nat)
    requires texts != []
    ensures
      var last, r := texts[|texts| - 1], Newest(texts, budget, chars);
      if budget > 0 && |last| <= chars then r.kept != [] && r.kept[0] == last else r == Read([], 0, true)
  {
  }

  lemma NewestSame(a: seq<string>, b: seq<string>, budget: nat, chars: nat)
    requires a != [] && b != [] && a[|a| - 1] == b[|b| - 1] && budget > 0 && |a[|a| - 1]| <= chars
    ensures Newest(a, budget, chars) == Newest(b, budget, chars) <==>
      Newest(a[..|a| - 1], budget - 1, chars - |a[|a| - 1]|) == Newest(b[..|b| - 1], budget - 1, chars - |a[|a| - 1]|)
  {
    var last := a[|a| - 1];
    var r, t := Newest(a[..|a| - 1], budget - 1, chars - |last|), Newest(b[..|b| - 1], budget - 1, chars - |last|);
    if Newest(a, budget, chars) == Newest(b, budget, chars) {
      assert ([last] + r.kept)[1..] == r.kept && ([last] + t.kept)[1..] == t.kept;
    }
  }

  // ----- what that is of all texts -----

  function Chars(texts: seq<string>): nat {
    if texts == [] then 0 else |texts[0]| + Chars(texts[1..])
  }

  lemma {:induction false} CharsSum(a: seq<string>, b: seq<string>)
    ensures Chars(a + b) == Chars(a) + Chars(b)
  {
    if a == [] {
      assert a + b == b;
    } else {
      assert (a + b)[1..] == a[1..] + b;
      CharsSum(a[1..], b);
    }
  }

  /** `rows` ends `texts`. */
  ghost predicate Ends(texts: seq<string>, rows: seq<string>) {
    |rows| <= |texts| && texts == texts[..|texts| - |rows|] + rows
  }

  /** One more of the texts than the n newest would not fit. */
  ghost predicate Stuck(texts: seq<string>, n: nat, size: nat, budget: nat, chars: nat) {
    n < |texts| ==> n == budget || size + |FromEnd(texts, n)| > chars
  }

  /** `rows` is what fits of the newest texts. */
  ghost predicate Greedy(texts: seq<string>, rows: seq<string>, budget: nat, chars: nat) {
    && Ends(texts, rows) && |rows| <= budget && Chars(rows) <= chars
    && Stuck(texts, |rows|, Chars(rows), budget, chars)
  }

  lemma EndsMore(older: seq<string>, read: seq<string>, rest: seq<string>)
    requires Ends(older, read)
    ensures Ends(older + rest, read + rest)
    ensures |read| < |older| ==> FromEnd(older + rest, |read| + |rest|) == FromEnd(older, |read|)
  {
    var first := older[..|older| - |read|];
    assert older + rest == first + (read + rest);
    assert (older + rest)[..|first|] == first;
  }

  lemma GreedyMore(older: seq<string>, read: seq<string>, rest: seq<string>, budget: nat, chars: nat)
    requires |rest| <= budget && Chars(rest) <= chars
    requires Greedy(older, read, budget - |rest|, chars - Chars(rest))
    ensures Greedy(older + rest, read + rest, budget, chars)
  {
    hide Ends;
    assert Ends(older, read) && |read| + |rest| <= budget && Chars(read) + Chars(rest) <= chars;
    EndsMore(older, read, rest);
    CharsSum(read, rest);
    assert Stuck(older + rest, |read + rest|, Chars(read + rest), budget, chars);
  }

  /** Reading stops only where the next text would not fit, and says so. */
  lemma {:induction false} NewestGreedy(texts: seq<string>, budget: nat, chars: nat)
    ensures Greedy(texts, Reverse(Newest(texts, budget, chars).kept), budget, chars)
    ensures Newest(texts, budget, chars).size == Chars(Reverse(Newest(texts, budget, chars).kept))
    ensures Newest(texts, budget, chars).dropped <==> |Newest(texts, budget, chars).kept| < |texts|
    decreases |texts|
  {
    hide *;
    if texts == [] || budget == 0 || |texts[|texts| - 1]| > chars {
      NewestNone(texts, budget, chars);
    } else {
      var front, last := texts[..|texts| - 1], texts[|texts| - 1];
      assert front + [last] == texts;
      NewestGreedy(front, budget - 1, chars - |last|);
      NewestLast(texts, budget, chars);
      NewestOne(front, last, texts, Reverse(Newest(front, budget - 1, chars - |last|).kept), budget, chars);
    }
  }

  lemma NewestNone(texts: seq<string>, budget: nat, chars: nat)
    requires texts == [] || budget == 0 || |texts[|texts| - 1]| > chars
    ensures Newest(texts, budget, chars) == Read([], 0, texts != [])
    ensures Reverse<string>([]) == [] && Chars([]) == 0 && Greedy(texts, [], budget, chars)
  {
    assert texts == texts[..|texts|] + [];
  }

  lemma NewestOne(front: seq<string>, last: string, texts: seq<string>, rows: seq<string>, budget: nat, chars: nat)
    requires texts == front + [last] && 1 <= budget && |last| <= chars
    requires Greedy(front, rows, budget - 1, chars - |last|)
    ensures Greedy(texts, rows + [last], budget, chars) && Chars(rows + [last]) == Chars(rows) + |last|
  {
    assert Chars([last]) == |last|;
    GreedyMore(front, rows, [last], budget, chars);
    CharsSum(rows, [last]);
  }

  lemma NewestLast(texts: seq<string>, budget: nat, chars: nat)
    requires texts != [] && budget != 0 && |texts[|texts| - 1]| <= chars
    ensures var last := texts[|texts| - 1];
      var rest, all := Newest(texts[..|texts| - 1], budget - 1, chars - |last|), Newest(texts, budget, chars);
      && all.dropped == rest.dropped && all.size == |last| + rest.size
      && |all.kept| == 1 + |rest.kept| && Reverse(all.kept) == Reverse(rest.kept) + [last]
  {
    var last := texts[|texts| - 1];
    ReverseSum([last], Newest(texts[..|texts| - 1], budget - 1, chars - |last|).kept);
    assert Reverse([last]) == [last];
  }

  /** What ends the newer texts ends all of them, and what kept the next text
      out of them keeps it out of all. */
  lemma OlderTexts(older: seq<string>, texts: seq<string>, rows: seq<string>, budget: nat, chars: nat)
    requires Ends(texts, rows)
    ensures Ends(older + texts, rows)
    ensures Greedy(texts, rows, budget, chars) && |rows| < |texts| ==> Greedy(older + texts, rows, budget, chars)
  {
    assert older + texts == (older + texts[..|texts| - |rows|]) + rows;
  }
}
