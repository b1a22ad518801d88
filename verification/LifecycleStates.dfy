/** The states of all worktrees, as a page keeps them from events and snapshots
    that reach it over separate connections. */
module LifecycleStates {
  import opened Basics

  /** A published state of one worktree, or its removal. */
  datatype Entry = Entry(path: string, revision: int, removed: bool, status: string)

  /** What the server sends: a change, or all states as they were at a revision. */
  datatype Fact = Change(entry: Entry) | Snapshot(entries: seq<Entry>, at: int)

  // ----- the two merges -----

  function Find(states: seq<Entry>, path: string): Option<Entry> {
    if states == [] then None
    else if states[0].path == path then Some(states[0])
    else Find(states[1..], path)
  }

  function Except(states: seq<Entry>, entry: Option<Entry>): seq<Entry> {
    if states == [] then []
    else if Some(states[0]) == entry then Except(states[1..], entry)
    else [states[0]] + Except(states[1..], entry)
  }

  function Newer(states: seq<Entry>, revision: int): seq<Entry> {
    if states == [] then []
    else if states[0].revision > revision then [states[0]] + Newer(states[1..], revision)
    else Newer(states[1..], revision)
  }

  function Missing(states: seq<Entry>, known: seq<Entry>): seq<Entry> {
    if states == [] then []
    else if Find(known, states[0].path).None? then [states[0]] + Missing(states[1..], known)
    else Missing(states[1..], known)
  }

  predicate AtMost(revision: int, watermark: Option<int>) {
    watermark.Some? && revision <= watermark.value
  }

  function Upsert(states: seq<Entry>, entry: Entry, watermark: Option<int>): seq<Entry> {
    var current := Find(states, entry.path);
    if (current.Some? && current.value.revision > entry.revision) || AtMost(entry.revision, watermark) then states
    else [entry] + Except(states, current)
  }

  function Merge(states: seq<Entry>, entries: seq<Entry>, revision: int): seq<Entry> {
    Newer(states, revision) + Missing(entries, Newer(states, revision))
  }

  ghost predicate Distinct(states: seq<Entry>) {
    forall i, j :: 0 <= i < j < |states| ==> states[i].path != states[j].path
  }

  lemma {:induction false} FindAmong(states: seq<Entry>, path: string)
    ensures Find(states, path).Some? ==> Find(states, path).value in states && Find(states, path).value.path == path
    ensures Find(states, path).None? <==> forall e :: e in states ==> e.path != path
  {
    if states != [] {
      FindAmong(states[1..], path);
    }
  }

  lemma {:induction false} FindJoin(left: seq<Entry>, right: seq<Entry>, path: string)
    ensures Find(left + right, path) == if Find(left, path).Some? then Find(left, path) else Find(right, path)
  {
    if left == [] {
      assert left + right == right;
    } else {
      assert (left + right)[1..] == left[1..] + right;
      FindJoin(left[1..], right, path);
    }
  }

  lemma {:induction false} FindExcept(states: seq<Entry>, entry: Option<Entry>, path: string)
    requires Distinct(states)
    ensures Distinct(Except(states, entry))
    ensures forall e :: e in Except(states, entry) ==> e in states && Some(e) != entry
    ensures Find(Except(states, entry), path) == if Find(states, path) == entry then None else Find(states, path)
  {
    if states != [] {
      FindExcept(states[1..], entry, path);
      FindAmong(states[1..], states[0].path);
      Prepend(states[0], Except(states[1..], entry));
    }
  }

  lemma Prepend(entry: Entry, states: seq<Entry>)
    requires Distinct(states)
    ensures (forall e :: e in states ==> e.path != entry.path) ==> Distinct([entry] + states)
  {}

  lemma {:induction false} FindNewer(states: seq<Entry>, revision: int, path: string)
    requires Distinct(states)
    ensures Distinct(Newer(states, revision))
    ensures forall e :: e in Newer(states, revision) ==> e in states && e.revision > revision
    ensures Find(Newer(states, revision), path)
         == if Find(states, path).Some? && Find(states, path).value.revision > revision then Find(states, path)
           else None
  {
    if states != [] {
      FindNewer(states[1..], revision, path);
      FindAmong(states[1..], states[0].path);
      FindAmong(Newer(states[1..], revision), path);
      Prepend(states[0], Newer(states[1..], revision));
    }
  }

  lemma {:induction false} FindMissing(states: seq<Entry>, known: seq<Entry>, path: string)
    requires Distinct(states)
    ensures Distinct(Missing(states, known))
    ensures forall e :: e in Missing(states, known) ==> e in states && Find(known, e.path).None?
    ensures Find(Missing(states, known), path) == if Find(known, path).None? then Find(states, path) else None
  {
    if states != [] {
      FindMissing(states[1..], known, path);
      Prepend(states[0], Missing(states[1..], known));
    }
  }

  /** A change replaces what is shown for its own path, unless that is newer or
      a snapshot at least as new was applied. Every other path stays as it was. */
  lemma UpsertFinds(states: seq<Entry>, entry: Entry, watermark: Option<int>, path: string)
    requires Distinct(states)
    ensures Distinct(Upsert(states, entry, watermark))
    ensures Find(Upsert(states, entry, watermark), path) ==
            if path != entry.path || AtMost(entry.revision, watermark)
               || (Find(states, path).Some? && Find(states, path).value.revision > entry.revision)
            then Find(states, path) else Some(entry)
  {
    var current := Find(states, entry.path);
    FindAmong(states, entry.path);
    FindAmong(states, path);
    FindExcept(states, current, path);
    FindExcept(states, current, entry.path);
    FindAmong(Except(states, current), entry.path);
    Prepend(entry, Except(states, current));
  }

  /** A snapshot replaces every path but those with something newer. */
  lemma MergeFinds(states: seq<Entry>, entries: seq<Entry>, revision: int, path: string)
    requires Distinct(states) && Distinct(entries)
    ensures Distinct(Merge(states, entries, revision))
    ensures Find(Merge(states, entries, revision), path) ==
            if Find(states, path).Some? && Find(states, path).value.revision > revision then Find(states, path)
            else Find(entries, path)
  {
    var newer := Newer(states, revision);
    FindNewer(states, revision, path);
    FindMissing(entries, newer, path);
    FindJoin(newer, Missing(entries, newer), path);
    var merged := Merge(states, entries, revision);
    forall i, j | 0 <= i < j < |merged|
      ensures merged[i].path != merged[j].path
    {
      if i < |newer| <= j {
        assert merged[j] in Missing(entries, newer);
        FindAmong(newer, merged[j].path);
        assert merged[i] in newer;
      }
    }
  }

  // ----- the page -----

  /** An update the page has asked for, which runs at a later render. */
  datatype Update = Put(entry: Entry) | Replace(entries: seq<Entry>, at: int) | Clear

  /** What reaches the page. A render runs the oldest update still waiting. */
  datatype Step = Receive(fact: Fact) | Restart | Render

  datatype Page = Page(states: seq<Entry>, watermark: Option<int>, queue: seq<Update>)

  const START := Page([], None, [])

  function Perform(states: seq<Entry>, update: Update, watermark: Option<int>): seq<Entry> {
    match update
    case Put(entry) => Upsert(states, entry, watermark)
    case Replace(entries, at) => Merge(states, entries, at)
    case Clear => []
  }

  function Take(page: Page, step: Step): Page {
    match step
    case Receive(Change(entry)) => page.(queue := page.queue + [Put(entry)])
    case Receive(Snapshot(entries, at)) =>
      if page.watermark.Some? && at < page.watermark.value then page
      else page.(watermark := Some(at), queue := page.queue + [Replace(entries, at)])
    case Restart => page.(watermark := None, queue := page.queue + [Clear])
    case Render =>
      if page.queue == [] then page
      else page.(states := Perform(page.states, page.queue[0], page.watermark), queue := page.queue[1..])
  }

  function Run(steps: seq<Step>): Page {
    if steps == [] then START else Take(Run(steps[..|steps| - 1]), steps[|steps| - 1])
  }

  /** The facts received from the runtime that is running now. */
  function Received(steps: seq<Step>): seq<Fact> {
    if steps == [] then []
    else
      var before, last := Received(steps[..|steps| - 1]), steps[|steps| - 1];
      match last
      case Receive(fact) => before + [fact]
      case Restart => []
      case Render => before
  }

  /** The page as React keeps it: a ref and a list updated later. */
  class LifecyclePage {
    var states: seq<Entry>
    var watermark: Option<int>
    var queue: seq<Update>

    ghost function Now(): Page
      reads this
    {
      Page(states, watermark, queue)
    }

    constructor ()
      ensures Now() == START
    {
      states, watermark, queue := [], None, [];
    }

    method Observe(entry: Entry)
      modifies this
      ensures Now() == Take(old(Now()), Receive(Change(entry)))
    {
      queue := queue + [Put(entry)];
    }

    method ApplySnapshot(entries: seq<Entry>, at: int)
      modifies this
      ensures Now() == Take(old(Now()), Receive(Snapshot(entries, at)))
    {
      if watermark.Some? && at < watermark.value { return; }
      watermark := Some(at);
      queue := queue + [Replace(entries, at)];
    }

    method RestartRuntime()
      modifies this
      ensures Now() == Take(old(Now()), Restart)
    {
      watermark := None;
      queue := queue + [Clear];
    }

    method RenderNext()
      modifies this
      ensures Now() == Take(old(Now()), Render)
    {
      if queue == [] { return; }
      states := Perform(states, queue[0], watermark);
      queue := queue[1..];
    }

    method TakeStep(step: Step)
      modifies this
      ensures Now() == Take(old(Now()), step)
    {
      match step
      case Receive(Change(entry)) => Observe(entry);
      case Receive(Snapshot(entries, at)) => ApplySnapshot(entries, at);
      case Restart => RestartRuntime();
      case Render => RenderNext();
    }
  }

  // ----- the newest fact received -----

  datatype Reading = Reading(entries: seq<Entry>, at: int)

  function LastSnapshot(facts: seq<Fact>): Option<Reading> {
    if facts == [] then None
    else
      var before, last := LastSnapshot(facts[..|facts| - 1]), facts[|facts| - 1];
      if last.Snapshot? && (before.None? || before.value.at <= last.at) then Some(Reading(last.entries, last.at))
        else before
  }

  function At(facts: seq<Fact>): Option<int> {
    var snapshot := LastSnapshot(facts);
    if snapshot.Some? then Some(snapshot.value.at) else None
  }

  function LastChange(facts: seq<Fact>, path: string): Option<Entry> {
    if facts == [] then None
    else
      var before, last := LastChange(facts[..|facts| - 1], path), facts[|facts| - 1];
      if last.Change? && last.entry.path == path && (before.None? || before.value.revision <= last.entry.revision)
      then Some(last.entry) else before
  }

  /** The highest-revision fact about a path: a change newer than every
      snapshot, or else what the newest snapshot lists, absence included. */
  function Best(facts: seq<Fact>, path: string): Option<Entry> {
    var change, snapshot := LastChange(facts, path), LastSnapshot(facts);
    if change.Some? && !AtMost(change.value.revision, At(facts)) then change
    else if snapshot.Some? then Find(snapshot.value.entries, path) else None
  }

  /** A snapshot lists each path once, with nothing newer than itself. */
  ghost predicate Sound(fact: Fact) {
    fact.Snapshot? ==> Distinct(fact.entries) && forall e :: e in fact.entries ==> e.revision <= fact.at
  }

  ghost predicate SoundSteps(steps: seq<Step>) {
    forall i :: 0 <= i < |steps| ==> steps[i].Receive? ==> Sound(steps[i].fact)
  }

  // ----- every run -----

  /** The list once every waiting update has run. */
  function Settled(states: seq<Entry>, queue: seq<Update>, watermark: Option<int>): seq<Entry> {
    if queue == [] then states
    else Perform(Settled(states, queue[..|queue| - 1], watermark), queue[|queue| - 1], watermark)
  }

  ghost predicate SoundUpdate(update: Update) {
    update.Replace? ==> Distinct(update.entries) && forall e :: e in update.entries ==> e.revision <= update.at
  }

  ghost predicate Ready(page: Page) {
    && Distinct(page.states)
    && forall i :: 0 <= i < |page.queue| ==> SoundUpdate(page.queue[i])
  }

  lemma {:induction false} SettledDistinct(states: seq<Entry>, queue: seq<Update>, watermark: Option<int>)
    requires Distinct(states) && forall i :: 0 <= i < |queue| ==> SoundUpdate(queue[i])
    ensures Distinct(Settled(states, queue, watermark))
  {
    if queue != [] {
      var before, last := queue[..|queue| - 1], queue[|queue| - 1];
      SettledDistinct(states, before, watermark);
      match last
      case Put(entry) => UpsertFinds(Settled(states, before, watermark), entry, watermark, entry.path);
      case Replace(entries, at) => MergeFinds(Settled(states, before, watermark), entries, at, "");
      case Clear =>
    }
  }

  /** Running one update early changes nothing. */
  lemma {:induction false} SettledEarly(states: seq<Entry>, queue: seq<Update>, watermark: Option<int>)
    requires queue != []
    ensures Settled(Perform(states, queue[0], watermark), queue[1..], watermark) == Settled(states, queue, watermark)
  {
    if |queue| > 1 {
      var before := queue[..|queue| - 1];
      SettledEarly(states, before, watermark);
      assert queue[1..][..|queue| - 2] == before[1..];
    } else {
      assert queue[..0] == [];
    }
  }

  predicate NewerThan(entry: Option<Entry>, revision: int) {
    entry.Some? && entry.value.revision > revision
  }

  /** A snapshot that raises the watermark while updates wait changes what
      those updates do, but nothing newer than the snapshot. */
  lemma {:induction false} WatermarkRises(states: seq<Entry>, queue: seq<Update>, low: Option<int>, high: int,
      path: string)
    requires Distinct(states) && forall i :: 0 <= i < |queue| ==> SoundUpdate(queue[i])
    requires low.Some? ==> low.value <= high
    ensures
      var before, after := Find(Settled(states, queue, low), path), Find(Settled(states, queue, Some(high)), path);
      (NewerThan(before, high) <==> NewerThan(after, high)) && (NewerThan(before, high) ==> before == after)
  {
    if queue != [] && !queue[|queue| - 1].Clear? {
      var first, last := queue[..|queue| - 1], queue[|queue| - 1];
      WatermarkRises(states, first, low, high, path);
      SettledDistinct(states, first, low);
      SettledDistinct(states, first, Some(high));
      var before, after := Settled(states, first, low), Settled(states, first, Some(high));
      match last
      case Put(entry) =>
        UpsertFinds(before, entry, low, path);
        UpsertFinds(after, entry, Some(high), path);
      case Replace(entries, at) =>
        MergeFinds(before, entries, at, path);
        MergeFinds(after, entries, at, path);
        FindAmong(entries, path);
      case Clear => assert false;
    }
  }

  ghost predicate Shows(page: Page, facts: seq<Fact>, path: string) {
    Find(Settled(page.states, page.queue, page.watermark), path) == Best(facts, path)
  }

  /** The page has the watermark of the newest snapshot, and will show the best
      fact of every path once nothing waits. */
  ghost predicate Follows(page: Page, facts: seq<Fact>) {
    && Ready(page) && page.watermark == At(facts)
    && (LastSnapshot(facts).Some? ==>
      Sound(Snapshot(LastSnapshot(facts).value.entries, LastSnapshot(facts).value.at)))
  }

  lemma AddFact(facts: seq<Fact>, fact: Fact, path: string)
    ensures LastSnapshot(facts + [fact]) ==
            if fact.Snapshot? && (LastSnapshot(facts).None? || LastSnapshot(facts).value.at <= fact.at)
            then Some(Reading(fact.entries, fact.at)) else LastSnapshot(facts)
    ensures LastChange(facts + [fact], path) ==
            if fact.Change? && fact.entry.path == path
               && (LastChange(facts, path).None? || LastChange(facts, path).value.revision <= fact.entry.revision)
            then Some(fact.entry) else LastChange(facts, path)
  {
    assert (facts + [fact])[..|facts|] == facts;
  }

  lemma AddUpdate(states: seq<Entry>, queue: seq<Update>, update: Update, watermark: Option<int>)
    ensures Settled(states, queue + [update], watermark)
      == Perform(Settled(states, queue, watermark), update, watermark)
  {
    assert (queue + [update])[..|queue|] == queue;
  }

  lemma {:induction false} LastChangePath(facts: seq<Fact>, path: string)
    ensures LastChange(facts, path).Some? ==> LastChange(facts, path).value.path == path
  {
    if facts != [] {
      LastChangePath(facts[..|facts| - 1], path);
    }
  }

  /** What the best fact says never exceeds the newest snapshot unless a change does. */
  lemma BestRevision(page: Page, facts: seq<Fact>, path: string)
    requires Follows(page, facts)
    ensures Best(facts, path).Some? && Best(facts, path) != LastChange(facts, path) ==>
      AtMost(Best(facts, path).value.revision, page.watermark)
    ensures LastChange(facts, path).Some? && !AtMost(LastChange(facts, path).value.revision, page.watermark) ==>
      Best(facts, path) == LastChange(facts, path)
  {
    if LastSnapshot(facts).Some? {
      FindAmong(LastSnapshot(facts).value.entries, path);
    }
  }

  lemma ChangeShows(page: Page, facts: seq<Fact>, entry: Entry, path: string)
    requires Follows(page, facts) && Shows(page, facts, path)
    ensures Shows(Take(page, Receive(Change(entry))), facts + [Change(entry)], path)
  {
    AddFact(facts, Change(entry), path);
    AddUpdate(page.states, page.queue, Put(entry), page.watermark);
    BestRevision(page, facts, path);
    SettledDistinct(page.states, page.queue, page.watermark);
    hide Settled, Find, LastChange, LastSnapshot, Distinct, Upsert;
    UpsertFinds(Settled(page.states, page.queue, page.watermark), entry, page.watermark, path);
  }

  lemma SnapshotShows(page: Page, facts: seq<Fact>, entries: seq<Entry>, at: int, path: string)
    requires Follows(page, facts) && Shows(page, facts, path) && Sound(Snapshot(entries, at))
    ensures Shows(Take(page, Receive(Snapshot(entries, at))), facts + [Snapshot(entries, at)], path)
  {
    hide Settled, LastChange, LastSnapshot, Find, Ready, Sound;
    AddFact(facts, Snapshot(entries, at), path);
    assert page.watermark == At(facts);
    if page.watermark.Some? && at < page.watermark.value {
    } else {
      SnapshotReplaces(page, facts, entries, at, path);
    }
  }

  lemma SnapshotReplaces(page: Page, facts: seq<Fact>, entries: seq<Entry>, at: int, path: string)
    requires Follows(page, facts) && Shows(page, facts, path) && Sound(Snapshot(entries, at))
    requires page.watermark.None? || at >= page.watermark.value
    ensures Find(Settled(page.states, page.queue + [Replace(entries, at)], Some(at)), path) ==
            if NewerThan(LastChange(facts, path), at) then LastChange(facts, path) else Find(entries, path)
  {
    assert Ready(page) && Distinct(entries);
    BestRevision(page, facts, path);
    AddUpdate(page.states, page.queue, Replace(entries, at), Some(at));
    SettledDistinct(page.states, page.queue, Some(at));
    WatermarkRises(page.states, page.queue, page.watermark, at, path);
    MergeFinds(Settled(page.states, page.queue, Some(at)), entries, at, path);
    assert Find(Settled(page.states, page.queue, page.watermark), path) == Best(facts, path);
  }

  lemma RenderShows(page: Page, facts: seq<Fact>)
    requires Follows(page, facts)
    ensures Follows(Take(page, Render), facts)
    ensures forall path :: Shows(page, facts, path) ==> Shows(Take(page, Render), facts, path)
  {
    if page.queue != [] {
      SettledEarly(page.states, page.queue, page.watermark);
      SettledDistinct(page.states, page.queue[..1], page.watermark);
      assert page.queue[..1][..0] == [];
      assert Settled(page.states, page.queue[..1], page.watermark)
        == Perform(page.states, page.queue[0], page.watermark);
    }
  }

  lemma ReceiveFollows(page: Page, facts: seq<Fact>, fact: Fact)
    requires Follows(page, facts) && Sound(fact)
    ensures Follows(Take(page, Receive(fact)), facts + [fact])
  {
    assert (facts + [fact])[..|facts|] == facts;
    match fact
    case Change(entry) =>
      assert (page.queue + [Put(entry)])[..|page.queue|] == page.queue;
    case Snapshot(entries, at) =>
      assert (page.queue + [Replace(entries, at)])[..|page.queue|] == page.queue;
  }

  /** In every run, however renders fall between what is received, the list will
      show the newest fact about every path since the last restart. */
  lemma {:induction false} EveryRun(steps: seq<Step>, path: string)
    requires SoundSteps(steps)
    ensures Follows(Run(steps), Received(steps)) && Shows(Run(steps), Received(steps), path)
  {
    if steps != [] {
      var before, last := steps[..|steps| - 1], steps[|steps| - 1];
      EveryRun(before, path);
      var page, facts := Run(before), Received(before);
      match last
      case Receive(fact) =>
        ReceiveFollows(page, facts, fact);
        if fact.Change? {
          ChangeShows(page, facts, fact.entry, path);
        } else {
          SnapshotShows(page, facts, fact.entries, fact.at, path);
        }
      case Restart =>
        assert (page.queue + [Clear])[..|page.queue|] == page.queue;
      case Render => RenderShows(page, facts);
    }
  }

  lemma EveryPath(steps: seq<Step>)
    requires SoundSteps(steps)
    ensures Follows(Run(steps), Received(steps))
    ensures forall path :: Shows(Run(steps), Received(steps), path)
  {
    EveryRun(steps, "");
    forall path
      ensures Shows(Run(steps), Received(steps), path)
    {
      EveryRun(steps, path);
    }
  }

  /** A page that takes these steps and then renders until no update waits
      shows the newest fact about every path. */
  method ShownAfter(steps: seq<Step>) returns (shown: seq<Entry>)
    requires SoundSteps(steps)
    ensures Distinct(shown) && forall path :: Find(shown, path) == Best(Received(steps), path)
  {
    hide Best, Received, Take, Settled, Ready;
    var page := new LifecyclePage();
    for i := 0 to |steps|
      invariant fresh(page) && page.Now() == Run(steps[..i])
    {
      assert steps[..i + 1][..i] == steps[..i];
      page.TakeStep(steps[i]);
    }
    assert steps[..|steps|] == steps;
    EveryPath(steps);
    ghost var facts := Received(steps);
    while page.queue != []
      invariant fresh(page) && Follows(page.Now(), facts) && forall path :: Shows(page.Now(), facts, path)
      decreases |page.queue|
    {
      RenderShows(page.Now(), facts);
      RenderShortens(page.Now());
      page.RenderNext();
    }
    shown := page.states;
    AllShown(page.Now(), facts);
  }

  lemma RenderShortens(page: Page)
    requires page.queue != []
    ensures |Take(page, Render).queue| < |page.queue|
  {
  }

  lemma AllShown(page: Page, facts: seq<Fact>)
    requires Follows(page, facts) && page.queue == [] && forall path :: Shows(page, facts, path)
    ensures Distinct(page.states) && forall path :: Find(page.states, path) == Best(facts, path)
  {
    forall path
      ensures Find(page.states, path) == Best(facts, path)
    {
      assert Shows(page, facts, path);
    }
  }

  // ----- what the page shows -----

  /** Two pages that received the same facts. */
  ghost predicate SameFacts(left: seq<Fact>, right: seq<Fact>) {
    forall fact :: fact in left <==> fact in right
  }

  /** No two different facts carry one revision about one path. */
  ghost predicate Unique(facts: seq<Fact>) {
    forall a, b :: a in facts && b in facts ==>
      && (a.Change? && b.Change? && a.entry.path == b.entry.path && a.entry.revision == b.entry.revision ==> a == b)
      && (a.Snapshot? && b.Snapshot? && a.at == b.at ==> a == b)
  }

  lemma {:induction false} LastChangeIsNewest(facts: seq<Fact>, path: string)
    ensures LastChange(facts, path).Some? ==>
      Change(LastChange(facts, path).value) in facts && LastChange(facts, path).value.path == path
    ensures forall f :: f in facts && f.Change? && f.entry.path == path ==>
      LastChange(facts, path).Some? && f.entry.revision <= LastChange(facts, path).value.revision
  {
    if facts != [] {
      LastChangeIsNewest(facts[..|facts| - 1], path);
      assert facts == facts[..|facts| - 1] + [facts[|facts| - 1]];
    }
  }

  lemma {:induction false} LastSnapshotIsNewest(facts: seq<Fact>)
    ensures LastSnapshot(facts).Some? ==>
      Snapshot(LastSnapshot(facts).value.entries, LastSnapshot(facts).value.at) in facts
    ensures forall f :: f in facts && f.Snapshot? ==>
      LastSnapshot(facts).Some? && f.at <= LastSnapshot(facts).value.at
  {
    if facts != [] {
      LastSnapshotIsNewest(facts[..|facts| - 1]);
      assert facts == facts[..|facts| - 1] + [facts[|facts| - 1]];
    }
  }

  /** The best fact does not depend on the order in which facts arrived. */
  lemma BestIgnoresOrder(left: seq<Fact>, right: seq<Fact>, path: string)
    requires SameFacts(left, right) && Unique(left)
    ensures Best(left, path) == Best(right, path)
  {
    LastChangeIsNewest(left, path);
    LastChangeIsNewest(right, path);
    LastSnapshotIsNewest(left);
    LastSnapshotIsNewest(right);
  }

  /** Two pages that received the same facts in any order, rendered at any
      times, show the same once nothing waits. */
  lemma PagesConverge(left: seq<Step>, right: seq<Step>, path: string)
    requires SoundSteps(left) && SoundSteps(right) && Run(left).queue == [] && Run(right).queue == []
    requires SameFacts(Received(left), Received(right)) && Unique(Received(left))
    ensures Find(Run(left).states, path) == Find(Run(right).states, path)
  {
    EveryRun(left, path);
    EveryRun(right, path);
    BestIgnoresOrder(Received(left), Received(right), path);
  }

  // ----- the server's own states -----

  /** What the server says of a path after its changes up to a revision. */
  function Current(history: seq<Entry>, path: string, revision: int): Option<Entry> {
    if history == [] then None
    else
      var last := history[|history| - 1];
      if last.path == path && last.revision <= revision then Some(last)
      else Current(history[..|history| - 1], path, revision)
  }

  ghost predicate Growing(history: seq<Entry>) {
    forall i, j :: 0 <= i < j < |history| ==> history[i].revision < history[j].revision
  }

  /** A fact the server published: one of its changes, or its states at a revision. */
  ghost predicate Published(history: seq<Entry>, fact: Fact) {
    match fact
    case Change(entry) => entry in history
    case Snapshot(entries, at) =>
      forall path ::
        Find(entries, path) ==
        if Current(history, path, at).Some? && !Current(history, path, at).value.removed
        then Current(history, path, at) else None
  }

  ghost predicate PublishedAll(history: seq<Entry>, facts: seq<Fact>) {
    forall fact :: fact in facts ==> Published(history, fact)
  }

  /** The same is shown for both: the same state, or nothing, as for a removal. */
  ghost predicate LooksSame(found: Option<Entry>, current: Option<Entry>) {
    if current.Some? && !current.value.removed then found == current else found.Some? ==> found.value.removed
  }

  /** Every change up to a revision arrived, itself or in a snapshot. */
  ghost predicate Complete(history: seq<Entry>, facts: seq<Fact>, revision: int) {
    && (forall entry :: entry in history && entry.revision <= revision ==>
      Change(entry) in facts || AtMost(entry.revision, At(facts)))
    && (forall fact :: fact in facts && fact.Change? ==> fact.entry.revision <= revision)
    && (At(facts).Some? ==> At(facts).value <= revision)
  }

  lemma {:induction false} CurrentIsNewest(history: seq<Entry>, path: string, revision: int)
    requires Growing(history)
    ensures Current(history, path, revision).Some? ==>
      var current := Current(history, path, revision).value;
      current in history && current.path == path && current.revision <= revision
    ensures forall e :: e in history && e.path == path && e.revision <= revision ==>
      Current(history, path, revision).Some? && e.revision <= Current(history, path, revision).value.revision
  {
    if history != [] {
      var first, last := history[..|history| - 1], history[|history| - 1];
      CurrentIsNewest(first, path, revision);
      assert history == first + [last];
    }
  }

  lemma GrowingUnique(history: seq<Entry>, a: Entry, b: Entry)
    requires Growing(history) && a in history && b in history && a.revision == b.revision
    ensures a == b
  {}

  /** Once everything up to a revision has arrived, the page shows what the
      server has at that revision. */
  lemma PageMatchesServer(steps: seq<Step>, history: seq<Entry>, revision: int, path: string)
    requires SoundSteps(steps) && Run(steps).queue == []
    requires Growing(history) && PublishedAll(history, Received(steps)) && Complete(history, Received(steps), revision)
    ensures LooksSame(Find(Run(steps).states, path), Current(history, path, revision))
  {
    EveryRun(steps, path);
    BestIsCurrent(history, Received(steps), revision, path);
  }

  lemma BestIsCurrent(history: seq<Entry>, facts: seq<Fact>, revision: int, path: string)
    requires Growing(history) && PublishedAll(history, facts) && Complete(history, facts, revision)
    ensures LooksSame(Best(facts, path), Current(history, path, revision))
  {
    hide Growing;
    LastChangeIsNewest(facts, path);
    LastSnapshotIsNewest(facts);
    CurrentIsNewest(history, path, revision);
    var change, snapshot, current := LastChange(facts, path), LastSnapshot(facts), Current(history, path, revision);
    if change.Some? {
      assert Published(history, Change(change.value));
    }
    if snapshot.Some? {
      assert Published(history, Snapshot(snapshot.value.entries, snapshot.value.at));
      CurrentIsNewest(history, path, snapshot.value.at);
    }
    if current.Some? && change.Some? && current.value.revision == change.value.revision {
      GrowingUnique(history, current.value, change.value);
    }
    if current.Some? && snapshot.Some? && Current(history, path, snapshot.value.at).Some?
       && current.value.revision == Current(history, path, snapshot.value.at).value.revision {
      GrowingUnique(history, current.value, Current(history, path, snapshot.value.at).value);
    }
  }
}
