/** How a conversation page joins a loaded transcript with the events that
    arrived while it was being loaded. */
module Transcript {
  import opened Basics

  /** A message. A checkpoint holds the run's answer `through` one of its events. */
  datatype Message = Message(id: string, order: int, assistant: bool, run: Option<string>, through: Option<int>,
      body: string)

  datatype Event =
    | Created(message: Message)
    | Delta(run: string, number: Option<int>, text: string)
    | Answered(run: string)
    | OtherEvent

  /** How far the checkpoints of one run have got. */
  datatype Cursor = Cursor(run: string, through: int)

  /** The messages in arrival order, the cursors in the order they last moved,
      and the live text shown below the messages. */
  datatype State = State(messages: seq<Message>, cursors: seq<Cursor>, text: string)

  /** The loaded page: its messages, and whether older ones were left unloaded. */
  datatype Page = Page(messages: seq<Message>, hasMore: bool)

  const MOST_CURSORS := 2048

  // ----- checkpoint cursors -----

  function Reached(cursors: seq<Cursor>, run: string): Option<int> {
    if cursors == [] then None
    else if cursors[0].run == run then Some(cursors[0].through)
    else Reached(cursors[1..], run)
  }

  function Without(cursors: seq<Cursor>, run: string): seq<Cursor> {
    if cursors == [] then []
    else if cursors[0].run == run then cursors[1..]
    else [cursors[0]] + Without(cursors[1..], run)
  }

  function FirstInactive(cursors: seq<Cursor>, active: set<string>): Option<string> {
    if cursors == [] then None
    else if cursors[0].run !in active then Some(cursors[0].run)
    else FirstInactive(cursors[1..], active)
  }

  function Evict(cursors: seq<Cursor>, active: set<string>): seq<Cursor>
    decreases |cursors|
  {
    var oldest := FirstInactive(cursors, active);
    if |cursors| <= MOST_CURSORS || oldest in [None, Some("")] then cursors
    else
      InactiveIsThere(cursors, active);
      Evict(Without(cursors, oldest.value), active)
  }

  lemma {:induction false} InactiveIsThere(cursors: seq<Cursor>, active: set<string>)
    ensures FirstInactive(cursors, active).Some? ==>
      |Without(cursors, FirstInactive(cursors, active).value)| < |cursors|
    ensures FirstInactive(cursors, active).Some? ==> FirstInactive(cursors, active).value !in active
    ensures FirstInactive(cursors, active).None? <==> forall c :: c in cursors ==> c.run in active
  {
    if cursors != [] && cursors[0].run in active {
      InactiveIsThere(cursors[1..], active);
    }
  }

  function Recorded(cursors: seq<Cursor>, message: Message, active: set<string>): seq<Cursor> {
    if message.run.None? || message.through.None? then cursors
    else
      var previous := Reached(cursors, message.run.value);
      if previous.Some? && message.through.value <= previous.value then cursors
      else Evict(Without(cursors, message.run.value) + [Cursor(message.run.value, message.through.value)], active)
  }

  function RecordedAll(cursors: seq<Cursor>, messages: seq<Message>, active: set<string>): seq<Cursor> {
    if messages == [] then cursors
    else Recorded(RecordedAll(cursors, messages[..|messages| - 1], active), messages[|messages| - 1], active)
  }

  predicate Stale(cursors: seq<Cursor>, message: Message) {
    && message.run.Some? && message.through.Some?
    && Reached(cursors, message.run.value).Some?
    && message.through.value <= Reached(cursors, message.run.value).value
  }

  /** The cursors as the page keeps them between events. */
  class CursorMap {
    var entries: seq<Cursor>

    constructor (initial: seq<Cursor>)
      ensures entries == initial
    {
      entries := initial;
    }

    method Record(message: Message, active: set<string>)
      modifies this
      ensures entries == Recorded(old(entries), message, active)
    {
      if message.run.Some? && message.through.Some? {
        var run, through := message.run.value, message.through.value;
        var previous := Reached(entries, run);
        if previous.Some? && through <= previous.value { return; }
        entries := Without(entries, run);
        entries := entries + [Cursor(run, through)];
        while |entries| > MOST_CURSORS
          invariant Evict(entries, active) == Recorded(old(entries), message, active)
        {
          var evictable := FirstInactive(entries, active);
          InactiveIsThere(entries, active);
          if evictable in [None, Some("")] { break; }
          entries := Without(entries, evictable.value);
        }
      }
    }
  }

  lemma {:induction false} WithoutOther(cursors: seq<Cursor>, run: string, other: string)
    requires run != other
    ensures Reached(Without(cursors, run), other) == Reached(cursors, other)
  {
    if cursors != [] && cursors[0].run != run {
      WithoutOther(cursors[1..], run, other);
    }
  }

  lemma {:induction false} ReachedLast(cursors: seq<Cursor>, last: Cursor, run: string)
    ensures Reached(cursors + [last], run) ==
            if Reached(cursors, run).Some? then Reached(cursors, run)
            else if last.run == run then Some(last.through) else None
  {
    if cursors == [] {
      assert cursors + [last] == [last];
    } else {
      assert (cursors + [last])[1..] == cursors[1..] + [last];
      ReachedLast(cursors[1..], last, run);
    }
  }

  ghost predicate OnePerRun(cursors: seq<Cursor>) {
    forall i, j :: 0 <= i < j < |cursors| ==> cursors[i].run != cursors[j].run
  }

  lemma {:induction false} WithoutRun(cursors: seq<Cursor>, run: string)
    requires OnePerRun(cursors)
    ensures OnePerRun(Without(cursors, run))
    ensures forall c :: c in Without(cursors, run) ==> c in cursors && c.run != run
    ensures Reached(Without(cursors, run), run).None?
  {
    if cursors != [] {
      WithoutRun(cursors[1..], run);
      AbsentRun(cursors[1..], cursors[0].run);
      var rest := Without(cursors[1..], run);
      if cursors[0].run != run {
        forall i, j | 0 <= i < j < |[cursors[0]] + rest|
          ensures ([cursors[0]] + rest)[i].run != ([cursors[0]] + rest)[j].run
        {
          assert rest[j - 1] in cursors[1..];
          if i > 0 {
            assert rest[i - 1].run != rest[j - 1].run;
          }
        }
      }
    }
  }

  lemma {:induction false} AbsentRun(cursors: seq<Cursor>, run: string)
    ensures Reached(cursors, run).None? <==> forall c :: c in cursors ==> c.run != run
  {
    if cursors != [] {
      AbsentRun(cursors[1..], run);
    }
  }

  /** Eviction never touches an active run. It leaves at most 2048 cursors
      unless the oldest candidate cannot be evicted. */
  lemma {:induction false} EvictKeeps(cursors: seq<Cursor>, active: set<string>, run: string)
    requires OnePerRun(cursors)
    ensures OnePerRun(Evict(cursors, active))
    ensures run in active ==> Reached(Evict(cursors, active), run) == Reached(cursors, run)
    ensures |Evict(cursors, active)| <= |cursors|
    ensures |Evict(cursors, active)| <= 2048 || FirstInactive(Evict(cursors, active), active) in [None, Some("")]
    ensures |cursors| <= 2048 ==> Evict(cursors, active) == cursors
    decreases |cursors|
  {
    var oldest := FirstInactive(cursors, active);
    if |cursors| > MOST_CURSORS && oldest !in [None, Some("")] {
      InactiveIsThere(cursors, active);
      WithoutRun(cursors, oldest.value);
      EvictKeeps(Without(cursors, oldest.value), active, run);
      if run in active {
        WithoutOther(cursors, oldest.value, run);
      }
    }
  }

  lemma {:induction false} WithoutAt(cursors: seq<Cursor>, run: string, i: nat)
    requires i < |cursors| && cursors[i].run == run && forall j :: 0 <= j < i ==> cursors[j].run != run
    ensures Without(cursors, run) == cursors[..i] + cursors[i + 1..]
  {
    if i > 0 {
      WithoutAt(cursors[1..], run, i - 1);
      assert cursors[..i] == [cursors[0]] + cursors[1..][..i - 1];
      assert cursors[1..][i..] == cursors[i + 1..];
    }
  }

  lemma {:induction false} FirstInactiveAt(cursors: seq<Cursor>, active: set<string>, i: nat)
    requires i < |cursors| && cursors[i].run !in active && forall j :: 0 <= j < i ==> cursors[j].run in active
    ensures FirstInactive(cursors, active) == Some(cursors[i].run)
  {
    if i > 0 {
      FirstInactiveAt(cursors[1..], active, i - 1);
    }
  }

  /** One cursor too many lets go of the one that moved longest ago among those
      of runs that are not active. */
  lemma EvictsOldest(cursors: seq<Cursor>, active: set<string>, i: nat)
    requires |cursors| == 2049 && i < |cursors| && cursors[i].run !in active && cursors[i].run != ""
    requires forall j :: 0 <= j < i ==> cursors[j].run in active
    ensures Evict(cursors, active) == cursors[..i] + cursors[i + 1..]
  {
    FirstInactiveAt(cursors, active, i);
    WithoutAt(cursors, cursors[i].run, i);
    assert Evict(Without(cursors, cursors[i].run), active) == Without(cursors, cursors[i].run);
  }

  /** A newer checkpoint takes its run's cursor out and puts it last. */
  lemma RecordMovesLast(cursors: seq<Cursor>, message: Message, active: set<string>, i: nat)
    requires message.run.Some? && message.through.Some? && |cursors| <= 2048
    requires i < |cursors| && cursors[i].run == message.run.value && cursors[i].through < message.through.value
    requires forall j :: 0 <= j < i ==> cursors[j].run != message.run.value
    ensures Recorded(cursors, message, active)
         == cursors[..i] + cursors[i + 1..] + [Cursor(message.run.value, message.through.value)]
  {
    WithoutAt(cursors, message.run.value, i);
    ReachedAt(cursors, message.run.value, i);
  }

  lemma {:induction false} ReachedAt(cursors: seq<Cursor>, run: string, i: nat)
    requires i < |cursors| && cursors[i].run == run && forall j :: 0 <= j < i ==> cursors[j].run != run
    ensures Reached(cursors, run) == Some(cursors[i].through)
  {
    if i > 0 {
      ReachedAt(cursors[1..], run, i - 1);
    }
  }

  /** A run's cursor is the newest of its checkpoints: recording a message moves
      an active run's cursor forward, or not at all. */
  lemma RecordAdvances(cursors: seq<Cursor>, message: Message, active: set<string>, run: string)
    requires OnePerRun(cursors) && run in active
    ensures OnePerRun(Recorded(cursors, message, active))
    ensures Reached(Recorded(cursors, message, active), run) ==
            if message.run == Some(run) && message.through.Some? && !Stale(cursors, message)
            then message.through else Reached(cursors, run)
  {
    if message.run.Some? && message.through.Some? && !Stale(cursors, message) {
      var owner := message.run.value;
      var rest, last := Without(cursors, owner), Cursor(owner, message.through.value);
      WithoutRun(cursors, owner);
      AbsentRun(rest, owner);
      ReachedLast(rest, last, run);
      assert OnePerRun(rest + [last]);
      EvictKeeps(rest + [last], active, run);
      if owner != run {
        WithoutOther(cursors, owner, run);
      }
    }
  }

  // ----- joining events to the page -----

  function Find(messages: seq<Message>, id: string): Option<Message> {
    if messages == [] then None
    else if messages[0].id == id then Some(messages[0])
    else Find(messages[1..], id)
  }

  function Put(messages: seq<Message>, message: Message): seq<Message> {
    if messages == [] then [message]
    else if messages[0].id == message.id then [message] + messages[1..]
    else [messages[0]] + Put(messages[1..], message)
  }

  function Indexed(messages: seq<Message>): seq<Message> {
    if messages == [] then [] else Put(Indexed(messages[..|messages| - 1]), messages[|messages| - 1])
  }

  function Delete(messages: seq<Message>, id: string): seq<Message> {
    if messages == [] then []
    else if messages[0].id == id then Delete(messages[1..], id)
    else [messages[0]] + Delete(messages[1..], id)
  }

  predicate Precedes(page: Page, message: Message) {
    page.hasMore && page.messages != [] && message.order < page.messages[0].order
  }

  /** A message that stands for a run's answer. */
  predicate Answer(message: Message) {
    message.assistant && message.run.Some? && message.run.value != ""
  }

  function Begin(page: Page, cursors: seq<Cursor>, active: set<string>): State {
    State(Indexed(page.messages), RecordedAll(cursors, page.messages, active), "")
  }

  function Step(s: State, event: Event, page: Page, active: set<string>): State {
    match event
    case Created(message) =>
      if Stale(s.cursors, message) then s
      else
        var cursors := Recorded(s.cursors, message, active);
        if Find(s.messages, message.id).Some? || !Precedes(page, message) then
          State(Delete(s.messages, message.id) + [message], cursors, if Answer(message) then "" else s.text)
        else s.(cursors := cursors)
    case Delta(run, number, text) =>
      var reached := Reached(s.cursors, run);
      if number.Some? && number.value <= (if reached.Some? then reached.value else 0) then s
      else s.(text := s.text + text)
    case Answered(_) => s.(text := "")
    case OtherEvent => s
  }

  function Run(s: State, events: seq<Event>, page: Page, active: set<string>): State {
    if events == [] then s
    else Step(Run(s, events[..|events| - 1], page, active), events[|events| - 1], page, active)
  }

  /** Replaying the events over the page, one at a time, and keeping the newest
      messages. A limit of 0 keeps them all. */
  method Replay(page: Page, events: seq<Event>, initial: seq<Cursor>, active: set<string>, most: nat)
    returns (s: State, kept: seq<Message>, dropped: nat)
    ensures s == Run(Begin(page, initial, active), events, page, active)
    ensures kept == Trim(s.messages, most) && dropped == (if |s.messages| > most then |s.messages| - most else 0)
  {
    hide Recorded, Put, Find, Delete, Sort, Stale, Reached, Precedes, Answer;
    var messages := [];
    var cursors := new CursorMap(initial);
    for i := 0 to |page.messages|
      invariant messages == Indexed(page.messages[..i])
      invariant cursors.entries == RecordedAll(initial, page.messages[..i], active)
    {
      assert page.messages[..i + 1][..i] == page.messages[..i];
      messages := Put(messages, page.messages[i]);
      cursors.Record(page.messages[i], active);
    }
    assert page.messages[..|page.messages|] == page.messages;
    var text := "";
    ghost var start := Begin(page, initial, active);
    for i := 0 to |events|
      invariant State(messages, cursors.entries, text) == Run(start, events[..i], page, active)
    {
      assert events[..i + 1][..i] == events[..i];
      match events[i]
      case Created(message) =>
        if Stale(cursors.entries, message) { continue; }
        cursors.Record(message, active);
        if Find(messages, message.id).Some? || !Precedes(page, message) {
          if Answer(message) {
            text := "";
          }
          messages := Delete(messages, message.id);
          messages := messages + [message];
        }
      case Delta(run, number, added) =>
        var reached := Reached(cursors.entries, run);
        if !(number.Some? && number.value <= (if reached.Some? then reached.value else 0)) {
          text := text + added;
        }
      case Answered(_) => text := "";
      case OtherEvent =>
    }
    assert events[..|events|] == events;
    s := State(messages, cursors.entries, text);
    kept := Sort(messages);
    SortKeeps(messages);
    dropped := if |kept| > most then |kept| - most else 0;
    if dropped != 0 && most != 0 {
      kept := kept[|kept| - most..];
    }
  }

  // ----- what the server published -----

  /** One piece of the answer, numbered by the event that carried it. */
  datatype Chunk = Chunk(number: int, text: string)

  function Text(log: seq<Chunk>): string {
    if log == [] then "" else Text(log[..|log| - 1]) + log[|log| - 1].text
  }

  function After(log: seq<Chunk>, number: int): seq<Chunk> {
    if log == [] then []
    else
      var rest, last := After(log[..|log| - 1], number), log[|log| - 1];
      if last.number > number then rest + [last] else rest
  }

  function UpTo(log: seq<Chunk>, number: int): seq<Chunk> {
    if log == [] then []
    else
      var rest, last := UpTo(log[..|log| - 1], number), log[|log| - 1];
      if last.number <= number then rest + [last] else rest
  }

  ghost predicate Increasing(log: seq<Chunk>) {
    && (forall i :: 0 <= i < |log| ==> log[i].number > 0)
    && (forall i, j :: 0 <= i < j < |log| ==> log[i].number < log[j].number)
  }

  function Deltas(events: seq<Event>): seq<Chunk> {
    if events == [] then []
    else
      var rest, last := Deltas(events[..|events| - 1]), events[|events| - 1];
      if last.Delta? && last.number.Some? then rest + [Chunk(last.number.value, last.text)] else rest
  }

  lemma {:induction false} TextAdds(left: seq<Chunk>, right: seq<Chunk>)
    ensures Text(left + right) == Text(left) + Text(right)
  {
    if right == [] {
      assert left + right == left;
    } else {
      var last := |right| - 1;
      assert (left + right)[..|left + right| - 1] == left + right[..last];
      TextAdds(left, right[..last]);
    }
  }

  lemma {:induction false} SplitLog(log: seq<Chunk>, number: int)
    requires Increasing(log)
    ensures log == UpTo(log, number) + After(log, number)
  {
    if log != [] {
      var first, last := log[..|log| - 1], log[|log| - 1];
      SplitLog(first, number);
      if last.number <= number {
        EarlierLog(first, number);
        assert After(first, number) == [];
      }
      assert log == first + [last];
    }
  }

  lemma {:induction false} EarlierLog(log: seq<Chunk>, number: int)
    requires forall i :: 0 <= i < |log| ==> log[i].number <= number
    ensures After(log, number) == []
  {
    if log != [] {
      EarlierLog(log[..|log| - 1], number);
    }
  }

  lemma {:induction false} AfterLater(log: seq<Chunk>, earlier: int, later: int)
    requires earlier <= later
    ensures After(After(log, earlier), later) == After(log, later)
    ensures UpTo(UpTo(log, later), earlier) == UpTo(log, earlier)
  {
    if log != [] {
      var first, last := log[..|log| - 1], log[|log| - 1];
      AfterLater(first, earlier, later);
      if last.number > earlier {
        assert After(log, earlier)[..|After(log, earlier)| - 1] == After(first, earlier);
      }
      if last.number <= later {
        assert UpTo(log, later)[..|UpTo(log, later)| - 1] == UpTo(first, later);
      }
    }
  }

  // ----- one load of a conversation whose run is still answering -----

  /** A load: what the page had, what arrived meanwhile, the cursors the page
      already kept, and the answer of the run as it was really published. */
  datatype Load = Load(page: Page, events: seq<Event>, initial: seq<Cursor>, active: set<string>,
                       run: string, id: string, log: seq<Chunk>)

  function OrZero(number: Option<int>): int {
    if number.Some? then number.value else 0
  }

  /** How far the answer shown among the messages goes. */
  function Shown(messages: seq<Message>, id: string): Option<int> {
    var found := Find(messages, id);
    if found.Some? then found.value.through else None
  }

  function Body(messages: seq<Message>, id: string): string {
    var found := Find(messages, id);
    if found.Some? then found.value.body else ""
  }

  predicate Covers(reached: Option<int>, number: int) {
    reached.Some? && number <= reached.value
  }

  /** A message of the run is its one answer, cut off after a numbered event. */
  ghost predicate Checkpoint(load: Load, message: Message) {
    && message.run == Some(load.run) && message.id == load.id && message.assistant
    && message.through.Some? && message.through.value >= 0
    && message.body == Text(UpTo(load.log, message.through.value))
  }

  ghost predicate Other(load: Load, message: Message) {
    message.run != Some(load.run) && message.id != load.id
  }

  ghost predicate Arrives(load: Load, event: Event) {
    && (event.Created? ==> Checkpoint(load, event.message) || Other(load, event.message))
    && (event.Created? && event.message.id == load.id ==>
      Find(load.page.messages, load.id).Some? || !Precedes(load.page, event.message))
    && (event.Delta? ==> event.run == load.run && event.number.Some?)
  }

  ghost predicate CheckpointAt(load: Load, k: int) {
    0 <= k < |load.events| && load.events[k].Created? && load.events[k].message.run == Some(load.run)
      && load.events[k].message.through.Some?
  }

  function ThroughAt(load: Load, k: int): int
    requires CheckpointAt(load, k)
  {
    load.events[k].message.through.value
  }

  /** Every delta that came before the `k`th event is part of the checkpoint. */
  ghost predicate Consumes(load: Load, k: nat, number: int)
    requires k <= |load.events|
  {
    forall j :: 0 <= j < k && load.events[j].Delta? ==> OrZero(load.events[j].number) <= number
  }

  /** A checkpoint is not overtaken by a later delta, unless the page has
      something at least as new already. */
  ghost predicate Ordered(load: Load, k: nat)
    requires CheckpointAt(load, k)
  {
    || Consumes(load, k, ThroughAt(load, k))
    || Covers(Shown(load.page.messages, load.id), ThroughAt(load, k))
    || Covers(Reached(load.initial, load.run), ThroughAt(load, k))
    || exists j :: 0 <= j < k && CheckpointAt(load, j) && ThroughAt(load, j) >= ThroughAt(load, k)
  }

  ghost predicate Distinct(messages: seq<Message>) {
    forall i, j :: 0 <= i < j < |messages| ==> messages[i].id != messages[j].id
  }

  ghost predicate Fits(load: Load) {
    && load.run != "" && load.run in load.active && Increasing(load.log)
    && OnePerRun(load.initial) && OrZero(Reached(load.initial, load.run)) >= 0
    && Distinct(load.page.messages)
    && (forall m :: m in load.page.messages ==>
      Checkpoint(load, m) || (m.run != Some(load.run) && m.id != load.id))
    && (forall k :: 0 <= k < |load.events| ==> Arrives(load, load.events[k]))
    && (forall k :: CheckpointAt(load, k) ==> Ordered(load, k))
    && After(Deltas(load.events), OrZero(Shown(load.page.messages, load.id)))
       == After(load.log, OrZero(Shown(load.page.messages, load.id)))
  }

  function Replayed(load: Load, k: nat): State
    requires k <= |load.events|
  {
    Run(Begin(load.page, load.initial, load.active), load.events[..k], load.page, load.active)
  }

  /** The event clears the live text: it ends an answer, or is an answer of
      another run that belongs on the page. */
  predicate Erases(load: Load, k: nat)
    requires k < |load.events|
  {
    match load.events[k]
    case Answered(_) => true
    case Created(message) =>
      var s := Replayed(load, k);
      message.run != Some(load.run) && Answer(message) && !Stale(s.cursors, message)
      && (Find(s.messages, message.id).Some? || !Precedes(load.page, message))
    case _ => false
  }

  /** Where the last of the first `k` events that clear the live text ends. */
  function ErasedTo(load: Load, k: nat): (c: nat)
    requires k <= |load.events|
    ensures c <= k
  {
    if k == 0 then 0 else if Erases(load, k - 1) then k else ErasedTo(load, k - 1)
  }

  /** Some checkpoint that the page loaded, kept a cursor of, or was sent
      before the `k`th event covers this number. */
  ghost predicate Seen(load: Load, k: nat, number: int) {
    || Covers(Shown(load.page.messages, load.id), number) || Covers(Reached(load.initial, load.run), number)
    || exists j :: 0 <= j < k && CheckpointAt(load, j) && number <= ThroughAt(load, j)
  }

  /** A checkpoint newer than every cursor the page kept arrived while loading. */
  ghost predicate Renewed(load: Load, k: nat) {
    exists j :: 0 <= j < k && CheckpointAt(load, j) && !Covers(Reached(load.initial, load.run), ThroughAt(load, j))
      && !Covers(Shown(load.page.messages, load.id), ThroughAt(load, j))
  }

  function Newest(kept: Option<int>, loaded: Option<int>): Option<int> {
    if loaded.None? || (kept.Some? && loaded.value <= kept.value) then kept else loaded
  }

  /** After `k` events the run's cursor is the newest checkpoint seen anywhere. */
  ghost predicate CursorJoined(load: Load, k: nat, cursors: seq<Cursor>) {
    var loaded, kept, reached :=
      Shown(load.page.messages, load.id), Reached(load.initial, load.run), Reached(cursors, load.run);
    && OnePerRun(cursors) && OrZero(reached) >= 0
    && (loaded.Some? ==> Covers(reached, loaded.value)) && (kept.Some? ==> Covers(reached, kept.value))
    && (forall j :: 0 <= j < k && CheckpointAt(load, j) ==> Covers(reached, ThroughAt(load, j)))
    && (!Renewed(load, k) ==> reached == Newest(kept, loaded))
    && (reached.Some? ==> Seen(load, k, reached.value))
  }

  /** The answer among the messages is that checkpoint, or still the loaded one. */
  ghost predicate BodyJoined(load: Load, k: nat, s: State) {
    var shown := Shown(s.messages, load.id);
    && Body(s.messages, load.id) == Text(UpTo(load.log, OrZero(shown)))
    && shown == (if Renewed(load, k) then Reached(s.cursors, load.run) else Shown(load.page.messages, load.id))
  }

  ghost predicate PresentJoined(load: Load, messages: seq<Message>) {
    Find(load.page.messages, load.id).Some? ==> Find(messages, load.id).Some?
  }

  /** The live text is every delta since it was last cleared that the cursor
      does not cover. */
  ghost predicate TextJoined(load: Load, k: nat, s: State)
    requires k <= |load.events|
  {
    s.text == Text(After(Deltas(load.events[ErasedTo(load, k)..k]), OrZero(Reached(s.cursors, load.run))))
  }

  ghost predicate Joined(load: Load, k: nat, s: State)
    requires k <= |load.events|
  {
    CursorJoined(load, k, s.cursors) && BodyJoined(load, k, s) && PresentJoined(load, s.messages)
      && TextJoined(load, k, s)
  }

  lemma {:induction false} PutFinds(messages: seq<Message>, message: Message, id: string)
    ensures Find(Put(messages, message), id) == if message.id == id then Some(message) else Find(messages, id)
  {
    if messages != [] && messages[0].id != message.id {
      PutFinds(messages[1..], message, id);
    }
  }

  lemma {:induction false} DeleteFinds(messages: seq<Message>, message: Message, id: string)
    ensures Find(Delete(messages, message.id) + [message], id) ==
            if message.id == id then Some(message) else Find(messages, id)
  {
    if messages == [] {
      assert Delete(messages, message.id) + [message] == [message];
    } else {
      DeleteFinds(messages[1..], message, id);
      if messages[0].id != message.id {
        var rest := Delete(messages[1..], message.id);
        assert ([messages[0]] + rest + [message])[1..] == rest + [message];
        assert Delete(messages, message.id) == [messages[0]] + rest;
      }
    }
  }

  lemma {:induction false} FindAmong(messages: seq<Message>, id: string)
    ensures Find(messages, id).Some? ==> Find(messages, id).value in messages && Find(messages, id).value.id == id
    ensures Find(messages, id).None? ==> forall m :: m in messages ==> m.id != id
  {
    if messages != [] {
      FindAmong(messages[1..], id);
    }
  }

  lemma {:induction false} FindSplit(first: seq<Message>, last: Message, id: string)
    ensures Find(first + [last], id) ==
            if Find(first, id).Some? then Find(first, id) else if last.id == id then Some(last) else None
  {
    if first == [] {
      assert first + [last] == [last];
    } else {
      assert (first + [last])[1..] == first[1..] + [last];
      FindSplit(first[1..], last, id);
    }
  }

  /** Loading the page finds each message, and moves the run's cursor to the
      newer of its checkpoint and the cursor kept. */
  lemma {:induction false} PageLoads(load: Load, n: nat, id: string)
    requires Fits(load) && n <= |load.page.messages|
    ensures Find(Indexed(load.page.messages[..n]), id) == Find(load.page.messages[..n], id)
    ensures
      var cursors := RecordedAll(load.initial, load.page.messages[..n], load.active);
      OnePerRun(cursors)
      && Reached(cursors, load.run) == Newest(Reached(load.initial, load.run), Shown(load.page.messages[..n], load.id))
    decreases n
  {
    if n > 0 {
      PageLoads(load, n - 1, id);
      var first, last := load.page.messages[..n - 1], load.page.messages[n - 1];
      assert load.page.messages[..n] == first + [last];
      PutFinds(Indexed(first), last, id);
      FindSplit(first, last, id);
      FindSplit(first, last, load.id);
      FindAmong(first, last.id);
      RecordAdvances(RecordedAll(load.initial, first, load.active), last, load.active, load.run);
    }
  }

  lemma {:induction false} DeltasWithin(load: Load, from: nat, k: nat, number: int)
    requires from <= k <= |load.events| && Consumes(load, k, number)
    ensures forall i :: 0 <= i < |Deltas(load.events[from..k])| ==> Deltas(load.events[from..k])[i].number <= number
    decreases k
  {
    if from < k {
      assert load.events[from..k][..k - 1 - from] == load.events[from..k - 1];
      DeltasWithin(load, from, k - 1, number);
    }
  }

  lemma JoinedAtStart(load: Load)
    requires Fits(load)
    ensures Joined(load, 0, Begin(load.page, load.initial, load.active))
  {
    var messages := load.page.messages;
    assert messages[..|messages|] == messages;
    PageLoads(load, |messages|, load.id);
    FindAmong(messages, load.id);
    NothingUpTo(load.log, 0);
  }

  lemma {:induction false} NothingUpTo(log: seq<Chunk>, number: int)
    requires Increasing(log) && number <= 0
    ensures UpTo(log, number) == []
  {
    if log != [] {
      NothingUpTo(log[..|log| - 1], number);
    }
  }

  lemma OtherEventKeeps(load: Load, k: nat)
    requires k < |load.events| && !CheckpointAt(load, k)
    ensures Renewed(load, k + 1) <==> Renewed(load, k)
  {}

  lemma StaleKeeps(load: Load, k: nat, cursors: seq<Cursor>)
    requires k < |load.events| && CursorJoined(load, k, cursors)
    requires CheckpointAt(load, k) && Stale(cursors, load.events[k].message)
    ensures Renewed(load, k + 1) <==> Renewed(load, k)
    ensures CursorJoined(load, k + 1, cursors)
  {
    if !Renewed(load, k) {
      assert Covers(Reached(load.initial, load.run), ThroughAt(load, k))
        || Covers(Shown(load.page.messages, load.id), ThroughAt(load, k));
    }
  }

  lemma FreshRenews(load: Load, k: nat, cursors: seq<Cursor>)
    requires k < |load.events| && CursorJoined(load, k, cursors)
    requires CheckpointAt(load, k) && ThroughAt(load, k) >= 0 && !Stale(cursors, load.events[k].message)
    ensures Renewed(load, k + 1) && Consumes(load, k, ThroughAt(load, k)) <== Ordered(load, k)
    ensures load.run in load.active ==>
      CursorJoined(load, k + 1, Recorded(cursors, load.events[k].message, load.active))
    ensures load.run in load.active ==>
      Reached(Recorded(cursors, load.events[k].message, load.active), load.run) == Some(ThroughAt(load, k))
  {
    assert !Covers(Reached(load.initial, load.run), ThroughAt(load, k))
      && !Covers(Shown(load.page.messages, load.id), ThroughAt(load, k));
    if load.run in load.active {
      RecordAdvances(cursors, load.events[k].message, load.active, load.run);
    }
  }

  lemma PresentStep(load: Load, k: nat, s: State)
    requires k < |load.events| && PresentJoined(load, s.messages) && load.events[k].Created?
    ensures PresentJoined(load, Step(s, load.events[k], load.page, load.active).messages)
  {
    DeleteFinds(s.messages, load.events[k].message, load.id);
  }

  lemma DeltasSkip(load: Load, from: nat, k: nat)
    requires from <= k < |load.events| && !load.events[k].Delta?
    ensures Deltas(load.events[from..k + 1]) == Deltas(load.events[from..k])
  {
    assert load.events[from..k + 1][..k - from] == load.events[from..k];
  }

  lemma CheckpointJoins(load: Load, k: nat, s: State)
    requires load.run in load.active && load.run != "" && k < |load.events| && load.events[k].Created?
      && Joined(load, k, s)
    requires Checkpoint(load, load.events[k].message) && Arrives(load, load.events[k]) && Ordered(load, k)
    ensures Joined(load, k + 1, Step(s, load.events[k], load.page, load.active))
  {
    var message := load.events[k].message;
    var t := Step(s, load.events[k], load.page, load.active);
    assert CheckpointAt(load, k) && ThroughAt(load, k) >= 0 && ThroughAt(load, k) == message.through.value;
    var from := ErasedTo(load, k);
    assert ErasedTo(load, k + 1) == from;
    DeltasSkip(load, from, k);
    PresentStep(load, k, s);
    if Stale(s.cursors, message) {
      StaleKeeps(load, k, s.cursors);
      assert t == s;
      assert BodyJoined(load, k + 1, t) && TextJoined(load, k + 1, t);
    } else {
      FreshRenews(load, k, s.cursors);
      assert t == State(Delete(s.messages, message.id) + [message], Recorded(s.cursors, message, load.active), "");
      DeleteFinds(s.messages, message, load.id);
      assert BodyJoined(load, k + 1, t);
      DeltasWithin(load, from, k, ThroughAt(load, k));
      EarlierLog(Deltas(load.events[from..k]), ThroughAt(load, k));
      assert TextJoined(load, k + 1, t);
    }
  }

  lemma OtherJoins(load: Load, k: nat, s: State)
    requires load.run in load.active && k < |load.events| && load.events[k].Created? && Joined(load, k, s)
    requires Other(load, load.events[k].message) && Arrives(load, load.events[k]) && s == Replayed(load, k)
    ensures Joined(load, k + 1, Step(s, load.events[k], load.page, load.active))
  {
    var message := load.events[k].message;
    var t := Step(s, load.events[k], load.page, load.active);
    assert !CheckpointAt(load, k) && message.run != Some(load.run) && message.id != load.id;
    PresentStep(load, k, s);
    OtherEventKeeps(load, k);
    assert OnePerRun(s.cursors);
    RecordAdvances(s.cursors, message, load.active, load.run);
    DeleteFinds(s.messages, message, load.id);
    assert Reached(t.cursors, load.run) == Reached(s.cursors, load.run) && OnePerRun(t.cursors);
    assert CursorJoined(load, k + 1, t.cursors) by { CursorStays(load, k, s.cursors, t.cursors); }
    assert BodyJoined(load, k + 1, t);
    assert t.text == if Erases(load, k) then "" else s.text;
    assert TextJoined(load, k + 1, t) by { OtherText(load, k, s, t); }
  }

  lemma CursorStays(load: Load, k: nat, cursors: seq<Cursor>, after: seq<Cursor>)
    requires k < |load.events| && !CheckpointAt(load, k) && CursorJoined(load, k, cursors)
    requires Reached(after, load.run) == Reached(cursors, load.run) && OnePerRun(after)
    ensures CursorJoined(load, k + 1, after)
  {
    OtherEventKeeps(load, k);
    SeenStill(load, k);
    hide Seen, Renewed;
  }

  lemma SeenStill(load: Load, k: nat)
    ensures forall number :: Seen(load, k, number) ==> Seen(load, k + 1, number)
  {
  }

  /** An event without text of this run leaves the live text, or clears it. */
  lemma OtherText(load: Load, k: nat, s: State, t: State)
    requires k < |load.events| && !load.events[k].Delta? && TextJoined(load, k, s)
    requires Reached(t.cursors, load.run) == Reached(s.cursors, load.run)
    requires t.text == if Erases(load, k) then "" else s.text
    ensures TextJoined(load, k + 1, t)
  {
    hide Erases, Reached;
    if Erases(load, k) {
      assert load.events[k + 1..k + 1] == [];
      assert Deltas([]) == [];
      NoneLogged(OrZero(Reached(t.cursors, load.run)));
    } else {
      DeltasSkip(load, ErasedTo(load, k), k);
    }
  }

  /** What ends an answer clears the live text. */
  lemma AnsweredJoins(load: Load, k: nat, s: State)
    requires k < |load.events| && load.events[k].Answered? && Joined(load, k, s)
    ensures Joined(load, k + 1, Step(s, load.events[k], load.page, load.active))
  {
    var t := Step(s, load.events[k], load.page, load.active);
    assert !CheckpointAt(load, k) && Erases(load, k) && t == s.(text := "");
    OtherEventKeeps(load, k);
    CursorStays(load, k, s.cursors, t.cursors);
    OtherText(load, k, s, t);
    hide CursorJoined, TextJoined;
  }

  lemma DeltaJoins(load: Load, k: nat, s: State)
    requires k < |load.events| && load.events[k].Delta? && Joined(load, k, s) && Arrives(load, load.events[k])
    ensures Joined(load, k + 1, Step(s, load.events[k], load.page, load.active))
  {
    var t := Step(s, load.events[k], load.page, load.active);
    assert !CheckpointAt(load, k);
    OtherEventKeeps(load, k);
    assert t.cursors == s.cursors && t.messages == s.messages;
    assert CursorJoined(load, k + 1, t.cursors) by { CursorStays(load, k, s.cursors, t.cursors); }
    assert BodyJoined(load, k + 1, t);
    assert TextJoined(load, k + 1, t) by { DeltaText(load, k, s); }
  }

  lemma DeltaText(load: Load, k: nat, s: State)
    requires k < |load.events| && load.events[k].Delta? && TextJoined(load, k, s) && Arrives(load, load.events[k])
    ensures TextJoined(load, k + 1, Step(s, load.events[k], load.page, load.active))
  {
    var event, t := load.events[k], Step(s, load.events[k], load.page, load.active);
    assert event.run == load.run && event.number.Some?;
    var reached := OrZero(Reached(s.cursors, load.run));
    var from := ErasedTo(load, k);
    assert ErasedTo(load, k + 1) == from;
    var before, chunk := Deltas(load.events[from..k]), Chunk(event.number.value, event.text);
    assert load.events[from..k + 1] == load.events[from..k] + [event];
    DeltasAdd(load.events[from..k], event);
    AfterAdd(before, chunk, reached);
    assert t.cursors == s.cursors && t.text == s.text + (if chunk.number > reached then chunk.text else "");
    TextAdds(After(before, reached), if chunk.number > reached then [chunk] else []);
    assert Text([chunk]) == chunk.text && Text([]) == "" by { TextOne(chunk); }
  }

  lemma TextOne(chunk: Chunk)
    ensures Text([chunk]) == chunk.text && Text([]) == ""
  {
    assert [chunk][..0] == [];
  }

  lemma DeltasAdd(events: seq<Event>, event: Event)
    ensures Deltas(events + [event]) ==
            Deltas(events) + if event.Delta? && event.number.Some? then [Chunk(event.number.value, event.text)] else []
  {
    assert (events + [event])[..|events|] == events;
  }

  lemma AfterAdd(log: seq<Chunk>, chunk: Chunk, number: int)
    ensures After(log + [chunk], number) == After(log, number) + if chunk.number > number then [chunk] else []
  {
    assert (log + [chunk])[..|log|] == log;
  }

  lemma UpToAdd(log: seq<Chunk>, chunk: Chunk, number: int)
    ensures UpTo(log + [chunk], number) == UpTo(log, number) + if chunk.number <= number then [chunk] else []
  {
    assert (log + [chunk])[..|log|] == log;
  }

  lemma ReplayStep(load: Load, k: nat)
    requires k < |load.events|
    ensures Replayed(load, k + 1) == Step(Replayed(load, k), load.events[k], load.page, load.active)
  {
    assert load.events[..k + 1][..k] == load.events[..k];
  }

  lemma OtherEventJoins(load: Load, k: nat, s: State)
    requires k < |load.events| && load.events[k].OtherEvent? && Joined(load, k, s)
    ensures Joined(load, k + 1, Step(s, load.events[k], load.page, load.active))
  {
    DeltasSkip(load, ErasedTo(load, k), k);
    OtherEventKeeps(load, k);
    CursorStays(load, k, s.cursors, s.cursors);
    hide CursorJoined;
  }

  lemma FitsAt(load: Load, k: nat)
    requires Fits(load) && k < |load.events|
    ensures Arrives(load, load.events[k]) && load.run in load.active && load.run != ""
    ensures load.events[k].Created? ==> Checkpoint(load, load.events[k].message) || Other(load, load.events[k].message)
    ensures load.events[k].Created? && Checkpoint(load, load.events[k].message) ==>
      CheckpointAt(load, k) && Ordered(load, k)
  {
    hide Checkpoint, Ordered, Distinct, OnePerRun, Increasing, After, Deltas;
    assert Arrives(load, load.events[k]);
    if load.events[k].Created? && Checkpoint(load, load.events[k].message) {
      IsCheckpointAt(load, k);
    }
  }

  lemma IsCheckpointAt(load: Load, k: nat)
    requires k < |load.events| && load.events[k].Created? && Checkpoint(load, load.events[k].message)
    ensures CheckpointAt(load, k)
  {
  }

  lemma JoinedNext(load: Load, k: nat, s: State)
    requires Fits(load) && k < |load.events| && Joined(load, k, s) && s == Replayed(load, k)
    ensures Joined(load, k + 1, Step(s, load.events[k], load.page, load.active))
  {
    hide *;
    FitsAt(load, k);
    match load.events[k]
    case Created(message) =>
      if Checkpoint(load, message) {
        CheckpointJoins(load, k, s);
      } else {
        OtherJoins(load, k, s);
      }
    case Delta(_, _, _) => DeltaJoins(load, k, s);
    case Answered(_) => AnsweredJoins(load, k, s);
    case OtherEvent => OtherEventJoins(load, k, s);
  }

  lemma ReplayStart(load: Load)
    ensures Replayed(load, 0) == Begin(load.page, load.initial, load.active)
  {
  }

  lemma {:induction false} JoinedAlways(load: Load, k: nat)
    requires Fits(load) && k <= |load.events|
    ensures Joined(load, k, Replayed(load, k))
    decreases k
  {
    hide *;
    if k == 0 {
      JoinedAtStart(load);
      ReplayStart(load);
    } else {
      JoinedAlways(load, k - 1);
      JoinedNext(load, k - 1, Replayed(load, k - 1));
      ReplayStep(load, k - 1);
    }
  }

  /** The text that neither the messages nor the live text show, because the
      page's own cursor hides it. */
  ghost function Lost(load: Load): string {
    var loaded, kept := OrZero(Shown(load.page.messages, load.id)), OrZero(Reached(load.initial, load.run));
    if Renewed(load, |load.events|) then "" else Text(After(UpTo(load.log, kept), loaded))
  }

  /** The text that was live when it was last cleared, and that no checkpoint
      has got to since. */
  function Erased(load: Load): string {
    var n := |load.events|;
    Text(After(Deltas(load.events[..ErasedTo(load, n)]), OrZero(Reached(Replayed(load, n).cursors, load.run))))
  }

  lemma {:induction false} DeltasJoin(a: seq<Event>, b: seq<Event>)
    ensures Deltas(a + b) == Deltas(a) + Deltas(b)
  {
    if b == [] {
      assert a + b == a && Deltas(b) == [];
    } else {
      var front, last := b[..|b| - 1], b[|b| - 1];
      assert a + b == (a + front) + [last] && b == front + [last];
      DeltasJoin(a, front);
      hide Deltas;
      DeltasAdd(a + front, last);
      DeltasAdd(front, last);
      assert Deltas(a) + Deltas(front) + [] == Deltas(a) + (Deltas(front) + []);
    }
  }

  lemma {:induction false} AfterJoin(a: seq<Chunk>, b: seq<Chunk>, number: int)
    ensures After(a + b, number) == After(a, number) + After(b, number)
  {
    if b == [] {
      assert a + b == a && After(b, number) == [];
    } else {
      var front, last := b[..|b| - 1], b[|b| - 1];
      assert a + b == (a + front) + [last] && b == front + [last];
      AfterJoin(a, front, number);
      hide After;
      AfterAdd(a + front, last, number);
      AfterAdd(front, last, number);
    }
  }

  /** The deltas that the cursor does not cover are those that were cleared and
      those that are live. */
  lemma UncoveredText(load: Load)
    requires Joined(load, |load.events|, Replayed(load, |load.events|))
    ensures
      var s := Replayed(load, |load.events|);
      Text(After(Deltas(load.events), OrZero(Reached(s.cursors, load.run)))) == Erased(load) + s.text
  {
    hide CursorJoined, BodyJoined, Replayed, Deltas, After, Text, ErasedTo, Reached;
    var n := |load.events|;
    var c, reached := ErasedTo(load, n), OrZero(Reached(Replayed(load, n).cursors, load.run));
    assert load.events == load.events[..c] + load.events[c..n];
    DeltasJoin(load.events[..c], load.events[c..n]);
    AfterJoin(Deltas(load.events[..c]), Deltas(load.events[c..n]), reached);
    TextAdds(After(Deltas(load.events[..c]), reached), After(Deltas(load.events[c..n]), reached));
  }

  /** Where the answer among the messages and the cursor end up. */
  lemma EndsUp(load: Load, s: State)
    requires Joined(load, |load.events|, s)
    ensures
      var loaded, kept := OrZero(Shown(load.page.messages, load.id)), OrZero(Reached(load.initial, load.run));
      var shown, reached := OrZero(Shown(s.messages, load.id)), OrZero(Reached(s.cursors, load.run));
      && loaded <= reached && shown <= reached && Body(s.messages, load.id) == Text(UpTo(load.log, shown))
      && (if Renewed(load, |load.events|) then shown == reached
         else shown == loaded && (reached == kept || (reached == loaded && kept <= loaded)))
  {
    hide TextJoined, PresentJoined, Renewed, Seen, Text, UpTo, Find, Body;
  }

  /** Past the loaded checkpoint the deltas that arrived are those published. */
  lemma LiveAsPublished(load: Load, reached: int)
    requires Fits(load) && OrZero(Shown(load.page.messages, load.id)) <= reached
    ensures After(Deltas(load.events), reached) == After(load.log, reached) && Increasing(load.log)
  {
    hide After, Deltas, Arrives, Checkpoint, Ordered, Increasing, Distinct, OnePerRun, CheckpointAt;
    AfterLater(Deltas(load.events), OrZero(Shown(load.page.messages, load.id)), reached);
    AfterLater(load.log, OrZero(Shown(load.page.messages, load.id)), reached);
  }

  /** What a kept cursor hides lies between the answer shown and the cursor. */
  lemma LostBetween(load: Load, shown: int, reached: int)
    requires Increasing(load.log)
    requires
      var loaded, kept := OrZero(Shown(load.page.messages, load.id)), OrZero(Reached(load.initial, load.run));
      if Renewed(load, |load.events|) then shown == reached
      else shown == loaded && (reached == kept || (reached == loaded && kept <= loaded))
    ensures Lost(load) == Text(After(UpTo(load.log, reached), shown))
  {
    hide Increasing, UpTo, After, Renewed, Shown, Reached;
    assert Text([]) == "";
    hide Text;
    NothingBetween(load.log, reached, shown);
    NothingBetween(load.log, OrZero(Reached(load.initial, load.run)), OrZero(Shown(load.page.messages, load.id)));
  }

  lemma ReplayedAll(load: Load)
    ensures Replayed(load, |load.events|)
         == Run(Begin(load.page, load.initial, load.active), load.events, load.page, load.active)
  {
    assert load.events[..|load.events|] == load.events;
  }

  /** The answer among the messages followed by the live text is the answer
      published so far, but for two gaps: the deltas after the loaded checkpoint
      that a cursor kept from before covers, and what was cleared. */
  lemma AnswerIsWhole(load: Load)
    requires Fits(load)
    ensures
      var s := Run(Begin(load.page, load.initial, load.active), load.events, load.page, load.active);
      Text(load.log) == Body(s.messages, load.id) + Lost(load) + Erased(load) + s.text
  {
    hide *;
    var s := Replayed(load, |load.events|);
    JoinedAlways(load, |load.events|);
    UncoveredText(load);
    ReplayedAll(load);
    EndsUp(load, s);
    var shown, reached := OrZero(Shown(s.messages, load.id)), OrZero(Reached(s.cursors, load.run));
    LiveAsPublished(load, reached);
    SplitText(load.log, shown, reached);
    LostBetween(load, shown, reached);
    var body, lost := Body(s.messages, load.id), Lost(load);
    assert body + lost + (Erased(load) + s.text) == body + lost + Erased(load) + s.text;
  }

  /** A log is what is up to one number, between it and another, and after both. */
  lemma SplitText(log: seq<Chunk>, shown: int, reached: int)
    requires Increasing(log) && shown <= reached
    ensures Text(log) == Text(UpTo(log, shown)) + Text(After(UpTo(log, reached), shown)) + Text(After(log, reached))
  {
    SplitLog(log, reached);
    TextAdds(UpTo(log, reached), After(log, reached));
    UpToIncreases(log, reached);
    SplitLog(UpTo(log, reached), shown);
    AfterLater(log, shown, reached);
    TextAdds(UpTo(log, shown), After(UpTo(log, reached), shown));
  }

  lemma IncreasingAdds(log: seq<Chunk>, chunk: Chunk)
    requires Increasing(log) && chunk.number > 0 && forall c :: c in log ==> c.number < chunk.number
    ensures Increasing(log + [chunk])
  {
    forall i, j | 0 <= i < j < |log + [chunk]|
      ensures (log + [chunk])[i].number < (log + [chunk])[j].number
    {
      assert (log + [chunk])[i] in log;
    }
  }

  lemma {:induction false} UpToIncreases(log: seq<Chunk>, number: int)
    requires Increasing(log)
    ensures Increasing(UpTo(log, number))
    ensures forall c :: c in UpTo(log, number) ==> c in log && c.number <= number
  {
    hide UpTo;
    NoneLogged(number);
    if log != [] {
      var first, last := log[..|log| - 1], log[|log| - 1];
      assert log == first + [last];
      assert Increasing(first) && forall c :: c in first ==> c.number < last.number;
      UpToIncreases(first, number);
      UpToAdd(first, last, number);
      if last.number <= number {
        IncreasingAdds(UpTo(first, number), last);
      }
    }
  }

  lemma NothingBetween(log: seq<Chunk>, earlier: int, later: int)
    requires Increasing(log)
    ensures earlier <= later ==> After(UpTo(log, earlier), later) == []
  {
    if earlier <= later {
      UpToIncreases(log, earlier);
      EarlierLog(UpTo(log, earlier), later);
    }
  }

  lemma NoneLogged(number: int)
    ensures UpTo([], number) == [] && After([], number) == []
  {
  }

  lemma {:induction false} UpToThenAfter(log: seq<Chunk>, upTo: int, number: int)
    ensures After(UpTo(log, upTo), number) == UpTo(After(log, number), upTo)
  {
    hide UpTo, After;
    NoneLogged(upTo);
    NoneLogged(number);
    if log != [] {
      var first, last := log[..|log| - 1], log[|log| - 1];
      UpToThenAfter(first, upTo, number);
      UpToAdd(first, last, upTo);
      AfterAdd(first, last, number);
      AfterAdd(UpTo(first, upTo), last, number);
      UpToAdd(After(first, number), last, upTo);
      assert log == first + [last];
      assert UpTo(first, upTo) + [] == UpTo(first, upTo) && After(first, number) + [] == After(first, number);
    }
  }

  /** No buffered delta that the kept cursor covers, and the loaded checkpoint
      does not, carries text. */
  ghost predicate HidesNoText(events: seq<Event>, loaded: int, kept: int) {
    forall j :: 0 <= j < |events| && events[j].Delta? && events[j].number.Some? ==>
      loaded < events[j].number.value <= kept ==> events[j].text == ""
  }

  lemma {:induction false} HiddenText(events: seq<Event>, loaded: int, kept: int)
    ensures Text(After(UpTo(Deltas(events), kept), loaded)) == "" <==> HidesNoText(events, loaded, kept)
  {
    if events == [] {
    } else {
      var first, last := events[..|events| - 1], events[|events| - 1];
      assert events == first + [last];
      HiddenText(first, loaded, kept);
      DeltasAdd(first, last);
      HidesAlso(first, last, loaded, kept);
      if last.Delta? && last.number.Some? {
        var chunk := Chunk(last.number.value, last.text);
        hide Text, After, UpTo, Deltas, HidesNoText;
        UpToAdd(Deltas(first), chunk, kept);
        AfterAdd(UpTo(Deltas(first), kept), chunk, loaded);
        TextAdds(After(UpTo(Deltas(first), kept), loaded), [chunk]);
        TextOne(chunk);
      }
    }
  }

  lemma HidesAlso(first: seq<Event>, last: Event, loaded: int, kept: int)
    ensures HidesNoText(first, loaded, kept)
      && (last.Delta? && last.number.Some? && loaded < last.number.value <= kept ==> last.text == "")
      <==> HidesNoText(first + [last], loaded, kept)
  {
    var events := first + [last];
    assert events[|first|] == last && forall j :: 0 <= j < |first| ==> events[j] == first[j];
  }

  /** What the load brought tells what a kept cursor hides. */
  lemma SeenAsPublished(load: Load)
    requires Fits(load)
    ensures
      var loaded, kept := OrZero(Shown(load.page.messages, load.id)), OrZero(Reached(load.initial, load.run));
      Text(After(UpTo(load.log, kept), loaded)) == "" <==> HidesNoText(load.events, loaded, kept)
  {
    hide Text, After, UpTo, Deltas, HidesNoText, Arrives, CheckpointAt, Checkpoint;
    var loaded, kept := OrZero(Shown(load.page.messages, load.id)), OrZero(Reached(load.initial, load.run));
    UpToThenAfter(load.log, kept, loaded);
    UpToThenAfter(Deltas(load.events), kept, loaded);
    HiddenText(load.events, loaded, kept);
  }

  /** No delta that was live when the text was last cleared, and that no
      checkpoint seen covers, carries text. */
  ghost predicate ErasesNoText(load: Load) {
    forall j :: 0 <= j < ErasedTo(load, |load.events|) && load.events[j].Delta? && load.events[j].number.Some? ==>
      Uncovered(load, load.events[j].number.value) ==> load.events[j].text == ""
  }

  ghost predicate Uncovered(load: Load, number: int) {
    number > 0 && !Seen(load, |load.events|, number)
  }

  ghost predicate NoTextBeyond(events: seq<Event>, reached: int) {
    forall j :: 0 <= j < |events| && events[j].Delta? && events[j].number.Some? ==>
      events[j].number.value > reached ==> events[j].text == ""
  }

  lemma NothingBeyond(reached: int)
    ensures Text(After(Deltas([]), reached)) == "" && NoTextBeyond([], reached)
  {
  }

  lemma NoneBeyond(first: seq<Event>, last: Event, reached: int)
    ensures NoTextBeyond(first, reached)
      && (last.Delta? && last.number.Some? && last.number.value > reached ==> last.text == "")
      <==> NoTextBeyond(first + [last], reached)
  {
    var events := first + [last];
    assert events[|first|] == last && forall j :: 0 <= j < |first| ==> events[j] == first[j];
  }

  lemma {:induction false} TextBeyond(events: seq<Event>, reached: int)
    ensures Text(After(Deltas(events), reached)) == "" <==> NoTextBeyond(events, reached)
  {
    hide Text, After, Deltas, NoTextBeyond;
    if events == [] {
      NothingBeyond(reached);
    } else {
      var first, last := events[..|events| - 1], events[|events| - 1];
      assert events == first + [last];
      TextBeyond(first, reached);
      DeltasAdd(first, last);
      NoneBeyond(first, last, reached);
      if last.Delta? && last.number.Some? {
        var chunk := Chunk(last.number.value, last.text);
        AfterAdd(Deltas(first), chunk, reached);
        TextAdds(After(Deltas(first), reached), [chunk]);
        TextOne(chunk);
        assert After(Deltas(first), reached) + [] == After(Deltas(first), reached);
      } else {
        assert Deltas(first) + [] == Deltas(first);
      }
    }
  }

  /** The cursor covers exactly what some checkpoint seen covers. */
  lemma CursorCovers(load: Load, cursors: seq<Cursor>, number: int)
    requires CursorJoined(load, |load.events|, cursors)
    ensures number > OrZero(Reached(cursors, load.run)) <==> Uncovered(load, number)
  {
  }

  lemma ErasedExactly(load: Load)
    requires Joined(load, |load.events|, Replayed(load, |load.events|))
    ensures Erased(load) == "" <==> ErasesNoText(load)
  {
    hide BodyJoined, PresentJoined, TextJoined, CursorJoined, Replayed, Erases, Deltas, After, Text, Reached, Uncovered;
    var n, cursors := |load.events|, Replayed(load, |load.events|).cursors;
    var c := ErasedTo(load, n);
    TextBeyond(load.events[..c], OrZero(Reached(cursors, load.run)));
    forall j | 0 <= j < c && load.events[j].Delta? && load.events[j].number.Some?
      ensures load.events[j].number.value > OrZero(Reached(cursors, load.run)) <==>
        Uncovered(load, load.events[j].number.value)
    {
      CursorCovers(load, cursors, load.events[j].number.value);
    }
    assert forall j :: 0 <= j < c ==> load.events[..c][j] == load.events[j];
  }

  /** Nothing is lost or shown twice exactly when both hold: a checkpoint newer
      than the page's cursor arrived too, or no delta that arrived while loading,
      that the loaded checkpoint lacks and that cursor covers, carries text; and
      no delta before the last event that clears the live text, that no checkpoint
      covers, carries text. With a cursor no newer than the loaded checkpoint and
      no such event nothing is lost. */
  lemma WholeExactlyWhen(load: Load)
    requires Fits(load)
    ensures
      var s := Run(Begin(load.page, load.initial, load.active), load.events, load.page, load.active);
      var loaded, kept := OrZero(Shown(load.page.messages, load.id)), OrZero(Reached(load.initial, load.run));
      && (Body(s.messages, load.id) + s.text == Text(load.log) <==>
            (Renewed(load, |load.events|) || HidesNoText(load.events, loaded, kept)) && ErasesNoText(load))
      && (kept <= loaded && ErasedTo(load, |load.events|) == 0 ==>
            Body(s.messages, load.id) + s.text == Text(load.log))
  {
    var s := Run(Begin(load.page, load.initial, load.active), load.events, load.page, load.active);
    var loaded, kept := OrZero(Shown(load.page.messages, load.id)), OrZero(Reached(load.initial, load.run));
    AnswerIsWhole(load);
    SeenAsPublished(load);
    JoinedAlways(load, |load.events|);
    ErasedExactly(load);
    var between := Text(After(UpTo(load.log, kept), loaded));
    assert Lost(load) == if Renewed(load, |load.events|) then "" else between;
    assert kept <= loaded ==> HidesNoText(load.events, loaded, kept);
    hide Lost, Fits, Text, Run, Begin, Find, Renewed, HidesNoText, After, UpTo, Erased, ErasedTo, Joined;
    WholeWithout(Text(load.log), Body(s.messages, load.id), Lost(load), Erased(load), s.text);
  }

  lemma WholeWithout(whole: string, body: string, lost: string, erased: string, text: string)
    requires whole == body + lost + erased + text
    ensures body + text == whole <==> lost == "" && erased == ""
  {
    if lost == "" && erased == "" {
      assert body + lost + erased == body;
    } else {
      assert |body + lost + erased + text| == |body + text| + |lost| + |erased|;
    }
  }

  const ANSWER_1 := Message("m", 1, true, Some("run"), Some(1), "a")
  const ANSWER_2 := Message("m", 1, true, Some("run"), Some(2), "ab")
  const ROLLED_BACK := Load(Page([ANSWER_1], false),
                            [Delta("run", Some(2), "b"), Created(ANSWER_2), Delta("run", Some(3), "c")],
                            [Cursor("run", 2)], {"run"}, "run", "m",
                            [Chunk(1, "a"), Chunk(2, "b"), Chunk(3, "c")])

  /** A reload of the open conversation hands the cursor that already counted a
      buffered checkpoint: the checkpoint is then skipped as stale, and the page
      goes back to the older body without the text in between. */
  lemma RolledBack()
    ensures
      var load := ROLLED_BACK;
      var s := Run(Begin(load.page, load.initial, load.active), load.events, load.page, load.active);
      Body(s.messages, "m") == "a" && s.text == "c" && Text(load.log) == "abc"
  {
    var load := ROLLED_BACK;
    var start := Begin(load.page, load.initial, load.active);
    assert load.page.messages[..0] == [];
    assert Indexed([ANSWER_1]) == Put(Indexed([]), ANSWER_1) == [ANSWER_1];
    assert RecordedAll(load.initial, [ANSWER_1], load.active) == Recorded(load.initial, ANSWER_1, load.active)
      == load.initial;
    assert start == State([ANSWER_1], [Cursor("run", 2)], "");
    assert load.events[..2][..1] == load.events[..1] && load.events[..1][..0] == [];
    assert Run(start, load.events[..1], load.page, load.active) == start;
    assert Stale(start.cursors, ANSWER_2);
    assert Run(start, load.events[..2], load.page, load.active) == start;
    assert load.log[..2][..1] == load.log[..1] && load.log[..1][..0] == [];
    assert Text(load.log[..1]) == "a" && Text(load.log[..2]) == "ab";
  }

  lemma ThreeChunks(one: Chunk, two: Chunk, three: Chunk, number: int)
    ensures UpTo([one, two, three], number) == (if one.number <= number then [one] else [])
      + (if two.number <= number then [two] else []) + (if three.number <= number then [three] else [])
    ensures After([one, two, three], number) == (if one.number > number then [one] else [])
      + (if two.number > number then [two] else []) + (if three.number > number then [three] else [])
  {
    assert UpTo([], number) == [] && After([], number) == [];
    hide *;
    UpToAdd([], one, number);
    UpToAdd([one], two, number);
    UpToAdd([one, two], three, number);
    AfterAdd([], one, number);
    AfterAdd([one], two, number);
    AfterAdd([one, two], three, number);
    assert [] + [one] == [one] && [one] + [two] == [one, two] && [one, two] + [three] == [one, two, three];
  }

  lemma RolledBackLog()
    ensures Checkpoint(ROLLED_BACK, ANSWER_1) && Checkpoint(ROLLED_BACK, ANSWER_2)
    ensures After(ROLLED_BACK.log, 1) == [Chunk(2, "b"), Chunk(3, "c")]
  {
    var one, two, three := Chunk(1, "a"), Chunk(2, "b"), Chunk(3, "c");
    ThreeChunks(one, two, three, 1);
    ThreeChunks(one, two, three, 2);
    TextOne(one);
    TextOne(two);
    TextAdds([one], [two]);
    hide UpTo, After, Text;
    assert [one] + [two] == [one, two] && "a" + "b" == "ab";
    assert ROLLED_BACK.log == [one, two, three];
    assert UpTo(ROLLED_BACK.log, 1) == [one] && UpTo(ROLLED_BACK.log, 2) == [one, two];
    assert After(ROLLED_BACK.log, 1) == [two, three];
  }

  lemma RolledBackSeen()
    ensures After(Deltas(ROLLED_BACK.events), 1) == [Chunk(2, "b"), Chunk(3, "c")]
  {
    assert After(Deltas([Delta("run", Some(2), "b"), Created(ANSWER_2), Delta("run", Some(3), "c")]), 1)
        == [Chunk(2, "b"), Chunk(3, "c")] by {
      SeenPieces(Delta("run", Some(2), "b"), Created(ANSWER_2), Delta("run", Some(3), "c"));
    }
  }

  lemma SeenPieces(first: Event, second: Event, third: Event)
    requires first.Delta? && first.number.Some? && second.Created? && third.Delta? && third.number.Some?
    requires first.number.value > 1 && third.number.value > 1
    ensures After(Deltas([first, second, third]), 1)
         == [Chunk(first.number.value, first.text), Chunk(third.number.value, third.text)]
  {
    var one, two := Chunk(first.number.value, first.text), Chunk(third.number.value, third.text);
    assert Deltas([]) == [] && After([], 1) == [];
    hide *;
    DeltasAdd([], first);
    DeltasAdd([first], second);
    DeltasAdd([first, second], third);
    AfterAdd([], one, 1);
    AfterAdd([one], two, 1);
    assert [] + [first] == [first] && [first] + [second] == [first, second];
    assert [first, second] + [third] == [first, second, third];
    assert [] + [one] == [one] && [one] + [] == [one] && [one] + [two] == [one, two];
  }

  /** That load is one the whole-answer result speaks of. */
  lemma RolledBackFits()
    ensures Fits(ROLLED_BACK) && !Renewed(ROLLED_BACK, |ROLLED_BACK.events|)
  {
    hide Deltas, After, UpTo, Text, Checkpoint;
    var load := ROLLED_BACK;
    RolledBackLog();
    RolledBackSeen();
    forall k | 0 <= k < |load.events|
      ensures Arrives(load, load.events[k]) && (CheckpointAt(load, k) ==> k == 1)
    {
      assert k == 0 || k == 1 || k == 2;
    }
    assert CheckpointAt(load, 1) && ThroughAt(load, 1) == 2 && Ordered(load, 1);
  }

  /** An answer of another run on the loaded page clears this run's live text
      and leaves its cursor where it was. */
  lemma OtherAnswerErases(s: State, message: Message, page: Page, active: set<string>, run: string)
    requires Answer(message) && !Stale(s.cursors, message) && !Precedes(page, message)
    requires message.run != Some(run) && run in active && OnePerRun(s.cursors)
    ensures Step(s, Created(message), page, active).text == ""
    ensures Reached(Step(s, Created(message), page, active).cursors, run) == Reached(s.cursors, run)
  {
    RecordAdvances(s.cursors, message, active, run);
  }

  const OTHER_ANSWER := Message("n", 2, true, Some("other"), None, "x")
  const ERASED := Load(Page([ANSWER_1], false), [Delta("run", Some(2), "b"), Created(OTHER_ANSWER)],
                       [], {"run"}, "run", "m", [Chunk(1, "a"), Chunk(2, "b")])

  /** Such a load: the live text of a run is lost to the answer of another. */
  lemma ErasedByOther()
    ensures
      var load := ERASED;
      var s := Run(Begin(load.page, load.initial, load.active), load.events, load.page, load.active);
      Body(s.messages, "m") == "a" && s.text == "" && Text(load.log) == "ab"
  {
    var load := ERASED;
    var start := Begin(load.page, load.initial, load.active);
    assert load.page.messages[..0] == [];
    assert Indexed([ANSWER_1]) == Put(Indexed([]), ANSWER_1) == [ANSWER_1];
    assert RecordedAll([], [ANSWER_1], load.active) == Recorded([], ANSWER_1, load.active) == [Cursor("run", 1)];
    assert start == State([ANSWER_1], [Cursor("run", 1)], "");
    assert load.events[..1][..0] == [];
    var one := start.(text := "b");
    assert "m"[0] != "n"[0] && [ANSWER_1][1..] == [];
    assert Delete([ANSWER_1], "n") == [ANSWER_1] + Delete([], "n") == [ANSWER_1];
    assert [ANSWER_1] + [OTHER_ANSWER] == [ANSWER_1, OTHER_ANSWER];
    assert Run(start, load.events[..1], load.page, load.active) == one;
    assert Step(one, Created(OTHER_ANSWER), load.page, load.active)
        == State([ANSWER_1, OTHER_ANSWER], [Cursor("run", 1)], "");
    assert load.log[..1][..0] == [] && Text(load.log[..1]) == "a";
  }

  lemma TwoChunks(one: Chunk, two: Chunk)
    requires one.number == 1 && two.number == 2
    ensures UpTo([one, two], 1) == [one] && After([one, two], 1) == [two] && After([two], 1) == [two]
  {
    NoneLogged(1);
    hide *;
    UpToAdd([], one, 1);
    UpToAdd([one], two, 1);
    AfterAdd([], one, 1);
    AfterAdd([one], two, 1);
    AfterAdd([], two, 1);
    assert [] + [one] == [one] && [one] + [two] == [one, two] && [one] + [] == [one] && [] + [two] == [two];
  }

  lemma OneDelta(delta: Event, other: Event)
    requires delta.Delta? && delta.number.Some? && !other.Delta?
    ensures Deltas([delta, other]) == [Chunk(delta.number.value, delta.text)]
  {
    assert Deltas([]) == [];
    hide *;
    DeltasAdd([], delta);
    DeltasAdd([delta], other);
    var chunks := [Chunk(delta.number.value, delta.text)];
    assert [] + [delta] == [delta] && [delta] + [other] == [delta, other];
    assert [] + chunks == chunks && chunks + [] == chunks;
  }

  lemma ErasedLog()
    ensures Checkpoint(ERASED, ANSWER_1) && After(ERASED.log, 1) == [Chunk(2, "b")]
    ensures After(Deltas(ERASED.events), 1) == [Chunk(2, "b")]
  {
    hide UpTo, After, Text, Deltas;
    TextOne(Chunk(1, "a"));
    TwoChunks(Chunk(1, "a"), Chunk(2, "b"));
    OneDelta(Delta("run", Some(2), "b"), Created(OTHER_ANSWER));
  }

  /** It too is one the whole-answer result speaks of. */
  lemma ErasedFits()
    ensures Fits(ERASED)
  {
    hide Deltas, After, UpTo, Text, Checkpoint;
    ErasedLog();
    forall k | 0 <= k < |ERASED.events|
      ensures Arrives(ERASED, ERASED.events[k]) && !CheckpointAt(ERASED, k)
    {
      assert k == 0 || k == 1;
    }
  }

  // ----- the page that is kept -----

  function Insert(messages: seq<Message>, message: Message): seq<Message> {
    if messages == [] || messages[|messages| - 1].order <= message.order then messages + [message]
    else Insert(messages[..|messages| - 1], message) + [messages[|messages| - 1]]
  }

  function Sort(messages: seq<Message>): seq<Message> {
    if messages == [] then [] else Insert(Sort(messages[..|messages| - 1]), messages[|messages| - 1])
  }

  function Trim(messages: seq<Message>, most: nat): seq<Message> {
    if |messages| > most > 0 then Sort(messages)[Size(messages) - most..] else Sort(messages)
  }

  function Size(messages: seq<Message>): (n: nat)
    ensures n == |Sort(messages)| == |messages|
  {
    SortKeeps(messages);
    |messages|
  }

  function Upsert(messages: seq<Message>, message: Message): seq<Message> {
    Sort(Delete(messages, message.id) + [message])
  }

  ghost predicate InOrder(messages: seq<Message>) {
    forall i, j :: 0 <= i < j < |messages| ==> messages[i].order <= messages[j].order
  }

  lemma {:induction false} InsertAmong(messages: seq<Message>, message: Message)
    ensures |Insert(messages, message)| == |messages| + 1
    ensures multiset(Insert(messages, message)) == multiset(messages) + multiset{message}
  {
    if messages != [] && messages[|messages| - 1].order > message.order {
      var first, last := messages[..|messages| - 1], messages[|messages| - 1];
      InsertAmong(first, message);
      assert messages == first + [last];
    }
  }

  lemma InOrderAdds(messages: seq<Message>, last: Message)
    requires InOrder(messages) && forall x :: x in messages ==> x.order <= last.order
    ensures InOrder(messages + [last])
  {
    forall i, j | 0 <= i < j < |messages + [last]|
      ensures (messages + [last])[i].order <= (messages + [last])[j].order
    {
      assert (messages + [last])[i] in messages;
    }
  }

  lemma {:induction false} InsertKeeps(messages: seq<Message>, message: Message)
    requires InOrder(messages)
    ensures InOrder(Insert(messages, message))
  {
    if messages == [] || messages[|messages| - 1].order <= message.order {
      InOrderAdds(messages, message);
    } else {
      var first, last := messages[..|messages| - 1], messages[|messages| - 1];
      assert InOrder(first) && forall x :: x in first ==> x.order <= last.order;
      hide InOrder;
      InsertKeeps(first, message);
      InsertAmong(first, message);
      forall x | x in Insert(first, message)
        ensures x.order <= last.order
      {
        assert x in multiset(first) + multiset{message};
      }
      InOrderAdds(Insert(first, message), last);
    }
  }

  lemma NothingSorted()
    ensures Sort([]) == [] && InOrder([])
  {
  }

  lemma {:induction false} SortKeeps(messages: seq<Message>)
    ensures InOrder(Sort(messages)) && |Sort(messages)| == |messages|
    ensures multiset(Sort(messages)) == multiset(messages)
  {
    hide InOrder, Insert;
    if messages == [] {
      NothingSorted();
    } else {
      var first, last := messages[..|messages| - 1], messages[|messages| - 1];
      SortKeeps(first);
      InsertKeeps(Sort(first), last);
      InsertAmong(Sort(first), last);
      assert messages == first + [last];
      assert multiset(messages) == multiset(first) + multiset{last};
    }
  }

  /** A page over its limit keeps the newest messages, in order. */
  lemma TrimKeepsNewest(messages: seq<Message>, most: nat) returns (dropped: seq<Message>)
    requires most > 0
    ensures InOrder(Trim(messages, most)) && |Trim(messages, most)| == if |messages| > most then most else |messages|
    ensures multiset(dropped) + multiset(Trim(messages, most)) == multiset(messages)
    ensures forall x, y :: x in dropped && y in Trim(messages, most) ==> x.order <= y.order
  {
    SortKeeps(messages);
    hide Sort;
    var sorted, cut := Sort(messages), if |messages| > most then |messages| - most else 0;
    dropped := sorted[..cut];
    assert Trim(messages, most) == sorted[cut..] && sorted == sorted[..cut] + sorted[cut..];
    hide Trim;
    SplitInOrder(sorted, cut);
  }

  lemma SplitInOrder(messages: seq<Message>, cut: nat)
    requires InOrder(messages) && cut <= |messages|
    ensures InOrder(messages[cut..])
    ensures forall x, y :: x in messages[..cut] && y in messages[cut..] ==> x.order <= y.order
  {}

  /** A late event leaves one copy of its message, the new one, in a page that
      stays in order and is otherwise unchanged. */
  lemma UpsertKeeps(messages: seq<Message>, message: Message)
    ensures InOrder(Upsert(messages, message))
    ensures multiset(Upsert(messages, message)) == multiset(Delete(messages, message.id)) + multiset{message}
    ensures forall x :: x in Upsert(messages, message) <==> x == message || (x in messages && x.id != message.id)
  {
    var rest := Delete(messages, message.id);
    SortKeeps(rest + [message]);
    DeleteAmong(messages, message.id);
    forall x
      ensures x in Upsert(messages, message) <==> x == message || (x in messages && x.id != message.id)
    {
      assert x in Upsert(messages, message) <==> x in multiset(rest + [message]);
    }
  }

  lemma {:induction false} DeleteAmong(messages: seq<Message>, id: string)
    ensures forall x :: x in Delete(messages, id) <==> x in messages && x.id != id
  {
    if messages != [] {
      DeleteAmong(messages[1..], id);
      assert messages == [messages[0]] + messages[1..];
    }
  }

  /** Sorting leaves messages with the same order as they arrived. */
  lemma {:induction false} SortIsStable(messages: seq<Message>, order: int)
    ensures OfOrder(Sort(messages), order) == OfOrder(messages, order)
  {
    if messages != [] {
      var first, last := messages[..|messages| - 1], messages[|messages| - 1];
      SortIsStable(first, order);
      SortKeeps(first);
      hide InOrder;
      InsertIsStable(Sort(first), last, order);
    }
  }

  lemma {:induction false} InsertIsStable(messages: seq<Message>, message: Message, order: int)
    requires InOrder(messages)
    ensures OfOrder(Insert(messages, message), order) == OfOrder(messages + [message], order)
  {
    assert (messages + [message])[..|messages|] == messages;
    if messages != [] && messages[|messages| - 1].order > message.order {
      var first, last := messages[..|messages| - 1], messages[|messages| - 1];
      InsertIsStable(first, message, order);
      InsertAmong(first, message);
      assert (Insert(first, message) + [last])[..|first| + 1] == Insert(first, message);
      assert (first + [message])[..|first|] == first;
      if last.order == order {
        assert OfOrder(first + [message], order) == OfOrder(first, order);
      }
    }
  }

  ghost function OfOrder(messages: seq<Message>, order: int): seq<Message> {
    if messages == [] then []
    else
      var rest, last := OfOrder(messages[..|messages| - 1], order), messages[|messages| - 1];
      if last.order == order then rest + [last] else rest
  }

  // ----- the messages a replay ends with -----

  /** The `k`th event is a message past every checkpoint of its run so far. */
  ghost predicate Fresh(load: Load, k: int) {
    0 <= k < |load.events| && load.events[k].Created? &&
      var message, cursors := load.events[k].message, Replayed(load, k).cursors;
      message.run.Some? && message.through.Some? && Reached(cursors, message.run.value).Some? ==>
        message.through.value > Reached(cursors, message.run.value).value
  }

  /** The `k`th event puts its message on the page: nothing older was left
      unloaded, or the page starts no later than it. */
  ghost predicate Admits(load: Load, k: int) {
    Fresh(load, k) && (!load.page.hasMore || load.page.messages == []
                       || load.page.messages[0].order <= load.events[k].message.order)
  }

  /** A message of this id was loaded, or put on the page by one of `n` events. */
  ghost predicate OnPage(load: Load, n: nat, id: string) {
    || (exists m :: m in load.page.messages && m.id == id)
    || (exists j :: 0 <= j < n && Admits(load, j) && load.events[j].message.id == id)
  }

  /** The `k`th event is taken for the page's message of this id. */
  ghost predicate Takes(load: Load, k: int, id: string) {
    Fresh(load, k) && load.events[k].message.id == id && OnPage(load, k + 1, id)
  }

  ghost predicate LastTaken(load: Load, n: nat, message: Message) {
    exists k :: 0 <= k < n && Takes(load, k, message.id) && load.events[k].message == message
      && forall j :: k < j < n ==> !Takes(load, j, message.id)
  }

  /** No later message has this one's id. */
  ghost predicate IsLast(messages: seq<Message>, message: Message) {
    exists i :: 0 <= i < |messages| && messages[i] == message
                && forall j :: i < j < |messages| ==> messages[j].id != message.id
  }

  ghost predicate StillLoaded(load: Load, n: nat, message: Message) {
    IsLast(load.page.messages, message) && forall j :: 0 <= j < n ==> !Takes(load, j, message.id)
  }

  lemma IsLastAdds(first: seq<Message>, last: Message, message: Message)
    ensures IsLast(first + [last], message) <==> message == last || (IsLast(first, message) && message.id != last.id)
  {
    var messages := first + [last];
    assert messages[|first|] == last;
    if IsLast(first, message) && message.id != last.id {
      var i :| 0 <= i < |first| && first[i] == message && forall j :: i < j < |first| ==> first[j].id != message.id;
      assert messages[i] == message;
    }
    if IsLast(messages, message) && message != last {
      var i :| 0 <= i < |messages| && messages[i] == message
               && forall j :: i < j < |messages| ==> messages[j].id != message.id;
      assert first[i] == message && forall j :: i < j < |first| ==> first[j] == messages[j];
    }
  }

  /** Loading the page keeps the last message of every id. */
  lemma {:induction false} IndexedHolds(messages: seq<Message>)
    ensures Distinct(Indexed(messages)) && forall m :: m in Indexed(messages) <==> IsLast(messages, m)
  {
    if messages != [] {
      hide Put, Distinct, IsLast;
      var first, last := messages[..|messages| - 1], messages[|messages| - 1];
      assert messages == first + [last];
      IndexedHolds(first);
      PutHolds(Indexed(first), last);
      forall m
        ensures m in Indexed(messages) <==> IsLast(messages, m)
      {
        IsLastAdds(first, last, m);
      }
    }
  }

  lemma {:induction false} PutHolds(messages: seq<Message>, message: Message)
    requires Distinct(messages)
    ensures Distinct(Put(messages, message))
    ensures forall m :: m in Put(messages, message) <==> m == message || (m in messages && m.id != message.id)
  {
    if messages != [] {
      var rest := messages[1..];
      assert messages == [messages[0]] + rest;
      PutHolds(rest, message);
      if messages[0].id != message.id {
        var put := Put(rest, message);
        forall j | 0 <= j < |put|
          ensures put[j].id != messages[0].id
        {
          assert put[j] in put;
        }
      }
    }
  }

  lemma TakenNext(load: Load, k: nat, message: Message)
    requires k < |load.events|
    ensures LastTaken(load, k + 1, message)
      <==> if Takes(load, k, message.id) then load.events[k].message == message else LastTaken(load, k, message)
    ensures StillLoaded(load, k + 1, message) <==> StillLoaded(load, k, message) && !Takes(load, k, message.id)
  {
    hide Takes, IsLast;
  }

  lemma OnPageNext(load: Load, k: nat, id: string)
    requires k < |load.events|
    ensures OnPage(load, k + 1, id) <==> OnPage(load, k, id) || (Admits(load, k) && load.events[k].message.id == id)
  {
    hide Replayed, Reached;
  }

  lemma ReplayedNext(load: Load, k: nat)
    requires k < |load.events|
    ensures Replayed(load, k + 1) == Step(Replayed(load, k), load.events[k], load.page, load.active)
  {
    assert load.events[..k + 1][..k] == load.events[..k];
  }

  lemma DeleteHolds(messages: seq<Message>, message: Message)
    requires Distinct(messages)
    ensures Distinct(Delete(messages, message.id) + [message])
    ensures forall m :: m in Delete(messages, message.id) + [message]
                        <==> m == message || (m in messages && m.id != message.id)
  {
    DeleteAmong(messages, message.id);
    DeleteDistinct(messages, message.id);
    var rest := Delete(messages, message.id);
    forall i, j | 0 <= i < j < |rest + [message]|
      ensures (rest + [message])[i].id != (rest + [message])[j].id
    {
      assert rest[i] in rest;
    }
  }

  lemma {:induction false} DeleteDistinct(messages: seq<Message>, id: string)
    requires Distinct(messages)
    ensures Distinct(Delete(messages, id))
  {
    if messages != [] {
      var rest := Delete(messages[1..], id);
      DeleteDistinct(messages[1..], id);
      DeleteAmong(messages[1..], id);
      forall j | 0 <= j < |rest|
        ensures rest[j].id != messages[0].id
      {
        assert rest[j] in messages[1..];
      }
    }
  }

  lemma FindIn(messages: seq<Message>, id: string)
    ensures Find(messages, id).Some? <==> exists m :: m in messages && m.id == id
  {
    FindAmong(messages, id);
  }

  /** One event more takes its message, and no other, or leaves the page alone. */
  lemma MessageTaken(load: Load, k: nat)
    requires k < |load.events|
    requires forall id :: Find(Replayed(load, k).messages, id).Some? <==> OnPage(load, k, id)
    ensures
      var before, after := Replayed(load, k).messages, Replayed(load, k + 1).messages;
      if exists id :: Takes(load, k, id) then
        load.events[k].Created? && Takes(load, k, load.events[k].message.id)
        && after == Delete(before, load.events[k].message.id) + [load.events[k].message]
      else after == before
  {
    hide OnPage, Find, Delete, Recorded, Reached, Replayed;
    ReplayedNext(load, k);
    if load.events[k].Created? {
      var id := load.events[k].message.id;
      OnPageNext(load, k, id);
      assert Takes(load, k, id) <==> Fresh(load, k) && (OnPage(load, k, id) || Admits(load, k));
    }
  }

  /** After any events every message that is held is the last one taken of its
      id, or the one loaded when none was taken; and every such one is held. */
  lemma {:induction false} ReplayHolds(load: Load, n: nat)
    requires n <= |load.events|
    ensures Distinct(Replayed(load, n).messages)
    ensures forall m :: m in Replayed(load, n).messages <==> LastTaken(load, n, m) || StillLoaded(load, n, m)
    ensures forall id :: Find(Replayed(load, n).messages, id).Some? <==> OnPage(load, n, id)
    decreases n
  {
    if n == 0 {
      HoldsAtStart(load);
    } else {
      ReplayHolds(load, n - 1);
      var k, before, after := n - 1, Replayed(load, n - 1).messages, Replayed(load, n).messages;
      MessageTaken(load, k);
      hide Distinct, Find, Replayed, OnPage, LastTaken, StillLoaded;
      if exists id :: Takes(load, k, id) {
        DeleteHolds(before, load.events[k].message);
      }
      forall m
        ensures m in after <==> LastTaken(load, n, m) || StillLoaded(load, n, m)
      {
        TakenNext(load, k, m);
      }
      forall id
        ensures Find(after, id).Some? <==> OnPage(load, n, id)
      {
        OnPageNext(load, k, id);
        FindIn(before, id);
        FindIn(after, id);
      }
    }
  }

  lemma {:induction false} IndexedFinds(messages: seq<Message>, id: string)
    ensures Find(Indexed(messages), id).Some? <==> exists m :: m in messages && m.id == id
  {
    if messages != [] {
      var first, last := messages[..|messages| - 1], messages[|messages| - 1];
      assert messages == first + [last];
      IndexedFinds(first, id);
      PutFinds(Indexed(first), last, id);
    }
  }

  lemma HoldsAtStart(load: Load)
    ensures Distinct(Replayed(load, 0).messages)
    ensures forall m :: m in Replayed(load, 0).messages <==> LastTaken(load, 0, m) || StillLoaded(load, 0, m)
    ensures forall id :: Find(Replayed(load, 0).messages, id).Some? <==> OnPage(load, 0, id)
  {
    hide Indexed, Distinct, Find, Admits, Fresh, Takes, IsLast, RecordedAll;
    assert Replayed(load, 0).messages == Indexed(load.page.messages);
    IndexedHolds(load.page.messages);
    forall id
      ensures Find(Indexed(load.page.messages), id).Some? <==> OnPage(load, 0, id)
    {
      IndexedFinds(load.page.messages, id);
    }
  }

  lemma {:induction false} SortDistinct(messages: seq<Message>)
    requires Distinct(messages)
    ensures Distinct(Sort(messages))
  {
    if messages != [] {
      var first, last := messages[..|messages| - 1], messages[|messages| - 1];
      SortDistinct(first);
      SortKeeps(first);
      hide InOrder;
      forall m | m in Sort(first)
        ensures m.id != last.id
      {
        assert m in multiset(first);
      }
      InsertDistinct(Sort(first), last);
    }
  }

  lemma {:induction false} InsertDistinct(messages: seq<Message>, message: Message)
    requires Distinct(messages) && forall m :: m in messages ==> m.id != message.id
    ensures Distinct(Insert(messages, message))
  {
    if messages != [] && messages[|messages| - 1].order > message.order {
      var first, last := messages[..|messages| - 1], messages[|messages| - 1];
      var rest := Insert(first, message);
      InsertDistinct(first, message);
      InsertAmong(first, message);
      forall i | 0 <= i < |rest|
        ensures rest[i].id != last.id
      {
        assert rest[i] in multiset(first) + multiset{message};
      }
    }
  }

  /** The page that a replay keeps is in order, holds each id once, and holds
      only the last message taken of an id, or the loaded one when none was
      taken; of these it leaves out none but the oldest, and only when full. */
  lemma ReplayKeeps(load: Load, most: nat)
    ensures
      var n, kept := |load.events|, Trim(Replayed(load, |load.events|).messages, most);
      && InOrder(kept) && Distinct(kept)
      && (forall m :: m in kept ==> LastTaken(load, n, m) || StillLoaded(load, n, m))
      && (forall m :: LastTaken(load, n, m) || StillLoaded(load, n, m) ==>
        m in kept || (0 < most == |kept| && forall y :: y in kept ==> m.order <= y.order))
  {
    hide Replayed, LastTaken, StillLoaded, Sort;
    var messages := Replayed(load, |load.events|).messages;
    ReplayHolds(load, |load.events|);
    SortKeeps(messages);
    SortDistinct(messages);
    assert forall m :: m in messages <==> m in multiset(messages);
    assert forall m :: m in Sort(messages) <==> m in multiset(Sort(messages));
    if |messages| > most > 0 {
      var dropped := TrimKeepsNewest(messages, most);
      var kept := Trim(messages, most);
      forall m
        ensures m in messages <==> m in dropped || m in kept
      {
        assert m in multiset(messages) <==> m in multiset(dropped) + multiset(kept);
      }
    }
  }

  /** A message that is taken clears the live text exactly when it is an
      assistant's and names a run; one that is not taken leaves it. */
  lemma TextAfter(load: Load, k: nat)
    requires k < |load.events| && load.events[k].Created?
    ensures
      var message := load.events[k].message;
      Replayed(load, k + 1).text ==
      if Takes(load, k, message.id) && message.assistant && message.run.Some? && message.run.value != "" then ""
      else Replayed(load, k).text
  {
    ReplayHolds(load, k);
    hide OnPage, Find, Delete, Recorded, Reached, Replayed, Distinct, LastTaken, StillLoaded;
    ReplayedNext(load, k);
    OnPageNext(load, k, load.events[k].message.id);
  }
}
