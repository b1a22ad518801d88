/** The fence that stops commands to a terminal whose owner is unverified. */
module CommandFence {
  import opened Basics

  /** A terminal as a runtime reports it. */
  datatype Terminal = Terminal(id: string, running: bool, reattached: bool, reserved: bool)

  datatype Event =
    | Connected(instance: Option<string>, terminals: Option<seq<Terminal>>)
    | Reattached(subject: string, source: Option<string>, terminal: Terminal)
    | AuditFailed(failed: Option<string>, reporter: Option<string>)
    | OtherEvent

  datatype Message = Input(terminalId: string) | Resize(terminalId: string) | OtherMessage

  /** A fenced terminal and the runtime that reported it unverified, if known. */
  datatype Entry = Entry(id: string, owner: Option<string>)

  /** The fences, oldest first, and the runtime connected last. */
  datatype State = State(unknown: seq<Entry>, runtime: Option<string>)

  const LIMIT := 256

  predicate Named(name: Option<string>) { name.Some? && name.value != "" }

  // ----- the map of fences -----

  predicate Has(unknown: seq<Entry>, id: string) {
    exists i :: 0 <= i < |unknown| && unknown[i].id == id
  }

  function Remove(unknown: seq<Entry>, id: string): seq<Entry> {
    if unknown == [] then []
    else if unknown[0].id == id then unknown[1..]
    else [unknown[0]] + Remove(unknown[1..], id)
  }

  function Owner(unknown: seq<Entry>, id: string): Option<string> {
    if unknown == [] then None
    else if unknown[0].id == id then unknown[0].owner
    else Owner(unknown[1..], id)
  }

  function Owned(unknown: seq<Entry>, instance: string): (r: seq<Entry>)
    ensures |r| == |unknown|
    ensures forall i :: 0 <= i < |r| ==>
      r[i] == if unknown[i].owner.None? then Entry(unknown[i].id, Some(instance)) else unknown[i]
  {
    seq(|unknown|, i requires 0 <= i < |unknown| =>
      if unknown[i].owner.None? then Entry(unknown[i].id, Some(instance)) else unknown[i])
  }

  ghost predicate Distinct(unknown: seq<Entry>) {
    forall i, j :: 0 <= i < j < |unknown| ==> unknown[i].id != unknown[j].id
  }

  // ----- what each event does -----

  /** A report that verifies a live process again. */
  predicate Verified(terminal: Terminal) {
    terminal.running && terminal.reattached && !terminal.reserved
  }

  predicate Lifts(unknown: seq<Entry>, instance: string, terminal: Terminal) {
    Verified(terminal) && Has(unknown, terminal.id) && Owner(unknown, terminal.id) !in [None, Some(instance)]
  }

  function ReleaseAll(unknown: seq<Entry>, instance: string, terminals: seq<Terminal>): seq<Entry> {
    if terminals == [] then unknown
    else
      var rest := ReleaseAll(unknown, instance, terminals[..|terminals| - 1]);
      var last := terminals[|terminals| - 1];
      if Lifts(rest, instance, last) then Remove(rest, last.id) else rest
  }

  /** Some report in the list lifts a fence when its turn comes. */
  ghost predicate Lifted(unknown: seq<Entry>, instance: Option<string>, terminals: Option<seq<Terminal>>) {
    && Named(instance) && terminals.Some?
    && exists i :: 0 <= i < |terminals.value| && LiftsAt(unknown, instance.value, terminals.value, i)
  }

  ghost predicate LiftsAt(unknown: seq<Entry>, instance: string, terminals: seq<Terminal>, i: nat)
    requires i < |terminals|
  {
    Lifts(ReleaseAll(unknown, instance, terminals[..i]), instance, terminals[i])
  }

  function Released(unknown: seq<Entry>, instance: Option<string>, terminals: Option<seq<Terminal>>): seq<Entry> {
    if Named(instance) && terminals.Some? then ReleaseAll(unknown, instance.value, terminals.value) else unknown
  }

  function Fenced(s: State, id: string, reporter: Option<string>): State {
    var added := Remove(s.unknown, id) + [Entry(id, if Named(reporter) then reporter else s.runtime)];
    s.(unknown := if |added| > LIMIT then added[1..] else added)
  }

  function Step(s: State, event: Event): State {
    match event
    case Connected(instance, terminals) =>
      if Named(instance) then State(Released(Owned(s.unknown, instance.value), instance, terminals), instance) else s
    case Reattached(id, instance, terminal) =>
      if terminal.id == id then s.(unknown := Released(s.unknown, instance, Some([terminal]))) else s
    case AuditFailed(id, reporter) => if id.Some? then Fenced(s, id.value, reporter) else s
    case OtherEvent => s
  }

  function Run(s: State, events: seq<Event>): State {
    if events == [] then s else Step(Run(s, events[..|events| - 1]), events[|events| - 1])
  }

  predicate Allows(s: State, message: Message) {
    message == OtherMessage || !Has(s.unknown, message.terminalId)
  }

  const START := State([], None)

  // ----- the fence as the page runs it -----

  class Fence {
    var unknown: seq<Entry>
    var runtime: Option<string>

    ghost function Now(): State
      reads this
    {
      State(unknown, runtime)
    }

    constructor ()
      ensures Now() == START
    {
      unknown, runtime := [], None;
    }

    method Observe(event: Event) returns (changed: bool)
      modifies this
      ensures Now() == Step(old(Now()), event)
    {
      match event
      case Connected(instance, terminals) => changed := Connect(instance, terminals);
      case Reattached(id, instance, terminal) =>
        if terminal.id != id { return false; }
        changed := Release(instance, Some([terminal]));
      case AuditFailed(id, reporter) =>
        if id.None? { return false; }
        unknown := Remove(unknown, id.value);
        unknown := unknown + [Entry(id.value, if Named(reporter) then reporter else runtime)];
        if |unknown| > LIMIT {
          unknown := unknown[1..];
        }
        changed := true;
      case OtherEvent => changed := false;
    }

    method Connect(instance: Option<string>, terminals: Option<seq<Terminal>>) returns (changed: bool)
      modifies this
      ensures Now() == Step(old(Now()), Connected(instance, terminals))
    {
      if !Named(instance) { return false; }
      runtime := instance;
      var index := 0;
      while index < |unknown|
        invariant 0 <= index <= |unknown| == |old(unknown)| && runtime == instance
        invariant forall k :: 0 <= k < index ==> unknown[k] == Owned(old(unknown), instance.value)[k]
        invariant forall k :: index <= k < |unknown| ==> unknown[k] == old(unknown)[k]
      {
        if unknown[index].owner.None? {
          unknown := unknown[index := Entry(unknown[index].id, instance)];
        }
        index := index + 1;
      }
      assert unknown == Owned(old(unknown), instance.value);
      changed := Release(instance, terminals);
    }

    method Release(instance: Option<string>, terminals: Option<seq<Terminal>>) returns (released: bool)
      modifies this`unknown
      ensures unknown == Released(old(unknown), instance, terminals)
      ensures released <==> Lifted(old(unknown), instance, terminals)
    {
      released := false;
      if !Named(instance) || terminals.None? { return; }
      var all := terminals.value;
      for i := 0 to |all|
        invariant unknown == ReleaseAll(old(unknown), instance.value, all[..i])
        invariant released <==> exists k :: 0 <= k < i && LiftsAt(old(unknown), instance.value, all, k)
      {
        assert all[..i + 1][..i] == all[..i];
        assert LiftsAt(old(unknown), instance.value, all, i) == Lifts(unknown, instance.value, all[i]);
        if Lifts(unknown, instance.value, all[i]) {
          unknown := Remove(unknown, all[i].id);
          released := true;
        }
      }
      assert all[..|all|] == all;
    }

    /** Whether a message may be sent: the only ones that are stopped are input
        to, and a resize of, a fenced terminal. */
    method Check(message: Message) returns (allowed: bool)
      ensures message.OtherMessage? ==> allowed
      ensures !message.OtherMessage? ==>
        (allowed <==> forall i :: 0 <= i < |unknown| ==> unknown[i].id != message.terminalId)
    {
      allowed := message == OtherMessage || !Has(unknown, message.terminalId);
    }
  }

  // ----- one terminal's fence, on its own -----

  /** What the reports say about one terminal: whether it is fenced, and by whom. */
  datatype One = Clear | Held(owner: Option<string>)

  /** Some report in the list says that this terminal runs, reattached and not
      reserved for a recovery. */
  ghost predicate Someone(terminals: seq<Terminal>, id: string) {
    exists t :: t in terminals && t.id == id && t.running && t.reattached && !t.reserved
  }

  /** The runtime an event says is running this terminal, verified. */
  ghost predicate Reports(event: Event, id: string, instance: string) {
    || (event.Reattached? && event.source == Some(instance) && event.subject == id
        && event.terminal.id == id && instance != ""
        && event.terminal.running && event.terminal.reattached && !event.terminal.reserved)
    || (event.Connected? && event.instance == Some(instance) && event.terminals.Some? && instance != ""
        && Someone(event.terminals.value, id))
  }

  /** The runtime the page connected to last. */
  function LastRuntime(events: seq<Event>): Option<string> {
    if events == [] then None
    else
      var last := events[|events| - 1];
      if last.Connected? && last.instance.Some? && last.instance.value != "" then last.instance
      else LastRuntime(events[..|events| - 1])
  }

  /** An audit failure fences a terminal for the runtime that reported it. A
      connection claims a fence that has no owner. A verified report from any
      other runtime lifts it, and nothing else does. */
  ghost function OneStep(one: One, event: Event, id: string, runtime: Option<string>): One {
    if event.AuditFailed? && event.failed == Some(id) then
      Held(if event.reporter.Some? && event.reporter.value != "" then event.reporter else runtime)
    else if one.Clear? then Clear
    else
      var claims := event.Connected? && event.instance.Some? && event.instance.value != "";
      var owner := if one.owner.None? && claims then event.instance else one.owner;
      if owner.Some? && exists instance :: instance != owner.value && Reports(event, id, instance) then Clear
      else Held(owner)
  }

  ghost function OneRun(events: seq<Event>, id: string): One {
    if events == [] then Clear
    else
      var before := events[..|events| - 1];
      OneStep(OneRun(before, id), events[|events| - 1], id, LastRuntime(before))
  }

  /** The other terminals that failed an audit after this one last did. */
  ghost function Newer(events: seq<Event>, id: string): set<string> {
    if events == [] then {}
    else
      var before := Newer(events[..|events| - 1], id);
      var last := events[|events| - 1];
      if !last.AuditFailed? || last.failed.None? then before
      else if last.failed == Some(id) then {}
      else before + {last.failed.value}
  }

  // ----- every run -----

  ghost predicate Valid(s: State) {
    && Distinct(s.unknown) && |s.unknown| <= 256
    && (s.runtime.Some? ==> forall e :: e in s.unknown ==> e.owner.Some?)
    && (s.runtime.Some? ==> s.runtime.value != "")
  }

  /** The terminals fenced after this one. */
  ghost function Behind(unknown: seq<Entry>, id: string): set<string> {
    if unknown == [] then {}
    else if unknown[0].id == id then Ids(unknown[1..])
    else Behind(unknown[1..], id)
  }

  ghost function Ids(unknown: seq<Entry>): set<string> {
    set e | e in unknown :: e.id
  }

  /** Terminal `id` in the map is what the reports about it say, unless 256
      other terminals were fenced after it. */
  ghost predicate Follows(unknown: seq<Entry>, id: string, one: One, newer: set<string>) {
    && (Has(unknown, id) ==> one == Held(Owner(unknown, id)) && Behind(unknown, id) <= newer)
    && (one.Held? && !Has(unknown, id) ==> |newer| >= 256)
  }

  lemma {:induction false} RemoveKeeps(unknown: seq<Entry>, id: string)
    requires Distinct(unknown)
    ensures Distinct(Remove(unknown, id)) && !Has(Remove(unknown, id), id)
    ensures |Remove(unknown, id)| <= |unknown|
    ensures forall e :: e in Remove(unknown, id) ==> e in unknown
  {
    if unknown != [] && unknown[0].id != id {
      RemoveKeeps(unknown[1..], id);
      var rest := Remove(unknown[1..], id);
      forall i, j | 0 <= i < j < |[unknown[0]] + rest|
        ensures ([unknown[0]] + rest)[i].id != ([unknown[0]] + rest)[j].id
      {
        assert rest[j - 1] in unknown[1..];
        if i > 0 {
          assert rest[i - 1].id != rest[j - 1].id;
        }
      }
    }
  }

  /** Lifting one terminal's fence leaves every other as it was. */
  lemma {:induction false} RemoveOther(unknown: seq<Entry>, id: string, other: string)
    requires id != other
    ensures Has(Remove(unknown, id), other) == Has(unknown, other)
    ensures Owner(Remove(unknown, id), other) == Owner(unknown, other)
    ensures Behind(Remove(unknown, id), other) <= Behind(unknown, other)
  {
    if unknown != [] {
      var rest := unknown[1..];
      HasHead(unknown, other);
      if unknown[0].id != id {
        RemoveOther(rest, id, other);
        HasHead([unknown[0]] + Remove(rest, id), other);
        RemoveSubset(rest, id);
      }
    }
  }

  lemma {:induction false} RemoveSubset(unknown: seq<Entry>, id: string)
    ensures forall e :: e in Remove(unknown, id) ==> e in unknown
    ensures Ids(Remove(unknown, id)) <= Ids(unknown)
  {
    if unknown != [] && unknown[0].id != id {
      RemoveSubset(unknown[1..], id);
    }
  }

  lemma HasHead(unknown: seq<Entry>, id: string)
    requires unknown != []
    ensures Has(unknown, id) <==> unknown[0].id == id || Has(unknown[1..], id)
  {
    if Has(unknown[1..], id) {
      var i :| 0 <= i < |unknown[1..]| && unknown[1..][i].id == id;
      assert unknown[i + 1].id == id;
    }
    if Has(unknown, id) && unknown[0].id != id {
      var i :| 0 <= i < |unknown| && unknown[i].id == id;
      assert unknown[1..][i - 1].id == id;
    }
  }

  /** A new fence goes behind every other. */
  lemma NoIds()
    ensures Ids([]) == {}
  {}

  lemma IdsAdd(unknown: seq<Entry>, entry: Entry)
    ensures Ids(unknown + [entry]) == Ids(unknown) + {entry.id}
  {}

  lemma {:induction false} AddKeeps(unknown: seq<Entry>, entry: Entry, id: string)
    ensures Has(unknown + [entry], id) <==> Has(unknown, id) || entry.id == id
    ensures Has(unknown, id) ==> Owner(unknown + [entry], id) == Owner(unknown, id)
    ensures Has(unknown, id) ==> Behind(unknown + [entry], id) == Behind(unknown, id) + {entry.id}
    ensures !Has(unknown, id) && entry.id == id ==> Owner(unknown + [entry], id) == entry.owner
    ensures !Has(unknown, id) && entry.id == id ==> Behind(unknown + [entry], id) == {}
  {
    hide Ids;
    if unknown == [] {
      NoIds();
      assert unknown + [entry] == [entry];
      assert [entry][0].id == entry.id;
    } else {
      IdsAdd(unknown[1..], entry);
      AddKeeps(unknown[1..], entry, id);
      HasHead(unknown, id);
      HasHead(unknown + [entry], id);
      assert (unknown + [entry])[1..] == unknown[1..] + [entry];
    }
  }

  lemma OwnedIds(unknown: seq<Entry>, instance: string)
    ensures Ids(Owned(unknown, instance)) == Ids(unknown)
  {
    var owned := Owned(unknown, instance);
    forall e | e in unknown
      ensures e.id in Ids(owned)
    {
      var i :| 0 <= i < |unknown| && unknown[i] == e;
      assert owned[i].id == e.id;
    }
    forall e | e in owned
      ensures e.id in Ids(unknown)
    {
      var i :| 0 <= i < |owned| && owned[i] == e;
      assert unknown[i].id == e.id;
    }
  }

  lemma {:induction false} OwnedKeeps(unknown: seq<Entry>, instance: string, id: string)
    ensures Has(Owned(unknown, instance), id) == Has(unknown, id)
    ensures Has(unknown, id) ==>
      Owner(Owned(unknown, instance), id) == if Owner(unknown, id).None? then Some(instance) else Owner(unknown, id)
    ensures Behind(Owned(unknown, instance), id) == Behind(unknown, id)
  {
    hide Ids;
    if unknown != [] {
      var owned := Owned(unknown, instance);
      assert owned[1..] == Owned(unknown[1..], instance);
      OwnedKeeps(unknown[1..], instance, id);
      OwnedIds(unknown[1..], instance);
      HasHead(unknown, id);
      HasHead(owned, id);
    }
  }

  /** A list of reports lifts exactly the fences of other runtimes that it verifies. */
  lemma {:induction false} ReleaseLifts(unknown: seq<Entry>, instance: string, terminals: seq<Terminal>, id: string)
    requires Distinct(unknown)
    ensures Distinct(ReleaseAll(unknown, instance, terminals))
    ensures |ReleaseAll(unknown, instance, terminals)| <= |unknown|
    ensures forall e :: e in ReleaseAll(unknown, instance, terminals) ==> e in unknown
    ensures Has(ReleaseAll(unknown, instance, terminals), id) <==>
      Has(unknown, id) && (Owner(unknown, id) in [None, Some(instance)] || !Someone(terminals, id))
    ensures Has(ReleaseAll(unknown, instance, terminals), id) ==>
      && Owner(ReleaseAll(unknown, instance, terminals), id) == Owner(unknown, id)
      && Behind(ReleaseAll(unknown, instance, terminals), id) <= Behind(unknown, id)
  {
    if terminals != [] {
      var first, last := terminals[..|terminals| - 1], terminals[|terminals| - 1];
      ReleaseLifts(unknown, instance, first, id);
      assert terminals == first + [last];
      assert Someone(terminals, id) <==> Someone(first, id) || (last.id == id && Verified(last));
      var rest := ReleaseAll(unknown, instance, first);
      if Lifts(rest, instance, last) {
        RemoveKeeps(rest, last.id);
        if last.id != id {
          RemoveOther(rest, last.id, id);
        }
      }
    }
  }

  lemma {:induction false} BehindCount(unknown: seq<Entry>)
    requires Distinct(unknown)
    ensures |Ids(unknown)| == |unknown|
  {
    if unknown != [] {
      BehindCount(unknown[1..]);
      assert Ids(unknown) == Ids(unknown[1..]) + {unknown[0].id};
      assert unknown[0].id !in Ids(unknown[1..]);
    }
  }

  /** The failed terminal is put last, with whoever reported it. */
  lemma AddedFollows(s: State, entry: Entry, id: string, one: One, newer: set<string>)
    requires Valid(s) && Follows(s.unknown, id, one, newer)
    ensures
      var added := Remove(s.unknown, entry.id) + [entry];
      && Distinct(added) && |added| <= 257 && (forall e :: e in added ==> e == entry || e in s.unknown)
      && Follows(added, id, if entry.id == id then Held(entry.owner) else one,
                 if entry.id == id then {} else newer + {entry.id})
  {
    var rest := Remove(s.unknown, entry.id);
    RemoveKeeps(s.unknown, entry.id);
    AddDistinct(rest, entry);
    hide Distinct, Remove, Has, Owner, Behind;
    AddKeeps(rest, entry, id);
    SubsetSize(newer, newer + {entry.id});
    if entry.id != id {
      RemoveOther(s.unknown, entry.id, id);
    }
  }

  lemma AuditFollows(s: State, failed: string, reporter: Option<string>, id: string, one: One, newer: set<string>)
    requires Valid(s) && Follows(s.unknown, id, one, newer)
    ensures Valid(Fenced(s, failed, reporter))
    ensures Follows(Fenced(s, failed, reporter).unknown, id,
                    if failed == id then Held(if Named(reporter) then reporter else s.runtime) else one,
                    if failed == id then {} else newer + {failed})
  {
    hide Remove, Has, Owner, Behind, Follows;
    var entry := Entry(failed, if Named(reporter) then reporter else s.runtime);
    var added := Remove(s.unknown, failed) + [entry];
    AddedFollows(s, entry, id, one, newer);
    OldestGoes(added, id, if failed == id then Held(entry.owner) else one,
      if failed == id then {} else newer + {failed});
    assert Fenced(s, failed, reporter) == s.(unknown := if |added| > 256 then added[1..] else added);
  }

  /** The oldest of too many fences is dropped, and only after 256 newer ones. */
  lemma OldestGoes(added: seq<Entry>, id: string, one: One, newer: set<string>)
    requires Distinct(added) && |added| <= 257 && Follows(added, id, one, newer)
    ensures Distinct(if |added| > 256 then added[1..] else added)
    ensures Follows(if |added| > 256 then added[1..] else added, id, one, newer)
  {
    if |added| > 256 {
      HasHead(added, id);
      BehindCount(added[1..]);
      if added[0].id == id {
        SubsetSize(Behind(added, id), newer);
        assert !Has(added[1..], id);
      }
    }
  }

  lemma AddDistinct(unknown: seq<Entry>, entry: Entry)
    requires Distinct(unknown) && !Has(unknown, entry.id)
    ensures Distinct(unknown + [entry])
  {
    var added := unknown + [entry];
    forall i, j | 0 <= i < j < |added|
      ensures added[i].id != added[j].id
    {
      assert added[i] == unknown[i];
    }
  }

  lemma ConnectFollows(s: State, event: Event, id: string, one: One, newer: set<string>)
    requires Valid(s) && Follows(s.unknown, id, one, newer) && event.Connected? && Named(event.instance)
    ensures Valid(Step(s, event)) && Follows(Step(s, event).unknown, id, OneStep(one, event, id, s.runtime), newer)
  {
    hide Has, Owner, Behind, ReleaseAll, Someone;
    var instance := event.instance.value;
    var owned := Owned(s.unknown, instance);
    OwnedKeeps(s.unknown, instance, id);
    if event.terminals.Some? {
      ReleaseLifts(owned, instance, event.terminals.value, id);
      assert Reports(event, id, instance) == Someone(event.terminals.value, id);
    }
  }

  lemma ReattachFollows(s: State, event: Event, id: string, one: One, newer: set<string>)
    requires Valid(s) && Follows(s.unknown, id, one, newer) && event.Reattached?
    ensures Valid(Step(s, event)) && Follows(Step(s, event).unknown, id, OneStep(one, event, id, s.runtime), newer)
  {
    if event.terminal.id == event.subject && Named(event.source) {
      ReleaseLifts(s.unknown, event.source.value, [event.terminal], id);
      assert event.terminal in [event.terminal];
      assert Reports(event, id, event.source.value) <==> Someone([event.terminal], id);
      assert Step(s, event).unknown == ReleaseAll(s.unknown, event.source.value, [event.terminal]);
      if Has(s.unknown, id) && !Has(Step(s, event).unknown, id) {
        assert one.owner.value != event.source.value && Reports(event, id, event.source.value);
        assert OneStep(one, event, id, s.runtime) == Clear;
      }
    }
  }

  lemma EventFollows(s: State, event: Event, id: string, one: One, newer: set<string>)
    requires Valid(s) && Follows(s.unknown, id, one, newer)
    ensures Valid(Step(s, event))
    ensures Follows(Step(s, event).unknown, id, OneStep(one, event, id, s.runtime),
      if !event.AuditFailed? || event.failed.None? then newer
      else if event.failed == Some(id) then {} else newer + {event.failed.value})
  {
    match event
    case AuditFailed(failed, reporter) =>
      if failed.Some? {
        AuditFollows(s, failed.value, reporter, id, one, newer);
      }
    case Connected(instance, terminals) =>
      if Named(instance) {
        ConnectFollows(s, event, id, one, newer);
      }
    case Reattached(_, _, _) => ReattachFollows(s, event, id, one, newer);
    case OtherEvent =>
  }

  /** In every run, each terminal in the map is fenced, and owned, as the reports
      about that terminal alone say. A terminal they say is fenced is missing
      from the map only if at least 256 others were fenced after it. */
  lemma {:induction false} EveryRun(events: seq<Event>, id: string)
    ensures Valid(Run(START, events)) && Run(START, events).runtime == LastRuntime(events)
    ensures Follows(Run(START, events).unknown, id, OneRun(events, id), Newer(events, id))
  {
    if events != [] {
      var before, event := events[..|events| - 1], events[|events| - 1];
      EveryRun(before, id);
      hide Follows, OneStep, Released, Owned, Fenced;
      EventFollows(Run(START, before), event, id, OneRun(before, id), Newer(before, id));
      StepRuntime(Run(START, before), event);
    }
  }

  lemma StepRuntime(s: State, event: Event)
    ensures Step(s, event).runtime == if event.Connected? && Named(event.instance) then event.instance else s.runtime
  {
  }

  /** While no more than 256 terminals are involved, the fence is exact. */
  lemma FenceIsExact(events: seq<Event>, id: string)
    requires |Newer(events, id)| < 256
    ensures Allows(Run(START, events), Input(id)) <==> OneRun(events, id).Clear?
    ensures Allows(Run(START, events), Resize(id)) <==> OneRun(events, id).Clear?
  {
    EveryRun(events, id);
  }

  /** A fence that has observed these events refuses exactly the input to, and
      the resize of, a terminal that its own reports leave fenced, while fewer
      than 256 others failed after it. */
  method AllowedAfter(events: seq<Event>, message: Message) returns (allowed: bool)
    ensures message == OtherMessage ==> allowed
    ensures message != OtherMessage && OneRun(events, message.terminalId).Clear? ==> allowed
    ensures message != OtherMessage && |Newer(events, message.terminalId)| < 256 ==>
      (allowed <==> OneRun(events, message.terminalId).Clear?)
  {
    var fence := new Fence();
    for i := 0 to |events|
      invariant fresh(fence) && fence.Now() == Run(START, events[..i])
    {
      assert events[..i + 1][..i] == events[..i];
      var _ := fence.Observe(events[i]);
    }
    assert events[..|events|] == events;
    allowed := fence.Check(message);
    hide Run;
    if message != OtherMessage {
      assert fence.Now().unknown == Run(START, events).unknown;
      EveryRun(events, message.terminalId);
    }
  }

  /** After any connection no fence lacks an owner. */
  lemma OwnedAfterConnection(events: seq<Event>, k: nat)
    requires k < |events| && events[k].Connected? && events[k].instance.Some? && events[k].instance.value != ""
    ensures forall e :: e in Run(START, events).unknown ==> e.owner.Some?
  {
    EveryRun(events, "");
    ConnectedOnce(events, k);
  }

  lemma {:induction false} ConnectedOnce(events: seq<Event>, k: nat)
    requires k < |events| && events[k].Connected? && events[k].instance.Some? && events[k].instance.value != ""
    ensures LastRuntime(events).Some?
  {
    var last := |events| - 1;
    if k < last {
      assert events[..last][k] == events[k];
      ConnectedOnce(events[..last], k);
    }
  }

  /** No event after the `from`th fences `id` again, or reports it verified by
      a runtime other than `owner`. */
  ghost predicate Untouched(events: seq<Event>, from: nat, id: string, owner: string) {
    forall k :: from <= k < |events| ==>
      && !(events[k].AuditFailed? && events[k].failed == Some(id))
      && forall instance :: Reports(events[k], id, instance) ==> instance == owner
  }

  lemma {:induction false} StaysHeld(events: seq<Event>, k: nat, id: string, owner: string)
    requires k < |events| && events[k].AuditFailed? && events[k].failed == Some(id)
    requires owner != ""
    requires Some(owner) ==
      if events[k].reporter.Some? && events[k].reporter.value != "" then events[k].reporter
      else LastRuntime(events[..k])
    requires Untouched(events, k + 1, id, owner)
    ensures OneRun(events, id) == Held(Some(owner))
  {
    var last := |events| - 1;
    if k < last {
      var before := events[..last];
      assert forall i :: 0 <= i < last ==> before[i] == events[i];
      assert before[..k] == events[..k];
      StaysHeld(before, k, id, owner);
    } else {
      assert events[..k] == events[..last];
    }
  }

  /** A fence set by a known runtime holds for as long as no other runtime
      verifies the terminal, whatever else happens. */
  lemma StaysFenced(events: seq<Event>, k: nat, id: string, owner: string)
    requires k < |events| && events[k].AuditFailed? && events[k].failed == Some(id)
    requires owner != ""
    requires Some(owner) ==
      if events[k].reporter.Some? && events[k].reporter.value != "" then events[k].reporter
      else LastRuntime(events[..k])
    requires Untouched(events, k + 1, id, owner)
    ensures OneRun(events, id) == Held(Some(owner))
    ensures |Newer(events, id)| < 256 ==>
      !Allows(Run(START, events), Input(id)) && !Allows(Run(START, events), Resize(id))
  {
    hide *;
    StaysHeld(events, k, id, owner);
    if |Newer(events, id)| < 256 {
      FenceIsExact(events, id);
    }
  }
}
