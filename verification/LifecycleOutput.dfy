/** The output of a worktree's setup or teardown, streamed to an open dialog. */
module LifecycleOutput {
  import opened Basics

  /** A run's state with the newest part of its output, up to `end`. */
  datatype State = State(path: string, run: string, output: Option<string>, end: Option<nat>, truncated: bool,
      step: int)

  datatype Chunk = Chunk(path: string, run: string, start: nat, text: Option<string>)

  datatype Update = Nothing | Reload | Next(state: State)

  const LIMIT := 32768

  function Output(s: State): string {
    if s.output.Some? then s.output.value else ""
  }

  function End(s: State): nat {
    if s.end.Some? then s.end.value else |Output(s)|
  }

  function Newest(text: string, most: nat): string {
    if |text| > most then text[|text| - most..] else text
  }

  function OutputUpdate(state: Option<State>, chunk: Chunk): Update {
    if state.None? || chunk.text.None? || chunk.path != state.value.path then Nothing
    else
      var s, text := state.value, chunk.text.value;
      var stop := chunk.start + |text|;
      if chunk.run != s.run then Reload
      else if stop <= End(s) then Nothing
      else if chunk.start > End(s) then Reload
      else
        var output := Output(s) + text[End(s) - chunk.start..];
        Next(s.(output := Some(Newest(output, LIMIT)), end := Some(stop), truncated := s.truncated || |output| > LIMIT))
  }

  function DetailUpdate(current: Option<State>, next: Option<State>): Option<State> {
    if current.None? || current.value.run == "" || next.None?
       || next.value.run != current.value.run || next.value.path != current.value.path
       || (if current.value.end.Some? then current.value.end.value else 0)
          <= (if next.value.end.Some? then next.value.end.value else 0)
    then next
    else
      var shown := current.value;
      Some(next.value.(output := shown.output, end := shown.end, truncated := shown.truncated))
  }

  // ----- what each run really wrote -----

  /** Everything every run has written. */
  type Written = map<(string, string), string>

  function Of(written: Written, path: string, run: string): string {
    if (path, run) in written then written[(path, run)] else ""
  }

  /** The state shows the newest 32,768 characters of its run's output up to its
      end, and says when that is not all of it. */
  ghost predicate Shows(written: Written, s: State) {
    var text := if (s.path, s.run) in written then written[(s.path, s.run)] else "";
    && s.end.Some? && s.end.value <= |text|
    && (if s.output.Some? then s.output.value else "") ==
       (if s.end.value <= 32768 then text[..s.end.value] else text[s.end.value - 32768..s.end.value])
    && (s.end.value > 32768 ==> s.truncated)
  }

  ghost predicate Reports(written: Written, chunk: Chunk) {
    var text := Of(written, chunk.path, chunk.run);
    chunk.text.Some? ==>
      && chunk.start + |chunk.text.value| <= |text|
      && text[chunk.start..chunk.start + |chunk.text.value|] == chunk.text.value
  }

  datatype Event = Wrote(chunk: Chunk) | Read(state: Option<State>)

  ghost predicate True(written: Written, event: Event) {
    match event
    case Wrote(chunk) => Reports(written, chunk)
    case Read(state) => state.Some? ==> Shows(written, state.value)
  }

  /** The dialog: what it shows, and whether it asked for another read. */
  function Take(shown: Option<State>, event: Event): Option<State> {
    match event
    case Wrote(chunk) =>
      var update := OutputUpdate(shown, chunk);
      if update.Next? then Some(update.state) else shown
    case Read(state) => DetailUpdate(shown, state)
  }

  function Run(events: seq<Event>): Option<State> {
    if events == [] then None else Take(Run(events[..|events| - 1]), events[|events| - 1])
  }

  lemma NewestJoin(text: string, more: string, most: nat)
    ensures Newest(Newest(text, most) + more, most) == Newest(text + more, most)
  {
    var left, right := Newest(Newest(text, most) + more, most), Newest(text + more, most);
    assert |left| == |right|;
    assert forall k :: 0 <= k < |left| ==> left[k] == right[k];
  }

  /** A streamed chunk adds exactly what was missing, wherever it overlaps, and
      changes nothing else; it adds nothing when all of it is known, and calls for
      a read when it is of another run or leaves a gap. */
  lemma ChunkExtends(written: Written, s: State, chunk: Chunk)
    requires Shows(written, s) && Reports(written, chunk)
    ensures
      var update, end := OutputUpdate(Some(s), chunk), s.end.value;
      var stop := chunk.start + if chunk.text.Some? then |chunk.text.value| else 0;
      var ours := chunk.text.Some? && chunk.path == s.path;
      && (update.Nothing? <==> !ours || (chunk.run == s.run && stop <= end))
      && (update.Reload? <==> ours && (chunk.run != s.run || (chunk.start > end && stop > end)))
      && (update.Next? ==>
        Shows(written, update.state) && end < stop
        && update.state ==
           s.(output := update.state.output, end := Some(stop), truncated := s.truncated || stop > 32768))
  {
    var update := OutputUpdate(Some(s), chunk);
    if update.Next? {
      ChunkJoins(written, s, chunk);
    }
    hide Newest;
  }

  lemma NewestOf(text: string, end: nat)
    requires end <= |text|
    ensures Newest(text[..end], LIMIT) == if end <= 32768 then text[..end] else text[end - 32768..end]
  {}

  lemma ShowsNewest(written: Written, s: State)
    ensures
      var text := Of(written, s.path, s.run);
      Shows(written, s) <==>
        s.end.Some? && s.end.value <= |text| && Output(s) == Newest(text[..s.end.value], LIMIT)
        && (s.end.value > 32768 ==> s.truncated)
  {
    hide Newest;
    var text := Of(written, s.path, s.run);
    if s.end.Some? && s.end.value <= |text| {
      NewestOf(text, s.end.value);
    }
  }

  /** The newest part of a text grows by what follows it. */
  lemma NewestGrows(text: string, end: nat, stop: nat, shown: string, more: string)
    requires end <= stop <= |text| && shown == Newest(text[..end], LIMIT) && more == text[end..stop]
    ensures Newest(shown + more, LIMIT) == Newest(text[..stop], LIMIT)
    ensures |shown + more| > LIMIT <==> stop > LIMIT && (end <= LIMIT || stop > end)
  {
    assert text[..end] + more == text[..stop];
    NewestJoin(text[..end], more, LIMIT);
  }

  lemma ChunkJoins(written: Written, s: State, chunk: Chunk)
    requires Shows(written, s) && Reports(written, chunk) && OutputUpdate(Some(s), chunk).Next?
    ensures Shows(written, OutputUpdate(Some(s), chunk).state)
    ensures OutputUpdate(Some(s), chunk).state.truncated
      == (s.truncated || chunk.start + |chunk.text.value| > 32768)
  {
    hide Shows, Newest, Of;
    ShowsNewest(written, s);
    var after := OutputUpdate(Some(s), chunk).state;
    ShowsNewest(written, after);
    var text, end, stop := Of(written, s.path, s.run), s.end.value, chunk.start + |chunk.text.value|;
    var more := chunk.text.value[end - chunk.start..];
    assert more == text[end..stop];
    NewestGrows(text, end, stop, Output(s), more);
  }

  /** A read takes over, but for output that the dialog shows further: of the same
      named run of the same worktree, that stays, with its end and its mark. */
  lemma ReadKeeps(current: Option<State>, next: State)
    ensures
      var shown := DetailUpdate(current, Some(next));
      var further :=
        && current.Some? && current.value.run != "" && current.value.run == next.run && current.value.path == next.path
        && current.value.end.Some? && current.value.end.value > 0
        && (next.end.Some? ==> current.value.end.value > next.end.value);
      && shown.Some? && shown.value.(output := None, end := None, truncated := false)
                        == next.(output := None, end := None, truncated := false)
      && (if further then
            shown.value.output == current.value.output && shown.value.end == current.value.end
            && shown.value.truncated == current.value.truncated
          else shown.value == next)
    ensures DetailUpdate(current, None) == None
  {}

  /** The dialog takes its events one after another. */
  lemma RunIs(events: seq<Event>, chunk: Chunk, state: Option<State>)
    ensures Run([]) == None && Run(events + [Read(state)]) == DetailUpdate(Run(events), state)
    ensures
      var update := OutputUpdate(Run(events), chunk);
      Run(events + [Wrote(chunk)]) == if update.Next? then Some(update.state) else Run(events)
    ensures OutputUpdate(None, chunk) == Nothing
  {
    assert (events + [Wrote(chunk)])[..|events|] == events == (events + [Read(state)])[..|events|];
  }

  /** Whatever order chunks and reads come in, the dialog shows a true suffix
      of what its run wrote, and never less of it than before. */
  lemma {:induction false} NeverTakenAway(written: Written, events: seq<Event>)
    requires forall i :: 0 <= i < |events| ==> True(written, events[i])
    ensures Run(events).Some? ==> Shows(written, Run(events).value)
    ensures events != [] ==>
      var before, after := Run(events[..|events| - 1]), Run(events);
      before.Some? && after.Some? && before.value.run == after.value.run != ""
        && before.value.path == after.value.path ==>
        End(before.value) <= End(after.value)
  {
    if events != [] {
      var first, last := events[..|events| - 1], events[|events| - 1];
      NeverTakenAway(written, first);
      if last.Wrote? && Run(first).Some? {
        ChunkExtends(written, Run(first).value, last.chunk);
      }
    }
  }

  /** Two dialogs on the same run that have got equally far show the same. */
  lemma SameEndSameOutput(written: Written, left: seq<Event>, right: seq<Event>)
    requires forall i :: 0 <= i < |left| ==> True(written, left[i])
    requires forall i :: 0 <= i < |right| ==> True(written, right[i])
    requires Run(left).Some? && Run(right).Some?
    requires Run(left).value.path == Run(right).value.path && Run(left).value.run == Run(right).value.run
    requires End(Run(left).value) == End(Run(right).value)
    ensures Output(Run(left).value) == Output(Run(right).value)
  {
    NeverTakenAway(written, left);
    NeverTakenAway(written, right);
  }
}
