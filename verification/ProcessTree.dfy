/** When a supervisor may report that nothing of its provider is left. */
module ProcessTree {
  import opened Basics

  type Pid = p: int | p > 0 witness 1

  /** A process that came from the provider: its parent, whether it still runs
      or waits to be reaped, when it was made, and its exit status. */
  datatype Process = Process(parent: Pid, live: bool, birth: nat, status: int)

  /** Everything descended from the provider, as the kernel has it, and what the
      supervisor has seen. */
  datatype World = World(supervisor: Pid, processes: map<Pid, Process>, clock: nat, provider: Option<Pid>,
                         providerReaped: bool, providerStatus: int, reported: bool)

  /** What can happen next. A new process is a child of its maker, or of its
      maker's parent. A process that exits leaves its children to an older
      living process or to the supervisor. The supervisor's own steps are to
      launch the provider, to reap a child, and to decide. */
  datatype Step =
    | Fork(maker: Pid, child: Pid, sibling: bool)
    | Exit(leaver: Pid, heir: Pid, status: int)
    | ReapedByParent(gone: Pid)
    | Launch(child: Pid)
    | Reap(gone: Pid)
    | Decide(complete: bool, liveCount: nat)

  predicate IsChild(w: World, pid: Pid) {
    pid in w.processes && w.processes[pid].parent == w.supervisor
  }

  predicate NoChildren(w: World) {
    forall pid :: pid in w.processes ==> !IsChild(w, pid)
  }

  predicate CanHappen(w: World, step: Step) {
    match step
    case Fork(maker, child, _) =>
      maker in w.processes && w.processes[maker].live && child !in w.processes && child != w.supervisor
    case Exit(leaver, heir, _) =>
      && leaver in w.processes && w.processes[leaver].live
      && (heir == w.supervisor || (heir in w.processes && w.processes[heir].live
                                   && w.processes[heir].birth < w.processes[leaver].birth))
    case ReapedByParent(gone) => gone in w.processes && !w.processes[gone].live && !IsChild(w, gone)
    case Launch(child) => w.provider.None? && child !in w.processes && child != w.supervisor
    case Reap(gone) => gone in w.processes && !w.processes[gone].live && IsChild(w, gone)
    case Decide(_, _) => w.provider.Some?
  }

  function Adopt(processes: map<Pid, Process>, leaver: Pid, heir: Pid): map<Pid, Process> {
    map pid | pid in processes ::
      if processes[pid].parent == leaver then processes[pid].(parent := heir) else processes[pid]
  }

  function Next(w: World, step: Step): World
    requires CanHappen(w, step)
  {
    match step
    case Fork(maker, child, sibling) =>
      var parent := if sibling then w.processes[maker].parent else maker;
      w.(processes := w.processes[child := Process(parent, true, w.clock, 0)], clock := w.clock + 1)
    case Exit(leaver, heir, status) =>
      var adopted := Adopt(w.processes, leaver, heir);
      w.(processes := adopted[leaver := adopted[leaver].(live := false, status := status)])
    case ReapedByParent(gone) => w.(processes := w.processes - {gone})
    case Launch(child) =>
      w.(processes := w.processes[child := Process(w.supervisor, true, w.clock, 0)], clock := w.clock + 1,
         provider := Some(child))
    case Reap(gone) =>
      var seen :=
        if w.provider == Some(gone) then w.(providerReaped := true, providerStatus := w.processes[gone].status) else w;
      seen.(processes := w.processes - {gone})
    case Decide(complete, liveCount) =>
      w.(reported := w.reported
        || (w.providerReaped && NoChildren(w) && (if complete then liveCount == 0 else true)))
  }

  /** The world after a run that can happen, starting with nothing launched. */
  function Run(supervisor: Pid, steps: seq<Step>): Option<World> {
    if steps == [] then Some(World(supervisor, map[], 0, None, false, 0, false))
    else
      var before, last := Run(supervisor, steps[..|steps| - 1]), steps[|steps| - 1];
      if before.Some? && CanHappen(before.value, last) then Some(Next(before.value, last)) else None
  }

  // ----- what each step does to the processes -----

  /** A new process lives, below its maker or its maker's parent. */
  lemma ForkDoes(w: World, maker: Pid, child: Pid, sibling: bool)
    ensures CanHappen(w, Fork(maker, child, sibling)) <==>
      maker in w.processes && w.processes[maker].live && child !in w.processes && child != w.supervisor
    ensures CanHappen(w, Fork(maker, child, sibling)) ==>
      var after := Next(w, Fork(maker, child, sibling));
      && after.processes.Keys == w.processes.Keys + {child} && after.processes[child].live
      && after.processes[child].parent == (if sibling then w.processes[maker].parent else maker)
      && (forall pid :: pid in w.processes ==> after.processes[pid] == w.processes[pid])
  {}

  /** A process that exits waits to be reaped, and its children go to a living
      older process or the supervisor. */
  lemma ExitDoes(w: World, leaver: Pid, heir: Pid, status: int)
    ensures CanHappen(w, Exit(leaver, heir, status)) <==>
      && leaver in w.processes && w.processes[leaver].live
      && (heir == w.supervisor || (heir in w.processes && w.processes[heir].live
                                   && w.processes[heir].birth < w.processes[leaver].birth))
    ensures CanHappen(w, Exit(leaver, heir, status)) ==>
      var after := Next(w, Exit(leaver, heir, status));
      && after.processes.Keys == w.processes.Keys
      && (forall pid :: pid in w.processes ==>
        && after.processes[pid].live == (w.processes[pid].live && pid != leaver)
        && after.processes[pid].status == (if pid == leaver then status else w.processes[pid].status)
        && after.processes[pid].parent == (if w.processes[pid].parent == leaver then heir else w.processes[pid].parent))
  {}

  /** Only what is dead is reaped: by the supervisor its own children, by any other
      parent the rest. The provider's status is kept when it is reaped. */
  lemma ReapDoes(w: World, gone: Pid)
    ensures CanHappen(w, Reap(gone)) <==>
      gone in w.processes && !w.processes[gone].live && w.processes[gone].parent == w.supervisor
    ensures CanHappen(w, ReapedByParent(gone)) <==>
      gone in w.processes && !w.processes[gone].live && w.processes[gone].parent != w.supervisor
    ensures CanHappen(w, ReapedByParent(gone)) ==>
      Next(w, ReapedByParent(gone)) == w.(processes := w.processes - {gone})
    ensures CanHappen(w, Reap(gone)) && w.provider != Some(gone) ==>
      Next(w, Reap(gone)) == w.(processes := w.processes - {gone})
    ensures CanHappen(w, Reap(gone)) && w.provider == Some(gone) ==>
      Next(w, Reap(gone)) == w.(processes := w.processes - {gone}, providerReaped := true,
                                providerStatus := w.processes[gone].status)
  {}

  /** The plainest run: the provider exits and is reaped, which is reported. */
  lemma SomeRunReports(supervisor: Pid, provider: Pid, status: int)
    requires provider != supervisor
    ensures
      var steps := [Launch(provider), Exit(provider, supervisor, status), Reap(provider), Decide(true, 0)];
      Run(supervisor, steps) == Some(World(supervisor, map[], 1, Some(provider), true, status, true))
  {
    hide Run;
    var one := [] + [Launch(provider)];
    var two := one + [Exit(provider, supervisor, status)];
    var three := two + [Reap(provider)];
    NothingRun(supervisor);
    RunNext(supervisor, [], Launch(provider));
    assert Run(supervisor, one) == Some(World(supervisor, map[provider := Process(supervisor, true, 0, 0)], 1,
                                              Some(provider), false, 0, false));
    RunNext(supervisor, one, Exit(provider, supervisor, status));
    var gone := map[provider := Process(supervisor, false, 0, status)];
    assert Run(supervisor, two).value.processes == gone;
    RunNext(supervisor, two, Reap(provider));
    assert gone - {provider} == map[];
    assert Run(supervisor, three) == Some(World(supervisor, map[], 1, Some(provider), true, status, false));
    RunNext(supervisor, three, Decide(true, 0));
    assert three + [Decide(true, 0)]
      == [Launch(provider), Exit(provider, supervisor, status), Reap(provider), Decide(true, 0)];
  }

  lemma NothingRun(supervisor: Pid)
    ensures Run(supervisor, []) == Some(World(supervisor, map[], 0, None, false, 0, false))
  {}

  lemma RunNext(supervisor: Pid, steps: seq<Step>, step: Step)
    ensures Run(supervisor, steps + [step]) ==
      if Run(supervisor, steps).Some? && CanHappen(Run(supervisor, steps).value, step)
      then Some(Next(Run(supervisor, steps).value, step)) else None
  {
    assert (steps + [step])[..|steps|] == steps;
  }

  // ----- what always holds -----

  /** Every process has a living parent older than itself, or the supervisor. */
  ghost predicate Rooted(w: World, pid: Pid)
    requires pid in w.processes
  {
    var parent := w.processes[pid].parent;
    parent == w.supervisor
    || (parent in w.processes && w.processes[parent].live && w.processes[parent].birth < w.processes[pid].birth)
  }

  ghost predicate Inv(w: World) {
    && w.supervisor !in w.processes
    && (forall pid :: pid in w.processes ==> w.processes[pid].birth < w.clock && Rooted(w, pid))
    && (w.provider.None? ==> w.processes == map[])
    && (w.providerReaped ==> w.provider.Some?)
    && (w.reported ==> w.provider.Some? && w.processes == map[])
  }

  /** Parents lead back to a child of the supervisor. */
  lemma {:induction false} FindChild(w: World, pid: Pid) returns (child: Pid)
    requires Inv(w) && pid in w.processes
    ensures IsChild(w, child)
    decreases w.processes[pid].birth
  {
    if w.processes[pid].parent == w.supervisor {
      child := pid;
    } else {
      assert Rooted(w, pid);
      child := FindChild(w, w.processes[pid].parent);
    }
  }

  /** Having no child of its own tells the supervisor that nothing at all is
      left, however deep it was and whatever a snapshot missed. */
  lemma NoChildrenMeansEmpty(w: World)
    requires Inv(w)
    ensures (forall pid :: pid in w.processes ==> w.processes[pid].parent != w.supervisor) <==> w.processes == map[]
  {
    if w.processes != map[] {
      var pid :| pid in w.processes;
      var child := FindChild(w, pid);
    }
  }

  lemma ForkKeeps(w: World, maker: Pid, child: Pid, sibling: bool)
    requires Inv(w) && CanHappen(w, Fork(maker, child, sibling))
    ensures Inv(Next(w, Fork(maker, child, sibling)))
  {
    var after := Next(w, Fork(maker, child, sibling));
    assert Rooted(w, maker);
    forall pid | pid in after.processes
      ensures Rooted(after, pid)
    {
      if pid != child {
        assert Rooted(w, pid);
      }
    }
  }

  lemma ExitKeeps(w: World, leaver: Pid, heir: Pid, status: int)
    requires Inv(w) && CanHappen(w, Exit(leaver, heir, status))
    ensures Inv(Next(w, Exit(leaver, heir, status)))
  {
    var after := Next(w, Exit(leaver, heir, status));
    forall pid | pid in after.processes
      ensures Rooted(after, pid) && after.processes[pid].birth == w.processes[pid].birth
    {
      assert Rooted(w, pid);
    }
  }

  lemma ReapKeeps(w: World, gone: Pid)
    requires Inv(w) && gone in w.processes && !w.processes[gone].live
    ensures Inv(w.(processes := w.processes - {gone}))
  {
    var after := w.(processes := w.processes - {gone});
    forall pid | pid in after.processes
      ensures Rooted(after, pid)
    {
      assert Rooted(w, pid);
    }
  }

  lemma StepKeeps(w: World, step: Step)
    requires Inv(w) && CanHappen(w, step)
    ensures Inv(Next(w, step))
    ensures w.reported ==> Next(w, step).reported
  {
    match step
    case Fork(maker, child, sibling) => ForkKeeps(w, maker, child, sibling);
    case Exit(leaver, heir, status) => ExitKeeps(w, leaver, heir, status);
    case ReapedByParent(gone) => ReapKeeps(w, gone);
    case Reap(gone) => ReapKeeps(w, gone);
    case Launch(child) =>
    case Decide(_, _) => NoChildrenMeansEmpty(w);
  }

  lemma {:induction false} EveryRun(supervisor: Pid, steps: seq<Step>)
    ensures var w := Run(supervisor, steps); w.Some? ==> Inv(w.value)
  {
    if steps != [] {
      var first, last := steps[..|steps| - 1], steps[|steps| - 1];
      EveryRun(supervisor, first);
      var before := Run(supervisor, first);
      if before.Some? && CanHappen(before.value, last) {
        StepKeeps(before.value, last);
      }
    }
  }

  /** Once the supervisor has reported an empty tree, nothing that came from the
      provider exists, and nothing ever will: the report is final in every
      continuation of the run. */
  lemma {:induction false} ReportIsFinal(supervisor: Pid, steps: seq<Step>, k: nat)
    requires k <= |steps| && Run(supervisor, steps).Some?
    requires Run(supervisor, steps[..k]).Some? && Run(supervisor, steps[..k]).value.reported
    ensures Run(supervisor, steps).value.reported && Run(supervisor, steps).value.processes == map[]
    decreases |steps|
  {
    EveryRun(supervisor, steps);
    if k == |steps| {
      assert steps[..k] == steps;
    } else {
      var first, last := steps[..|steps| - 1], steps[|steps| - 1];
      assert first[..k] == steps[..k];
      ReportIsFinal(supervisor, first, k);
      EveryRun(supervisor, first);
      StepKeeps(Run(supervisor, first).value, last);
    }
  }

  /** A decision reports exactly when the provider was reaped and nothing is
      left, unless a complete snapshot still counted something alive. */
  lemma DecideIsExact(w: World, complete: bool, liveCount: nat)
    requires Inv(w) && w.provider.Some? && !w.reported
    ensures Next(w, Decide(complete, liveCount)).reported
      <==> w.providerReaped && w.processes == map[] && (complete ==> liveCount == 0)
    ensures Next(w, Decide(complete, liveCount)).reported
      <==> w.providerReaped && (forall pid :: pid in w.processes ==> w.processes[pid].parent != w.supervisor)
           && (complete ==> liveCount == 0)
  {
    NoChildrenMeansEmpty(w);
  }

  lemma ReapOne(w: World, gone: Pid)
    requires Inv(w) && CanHappen(w, Reap(gone))
    ensures
      var next := Next(w, Reap(gone));
      && Inv(next) && next.supervisor == w.supervisor && next.provider == w.provider && next.reported == w.reported
      && next.processes == w.processes - {gone} && next.providerReaped == (w.providerReaped || w.provider == Some(gone))
      && next.providerStatus == (if w.provider == Some(gone) then w.processes[gone].status else w.providerStatus)
      && |next.processes| < |w.processes|
  {
    StepKeeps(w, Reap(gone));
    assert w.processes.Keys == (w.processes - {gone}).Keys + {gone};
  }

  /** `reap_children`: reaps until no child waits to be reaped. */
  method ReapChildren(start: World) returns (w: World)
    requires Inv(start)
    ensures Inv(w) && w.supervisor == start.supervisor && w.provider == start.provider && w.reported == start.reported
    ensures forall pid :: pid in w.processes <==>
      pid in start.processes && (start.processes[pid].live || start.processes[pid].parent != start.supervisor)
    ensures forall pid :: pid in w.processes ==> w.processes[pid] == start.processes[pid]
    ensures w.providerReaped == (start.providerReaped
      || (start.provider.Some? && start.provider.value in start.processes && start.provider.value !in w.processes))
    ensures start.provider.Some? && start.provider.value in start.processes && start.provider.value !in w.processes ==>
      w.providerStatus == start.processes[start.provider.value].status
  {
    w := start;
    while exists pid :: pid in w.processes && IsChild(w, pid) && !w.processes[pid].live
      invariant Inv(w) && w.supervisor == start.supervisor && w.provider == start.provider
        && w.reported == start.reported
      invariant forall pid :: pid in w.processes ==> pid in start.processes && w.processes[pid] == start.processes[pid]
      invariant forall pid :: pid in start.processes && (start.processes[pid].live || !IsChild(start, pid)) ==>
        pid in w.processes
      invariant w.providerReaped == (start.providerReaped
        || (start.provider.Some? && start.provider.value in start.processes && start.provider.value !in w.processes))
      invariant start.provider.Some? && start.provider.value in start.processes && start.provider.value !in w.processes
        ==> w.providerStatus == start.processes[start.provider.value].status
      decreases |w.processes|
    {
      var gone :| gone in w.processes && IsChild(w, gone) && !w.processes[gone].live;
      hide Inv, Next;
      ReapOne(w, gone);
      w := Next(w, Reap(gone));
    }
  }

  // ----- what a snapshot of the process table counts -----

  /** What reading one process's entry gives. */
  datatype Stat = Gone | Unreadable | Entry(live: bool, parent: int)

  datatype Ownership = NotOwned | Owned | OwnershipUnknown

  const MAX_DEPTH := 256

  function Look(table: map<int, Stat>, pid: int): Stat {
    if pid in table then table[pid] else Gone
  }

  function Walk(table: map<int, Stat>, pid: int, cursor: int, supervisor: Pid, depth: nat): Ownership
    decreases depth
  {
    if depth == 0 then OwnershipUnknown
    else
      match Look(table, cursor)
      case Gone => if cursor == pid then NotOwned else OwnershipUnknown
      case Unreadable => OwnershipUnknown
      case Entry(_, parent) =>
        if parent == supervisor then Owned
        else if parent <= 1 || parent == cursor then NotOwned
        else Walk(table, pid, parent, supervisor, depth - 1)
  }

  /** One readable entry that leads on: its parent is neither the supervisor, nor
      itself, nor anything up to process 1. */
  predicate LeadsOn(table: map<int, Stat>, supervisor: Pid, pid: int, parent: int) {
    && pid in table && table[pid].Entry? && table[pid].parent == parent
    && parent != supervisor && parent != pid && parent > 1
  }

  /** At most `depth` entries lead from `pid` to `last`, each to its parent, and
      that of `last` can be read. */
  ghost predicate Ascends(table: map<int, Stat>, pid: int, supervisor: Pid, path: seq<int>, last: int, depth: nat) {
    && 0 < |path| <= depth && path[0] == pid && path[|path| - 1] == last
    && (forall i, j :: 0 <= i && j == i + 1 < |path| ==> LeadsOn(table, supervisor, path[i], path[j]))
    && last in table && table[last].Entry?
  }

  /** At most 256 readable entries lead from `pid` to a child of the supervisor. */
  ghost predicate IsMember(table: map<int, Stat>, pid: int, supervisor: Pid) {
    exists path, last :: Ascends(table, pid, supervisor, path, last, 256) && table[last].parent == supervisor
  }

  /** `pid` is gone, or at most 256 readable entries lead from it to one whose
      parent is itself or nothing past process 1, and is not the supervisor. */
  ghost predicate IsStranger(table: map<int, Stat>, pid: int, supervisor: Pid) {
    || pid !in table || table[pid] == Gone
    || (exists path, last ::
      Ascends(table, pid, supervisor, path, last, 256)
      && table[last].parent != supervisor && (table[last].parent <= 1 || table[last].parent == last))
  }

  /** A walk that decides has followed a path to its end. */
  lemma {:induction false} WalkFinds(table: map<int, Stat>, pid: int, cursor: int, supervisor: Pid, depth: nat)
    returns (path: seq<int>, last: int)
    requires cursor == pid || Look(table, pid).Entry?
    ensures
      var found := Walk(table, pid, cursor, supervisor, depth);
      (found == Owned || (found == NotOwned && !Look(table, pid).Gone?)) ==>
        && Ascends(table, cursor, supervisor, path, last, depth)
        && (found == Owned <==> table[last].parent == supervisor)
        && (found == NotOwned ==> table[last].parent <= 1 || table[last].parent == last)
    decreases depth
  {
    path, last := [cursor], cursor;
    if depth > 0 && Look(table, cursor).Entry? {
      var parent := Look(table, cursor).parent;
      if parent != supervisor && parent > 1 && parent != cursor {
        var rest;
        rest, last := WalkFinds(table, pid, parent, supervisor, depth - 1);
        path := [cursor] + rest;
        if Ascends(table, parent, supervisor, rest, last, depth - 1) {
          assert LeadsOn(table, supervisor, path[0], path[1]);
        }
      }
    }
  }

  /** A path decides the walk as its end does. */
  lemma {:induction false} EndDecides(table: map<int, Stat>, pid: int, cursor: int, supervisor: Pid, depth: nat,
                                      path: seq<int>, last: int)
    requires Ascends(table, cursor, supervisor, path, last, depth)
    ensures table[last].parent == supervisor ==> Walk(table, pid, cursor, supervisor, depth) == Owned
    ensures table[last].parent != supervisor && (table[last].parent <= 1 || table[last].parent == last) ==>
              Walk(table, pid, cursor, supervisor, depth) == NotOwned
    decreases depth
  {
    if |path| > 1 {
      assert LeadsOn(table, supervisor, path[0], path[1]);
      EndDecides(table, pid, path[1], supervisor, depth - 1, path[1..], last);
    }
  }

  lemma WalkDecides(table: map<int, Stat>, pid: int, supervisor: Pid)
    ensures Walk(table, pid, pid, supervisor, MAX_DEPTH) == Owned <==> IsMember(table, pid, supervisor)
    ensures Walk(table, pid, pid, supervisor, MAX_DEPTH) == NotOwned <==> IsStranger(table, pid, supervisor)
  {
    var path, last := WalkFinds(table, pid, pid, supervisor, MAX_DEPTH);
    if IsMember(table, pid, supervisor) {
      var path, last :| Ascends(table, pid, supervisor, path, last, 256) && table[last].parent == supervisor;
      EndDecides(table, pid, pid, supervisor, MAX_DEPTH, path, last);
    }
    if IsStranger(table, pid, supervisor) && !Look(table, pid).Gone? {
      var path, last :| Ascends(table, pid, supervisor, path, last, 256)
        && table[last].parent != supervisor && (table[last].parent <= 1 || table[last].parent == last);
      EndDecides(table, pid, pid, supervisor, MAX_DEPTH, path, last);
    }
  }

  /** `is_owned_descendant`: follows parents, at most 256 of them. */
  method IsOwnedDescendant(table: map<int, Stat>, pid: int, supervisor: Pid) returns (result: Ownership)
    ensures result == Owned <==> IsMember(table, pid, supervisor)
    ensures result == NotOwned <==> IsStranger(table, pid, supervisor)
  {
    WalkDecides(table, pid, supervisor);
    hide IsMember, IsStranger;
    var cursor := pid;
    for depth := 0 to MAX_DEPTH
      invariant Walk(table, pid, cursor, supervisor, MAX_DEPTH - depth) == Walk(table, pid, pid, supervisor, MAX_DEPTH)
    {
      match Look(table, cursor)
      case Gone => return if cursor == pid then NotOwned else OwnershipUnknown;
      case Unreadable => return OwnershipUnknown;
      case Entry(_, parent) =>
        if parent == supervisor { return Owned; }
        if parent <= 1 || parent == cursor { return NotOwned; }
        cursor := parent;
    }
    result := OwnershipUnknown;
  }

  ghost predicate Counts(table: map<int, Stat>, pid: int, supervisor: Pid) {
    pid > 0 && pid != supervisor && pid in table && IsMember(table, pid, supervisor)
  }

  ghost predicate CountsAsLive(table: map<int, Stat>, pid: int, supervisor: Pid) {
    Counts(table, pid, supervisor) && table[pid].Entry? && table[pid].live
  }

  ghost predicate CannotTell(table: map<int, Stat>, pid: int, supervisor: Pid) {
    && pid > 0 && pid != supervisor
    && !IsMember(table, pid, supervisor) && !IsStranger(table, pid, supervisor)
  }

  /** The ones to keep, in order. */
  ghost function Only(listing: seq<int>, keep: int -> bool): (kept: seq<int>)
    ensures forall pid :: pid in kept <==> pid in listing && keep(pid)
  {
    if listing == [] then []
    else
      var rest, last := Only(listing[..|listing| - 1], keep), listing[|listing| - 1];
      assert listing == listing[..|listing| - 1] + [last];
      if keep(last) then rest + [last] else rest
  }

  /** `inspect_owned_tree`, over the entries listed and whether listing them
      worked. It may kill what it finds alive, but for the provider. */
  method InspectOwnedTree(listing: seq<int>, listed: bool, table: map<int, Stat>, supervisor: Pid, provider: Pid,
                          kill: bool)
    returns (count: nat, liveCount: nat, complete: bool, killed: seq<int>)
    ensures complete <==> listed && forall i :: 0 <= i < |listing| ==> !CannotTell(table, listing[i], supervisor)
    ensures count == |Only(listing, pid => Counts(table, pid, supervisor))|
    ensures liveCount == |Only(listing, pid => CountsAsLive(table, pid, supervisor))|
    ensures killed == Only(listing, pid => kill && CountsAsLive(table, pid, supervisor) && pid != provider)
  {
    hide IsMember, IsStranger;
    ghost var counts := pid => Counts(table, pid, supervisor);
    ghost var countsAsLive := pid => CountsAsLive(table, pid, supervisor);
    ghost var kills := pid => kill && CountsAsLive(table, pid, supervisor) && pid != provider;
    count, liveCount, complete, killed := 0, 0, listed, [];
    for i := 0 to |listing|
      invariant complete <==> listed && forall j :: 0 <= j < i ==> !CannotTell(table, listing[j], supervisor)
      invariant count == |Only(listing[..i], counts)| && liveCount == |Only(listing[..i], countsAsLive)|
      invariant killed == Only(listing[..i], kills)
    {
      assert listing[..i + 1][..i] == listing[..i];
      var pid := listing[i];
      if pid <= 0 || pid == supervisor { continue; }
      var stat := Look(table, pid);
      GoneOrNot(table, pid, supervisor);
      if stat.Gone? { continue; }
      if stat.Unreadable? {
        complete := false;
        continue;
      }
      var ownership := IsOwnedDescendant(table, pid, supervisor);
      if ownership == OwnershipUnknown {
        complete := false;
        continue;
      }
      if ownership != Owned { continue; }
      count := count + 1;
      if stat.live {
        liveCount := liveCount + 1;
      }
      if kill && stat.live && pid != provider {
        killed := killed + [pid];
      }
    }
    assert listing[..|listing|] == listing;
  }

  lemma GoneOrNot(table: map<int, Stat>, pid: int, supervisor: Pid)
    ensures Look(table, pid).Gone? ==> IsStranger(table, pid, supervisor)
    ensures !Look(table, pid).Entry? ==> !IsMember(table, pid, supervisor)
    ensures Look(table, pid).Unreadable? ==> !IsStranger(table, pid, supervisor)
  {
    hide IsMember, IsStranger;
    WalkDecides(table, pid, supervisor);
  }

  /** A table that shows every process of the world as it is, or as unreadable. */
  ghost predicate Faithful(w: World, table: map<int, Stat>) {
    && (forall pid :: pid in w.processes ==>
      pid > 1 && (Look(table, pid) == Unreadable
        || Look(table, pid) == Entry(w.processes[pid].live, w.processes[pid].parent)))
  }

  /** A process of the tree is never taken for a stranger. */
  lemma {:induction false} NeverDisowned(w: World, table: map<int, Stat>, pid: int, cursor: Pid, depth: nat)
    requires Inv(w) && Faithful(w, table) && cursor in w.processes
    ensures Walk(table, pid, cursor, w.supervisor, depth) != NotOwned
    decreases depth
  {
    assert Rooted(w, cursor);
    if depth > 0 && Look(table, cursor) != Unreadable && w.processes[cursor].parent != w.supervisor {
      NeverDisowned(w, table, pid, w.processes[cursor].parent, depth - 1);
    }
  }

  lemma MembersAreFound(w: World, table: map<int, Stat>, pid: int)
    requires Inv(w) && Faithful(w, table) && pid in w.processes
    ensures !IsStranger(table, pid, w.supervisor)
  {
    hide IsMember, IsStranger;
    WalkDecides(table, pid, w.supervisor);
    NeverDisowned(w, table, pid, pid, MAX_DEPTH);
  }

  /** A table whose entries of other processes are true as well: none of them is
      a child of the supervisor or of anything in the tree. */
  ghost predicate Honest(w: World, table: map<int, Stat>) {
    && Faithful(w, table)
    && (forall pid :: pid in table && table[pid].Entry? && pid !in w.processes ==>
      table[pid].parent != w.supervisor && table[pid].parent !in w.processes)
  }

  /** Parents lead from a stranger to strangers only. */
  lemma {:induction false} StrangersAscend(w: World, table: map<int, Stat>, pid: int, path: seq<int>, last: int,
                                           depth: nat)
    requires Honest(w, table) && pid !in w.processes && Ascends(table, pid, w.supervisor, path, last, depth)
    ensures table[last].parent != w.supervisor
    decreases depth
  {
    if |path| > 1 {
      assert LeadsOn(table, w.supervisor, path[0], path[1]);
      StrangersAscend(w, table, path[1], path[1..], last, depth - 1);
    }
  }

  /** A stranger is never taken for a process of the tree: what counts as alive
      is, and only that is killed. */
  lemma NeverAdopted(w: World, table: map<int, Stat>, pid: int)
    requires Honest(w, table)
    ensures Counts(table, pid, w.supervisor) ==> pid in w.processes
    ensures CountsAsLive(table, pid, w.supervisor) ==> pid in w.processes && w.processes[pid].live
  {
    if Counts(table, pid, w.supervisor) && pid !in w.processes {
      var path, last :| Ascends(table, pid, w.supervisor, path, last, 256) && table[last].parent == w.supervisor;
      StrangersAscend(w, table, pid, path, last, 256);
    }
  }

  /** A complete snapshot that lists the whole tree misses no living process of
      it: whatever it cannot tell makes it incomplete. With true entries for
      other processes it counts exactly the living ones. */
  lemma CompleteSnapshotIsTrue(w: World, listing: seq<int>, table: map<int, Stat>)
    requires Inv(w) && Faithful(w, table) && forall pid :: pid in w.processes ==> (pid as int) in listing
    requires forall i :: 0 <= i < |listing| ==> !CannotTell(table, listing[i], w.supervisor)
    ensures forall pid :: pid in w.processes && w.processes[pid].live ==> CountsAsLive(table, pid, w.supervisor)
    ensures Honest(w, table) ==>
      forall pid: Pid :: CountsAsLive(table, pid, w.supervisor) <==> pid in w.processes && w.processes[pid].live
  {
    hide IsMember, IsStranger;
    forall pid | pid in w.processes && w.processes[pid].live
      ensures CountsAsLive(table, pid, w.supervisor)
    {
      var i :| 0 <= i < |listing| && listing[i] == pid;
      assert !CannotTell(table, listing[i], w.supervisor);
      MembersAreFound(w, table, pid);
      GoneOrNot(table, pid, w.supervisor);
    }
    if Honest(w, table) {
      forall pid: Pid
        ensures CountsAsLive(table, pid, w.supervisor) ==> pid in w.processes && w.processes[pid].live
      {
        NeverAdopted(w, table, pid);
      }
    }
  }
}
