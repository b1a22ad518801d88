/** Reading a saved arrangement, which can hold anything. */
module PaneRepair {
  import opened Basics
  import opened PaneLayout

  /** A saved node. A pane may name a view that does not exist, a split may lack
      an axis or a finite ratio, and a node may be neither. */
  datatype Saved =
    | SavedPane(view: Option<View>)
    | SavedSplit(axis: Option<Axis>, first: Saved, second: Saved, ratio: Option<real>)
    | Unreadable

  /** A saved arrangement: its version if it has one, its tree and its focus. */
  datatype SavedLayout = SavedLayout(version: Option<int>, root: Saved, focused: Option<View>) | NotAnObject

  datatype Problem = BadVersion | BadLayout | BadNode | BadView | Duplicate | BadRatio | NoConversation

  const VERSION := 1

  datatype Visited = Visited(node: Option<Node>, seen: set<View>, problems: seq<Problem>)

  datatype Repaired = Repaired(layout: Layout, problems: seq<Problem>)

  /** The ratio kept, and whether that is the one saved. */
  function Kept(ratio: Option<real>): real {
    if ratio.Some? then Clamp(ratio.value) else 0.5
  }

  function Visit(saved: Saved, depth: nat, seen: set<View>): Visited {
    if saved.Unreadable? || depth > MAX_DEPTH then Visited(None, seen, [BadNode])
    else if saved.SavedPane? then
      if saved.view.None? then Visited(None, seen, [BadView])
      else if saved.view.value in seen then Visited(None, seen, [Duplicate])
      else Visited(Some(Pane(saved.view.value)), seen + {saved.view.value}, [])
    else if saved.axis.None? then Visited(None, seen, [BadNode])
    else
      var first := Visit(saved.first, depth + 1, seen);
      var second := Visit(saved.second, depth + 1, first.seen);
      Combine(saved.axis.value, saved.ratio, first, second)
  }

  /** A split of what is left of its halves, or the half that is left. */
  function Combine(axis: Axis, ratio: Option<real>, first: Visited, second: Visited): Visited {
    var problems := first.problems + second.problems;
    if first.node.None? then Visited(second.node, second.seen, problems)
    else if second.node.None? then Visited(first.node, second.seen, problems)
    else
      Visited(Some(Split(axis, first.node.value, second.node.value, Kept(ratio))), second.seen,
              problems + if ratio == Some(Kept(ratio)) then [] else [BadRatio])
  }

  function Normalize(saved: SavedLayout): Repaired {
    if saved.NotAnObject? || saved.version.None? then Repaired(DEFAULT, [BadLayout])
    else if saved.version.value != VERSION then Repaired(DEFAULT, [BadVersion])
    else
      var visited := Visit(saved.root, 0, {});
      var root := if visited.node.None? then Pane(Conversation)
                  else if Conversation in visited.seen then visited.node.value
                  else Split(Row, Pane(Conversation), visited.node.value, 0.5);
      var problems :=
        visited.problems + if visited.node.Some? && Conversation !in visited.seen then [NoConversation] else [];
      var focused :=
        if saved.focused.Some? && saved.focused.value in Views(root) then saved.focused.value else Conversation;
      Repaired(Layout(root, focused), problems)
  }

  /** The walk as it is made: `seen` and `problems` grow along the way. */
  class Walk {
    var seen: set<View>
    var problems: seq<Problem>

    constructor ()
      ensures seen == {} && problems == []
    {
      seen, problems := {}, [];
    }

    method VisitNode(saved: Saved, depth: nat) returns (node: Option<Node>)
      modifies this
      ensures var visited := Visit(saved, depth, old(seen));
        node == visited.node && seen == visited.seen && problems == old(problems) + visited.problems
    {
      if saved.Unreadable? || depth > MAX_DEPTH {
        problems := problems + [BadNode];
        return None;
      }
      if saved.SavedPane? {
        if saved.view.None? {
          problems := problems + [BadView];
          return None;
        }
        if saved.view.value in seen {
          problems := problems + [Duplicate];
          return None;
        }
        seen := seen + {saved.view.value};
        return Some(Pane(saved.view.value));
      }
      if saved.axis.None? {
        problems := problems + [BadNode];
        return None;
      }
      ghost var before, views := problems, seen;
      var first := VisitNode(saved.first, depth + 1);
      ghost var left := Visit(saved.first, depth + 1, views);
      var second := VisitNode(saved.second, depth + 1);
      ghost var right := Visit(saved.second, depth + 1, left.seen);
      assert Visit(saved, depth, views) == Combine(saved.axis.value, saved.ratio, left, right);
      assert problems == before + (left.problems + right.problems);
      if first.None? { return second; }
      if second.None? { return first; }
      var ratio := 0.5;
      if saved.ratio.Some? {
        ratio := Clamp(saved.ratio.value);
      }
      if Some(ratio) != saved.ratio {
        problems := problems + [BadRatio];
      }
      node := Some(Split(saved.axis.value, first.value, second.value, ratio));
    }
  }

  method NormalizeLayout(saved: SavedLayout) returns (repaired: Repaired)
    ensures repaired == Normalize(saved)
  {
    if saved.NotAnObject? || saved.version != Some(VERSION) {
      return Repaired(DEFAULT, [if saved.SavedLayout? && saved.version.Some? then BadVersion else BadLayout]);
    }
    var walk := new Walk();
    var visited := walk.VisitNode(saved.root, 0);
    var root := Pane(Conversation);
    if visited.Some? {
      root := visited.value;
      if Conversation !in walk.seen {
        walk.problems := walk.problems + [NoConversation];
        root := Split(Row, Pane(Conversation), root, 0.5);
      }
    }
    var focused :=
      if saved.focused.Some? && saved.focused.value in Views(root) then saved.focused.value else Conversation;
    repaired := Repaired(Layout(root, focused), walk.problems);
  }

  // ----- what comes out is a valid arrangement -----

  /** The tree kept holds exactly the views newly seen, once each, within bounds. */
  lemma {:induction false} VisitKeeps(saved: Saved, depth: nat, seen: set<View>)
    ensures var visited := Visit(saved, depth, seen);
      && seen <= visited.seen
      && (visited.node.None? ==> visited.seen == seen)
      && (visited.node.Some? ==> Distinct(Views(visited.node.value)) && RatiosIn(visited.node.value))
      && (visited.node.Some? ==> forall v :: v in Views(visited.node.value) <==> v in visited.seen && v !in seen)
    decreases saved
  {
    if saved.SavedSplit? && depth <= MAX_DEPTH && saved.axis.Some? {
      var first := Visit(saved.first, depth + 1, seen);
      var second := Visit(saved.second, depth + 1, first.seen);
      VisitKeeps(saved.first, depth + 1, seen);
      VisitKeeps(saved.second, depth + 1, first.seen);
      if first.node.Some? && second.node.Some? {
        DistinctJoin(Views(first.node.value), Views(second.node.value));
      }
    }
  }

  /** Whatever was saved, what is used is valid. */
  lemma NormalizeEstablishes(saved: SavedLayout)
    ensures Valid(Normalize(saved).layout)
  {
    if saved.SavedLayout? && saved.version == Some(VERSION) {
      VisitKeeps(saved.root, 0, {});
      var visited := Visit(saved.root, 0, {});
      if visited.node.Some? && Conversation !in visited.seen {
        DistinctJoin([Conversation], Views(visited.node.value));
      }
    }
  }

  // ----- a valid arrangement comes back unchanged -----

  function Save(node: Node): Saved {
    match node
    case Pane(view) => SavedPane(Some(view))
    case Split(axis, first, second, ratio) => SavedSplit(Some(axis), Save(first), Save(second), Some(ratio))
  }

  function SaveLayout(layout: Layout): SavedLayout {
    SavedLayout(Some(VERSION), Save(layout.root), Some(layout.focused))
  }

  function Depth(node: Node): nat {
    if node.Pane? then 0
    else 1 + if Depth(node.first) > Depth(node.second) then Depth(node.first) else Depth(node.second)
  }

  lemma {:induction false} DepthUnderViews(node: Node)
    ensures Depth(node) < |Views(node)|
  {
    if node.Split? {
      DepthUnderViews(node.first);
      DepthUnderViews(node.second);
    }
  }

  function ViewSet(node: Node): set<View> {
    set v | v in Views(node)
  }

  lemma {:induction false} DistinctFew(views: seq<View>)
    requires Distinct(views)
    ensures |views| <= 4
  {
    var all := {Conversation, Changes, Terminal, Context};
    DistinctSize(views);
    assert (set v | v in views) <= all;
    SubsetSize((set v | v in views), all);
  }

  lemma {:induction false} DistinctSize(views: seq<View>)
    requires Distinct(views)
    ensures |(set v | v in views)| == |views|
  {
    if views != [] {
      assert views == [views[0]] + views[1..];
      DistinctJoin([views[0]], views[1..]);
      DistinctSize(views[1..]);
      assert (set v | v in views) == {views[0]} + (set v | v in views[1..]);
    }
  }

  lemma {:induction false} VisitSaved(node: Node, depth: nat, seen: set<View>)
    requires Distinct(Views(node)) && RatiosIn(node) && depth + Depth(node) <= MAX_DEPTH
    requires forall v :: v in Views(node) ==> v !in seen
    ensures Visit(Save(node), depth, seen) == Visited(Some(node), seen + ViewSet(node), [])
  {
    if node.Split? {
      DistinctJoin(Views(node.first), Views(node.second));
      ViewSetSplit(node, seen);
      assert forall v :: v in Views(node.second) ==> v !in seen + ViewSet(node.first);
      hide Distinct, ViewSet;
      VisitSaved(node.first, depth + 1, seen);
      VisitSaved(node.second, depth + 1, seen + ViewSet(node.first));
    } else {
      assert ViewSet(node) == {node.view};
    }
  }

  lemma ViewSetSplit(node: Node, seen: set<View>)
    requires node.Split?
    ensures seen + ViewSet(node.first) + ViewSet(node.second) == seen + ViewSet(node)
  {}

  /** A valid arrangement that was saved is read back as it was, with no
      problem to report; so repairing twice is repairing once. */
  lemma SavedReadsBack(layout: Layout)
    requires Valid(layout)
    ensures Normalize(SaveLayout(layout)) == Repaired(layout, [])
  {
    DepthUnderViews(layout.root);
    DistinctFew(Views(layout.root));
    VisitSaved(layout.root, 0, {});
  }

  lemma NormalizeTwice(saved: SavedLayout)
    ensures Normalize(SaveLayout(Normalize(saved).layout)) == Repaired(Normalize(saved).layout, [])
  {
    NormalizeEstablishes(saved);
    SavedReadsBack(Normalize(saved).layout);
  }

  lemma {:induction false} VisitReports(saved: Saved, depth: nat, seen: set<View>)
    ensures Visit(saved, depth, seen).problems == [] ==>
      Visit(saved, depth, seen).node.Some? && Save(Visit(saved, depth, seen).node.value) == saved
    decreases saved
  {
    if saved.SavedSplit? && depth <= MAX_DEPTH && saved.axis.Some? {
      VisitReports(saved.first, depth + 1, seen);
      VisitReports(saved.second, depth + 1, Visit(saved.first, depth + 1, seen).seen);
    }
  }

  /** No problem is reported exactly when the saved tree is used as it stands. */
  lemma ReportsExactly(saved: SavedLayout)
    requires saved.SavedLayout? && saved.version == Some(VERSION)
    ensures Normalize(saved).problems == [] <==> Save(Normalize(saved).layout.root) == saved.root
  {
    VisitReports(saved.root, 0, {});
    if Save(Normalize(saved).layout.root) == saved.root {
      NormalizeEstablishes(saved);
      var root := Normalize(saved).layout.root;
      DepthUnderViews(root);
      DistinctFew(Views(root));
      VisitSaved(root, 0, {});
    }
  }

  // ----- what a repair keeps -----

  /** The views that a saved tree names where they can be read: at most four
      splits deep, under splits with an axis. */
  ghost function Readable(saved: Saved, depth: nat): seq<View> {
    if depth > 4 then []
    else
      match saved
      case Unreadable => []
      case SavedPane(view) => if view.Some? then [view.value] else []
      case SavedSplit(axis, first, second, _) =>
        if axis.Some? then Readable(first, depth + 1) + Readable(second, depth + 1) else []
  }

  /** The first of each view that is not among `seen`. */
  ghost function Firsts(views: seq<View>, seen: set<View>): seq<View> {
    if views == [] then []
    else if views[0] in seen then Firsts(views[1..], seen)
    else [views[0]] + Firsts(views[1..], seen + {views[0]})
  }

  ghost function Named(views: seq<View>): set<View> {
    set v | v in views
  }

  lemma {:induction false} FirstsJoin(left: seq<View>, right: seq<View>, seen: set<View>)
    ensures Firsts(left + right, seen) == Firsts(left, seen) + Firsts(right, seen + Named(left))
  {
    if left == [] {
      assert left + right == right && seen + Named(left) == seen;
    } else {
      var rest := left[1..];
      assert (left + right)[1..] == rest + right && left == [left[0]] + rest;
      assert seen + {left[0]} + Named(rest) == seen + Named(left);
      if left[0] in seen {
        assert seen + Named(rest) == seen + Named(left);
      }
      FirstsJoin(rest, right, seen);
      FirstsJoin(rest, right, seen + {left[0]});
    }
  }

  lemma NamedJoin(left: seq<View>, right: seq<View>, seen: set<View>)
    ensures seen + Named(left + right) == seen + Named(left) + Named(right)
  {}

  lemma PaneReadable(saved: Saved, depth: nat, seen: set<View>)
    requires !(saved.SavedSplit? && depth <= MAX_DEPTH && saved.axis.Some?)
    ensures
      var visited, views := Visit(saved, depth, seen), Firsts(Readable(saved, depth), seen);
      && visited.seen == seen + Named(Readable(saved, depth))
      && (if visited.node.Some? then Views(visited.node.value) == views else views == [])
  {
    if saved.SavedPane? && saved.view.Some? {
      assert [saved.view.value][1..] == [];
    }
  }

  lemma {:induction false} VisitReadable(saved: Saved, depth: nat, seen: set<View>)
    ensures
      var visited, views := Visit(saved, depth, seen), Firsts(Readable(saved, depth), seen);
      && visited.seen == seen + Named(Readable(saved, depth))
      && (if visited.node.Some? then Views(visited.node.value) == views else views == [])
    decreases saved
  {
    hide Firsts, Named;
    if saved.SavedSplit? && depth <= MAX_DEPTH && saved.axis.Some? {
      var left, right := Readable(saved.first, depth + 1), Readable(saved.second, depth + 1);
      VisitReadable(saved.first, depth + 1, seen);
      VisitReadable(saved.second, depth + 1, Visit(saved.first, depth + 1, seen).seen);
      FirstsJoin(left, right, seen);
      NamedJoin(left, right, seen);
    } else {
      PaneReadable(saved, depth, seen);
    }
  }

  /** A repaired arrangement shows every view that can be read, where it is named
      first, and nothing else but the conversation, which comes first when no
      pane names it. */
  lemma RepairsReadable(saved: SavedLayout)
    ensures
      var repaired := Normalize(saved);
      if saved.SavedLayout? && saved.version == Some(1) then
        var views := Firsts(Readable(saved.root, 0), {});
        && Views(repaired.layout.root) == (if Conversation in views then views else [Conversation] + views)
        && (Conversation !in views && views != [] ==>
          && repaired.layout.root.Split? && repaired.layout.root.axis == Row && repaired.layout.root.ratio == 0.5
          && repaired.layout.root.first == Pane(Conversation))
        && repaired.layout.focused ==
           (if saved.focused.Some? && saved.focused.value in [Conversation] + views then saved.focused.value
            else Conversation)
      else
        && repaired.layout == Layout(Pane(Conversation), Conversation)
        && repaired.problems == [if saved.SavedLayout? && saved.version.Some? then BadVersion else BadLayout]
  {
    if saved.SavedLayout? && saved.version == Some(1) {
      VisitReadable(saved.root, 0, {});
      VisitKeeps(saved.root, 0, {});
      var visited := Visit(saved.root, 0, {});
      assert visited.node.Some? ==> (Conversation in visited.seen <==> Conversation in Views(visited.node.value));
    }
  }

  /** A split of two readable halves stays, with its ratio brought within bounds,
      or half when it has none, which is reported unless it changes nothing. */
  lemma SplitRepaired(saved: Saved, depth: nat, seen: set<View>)
    requires saved.SavedSplit? && saved.axis.Some? && depth <= 4
    ensures
      var first := Visit(saved.first, depth + 1, seen);
      var second := Visit(saved.second, depth + 1, first.seen);
      var ratio :=
        if saved.ratio.None? then 0.5 else if saved.ratio.value < 0.05 then 0.05
        else if saved.ratio.value > 0.95 then 0.95 else saved.ratio.value;
      first.node.Some? && second.node.Some? ==>
        && Visit(saved, depth, seen).node == Some(Split(saved.axis.value, first.node.value, second.node.value, ratio))
        && Visit(saved, depth, seen).problems ==
           first.problems + second.problems + if saved.ratio == Some(ratio) then [] else [BadRatio]
  {}
}
