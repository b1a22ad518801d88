/** The arrangement of a worktree's views: a binary tree of splits. */
module PaneLayout {
  import opened Basics

  datatype View = Conversation | Changes | Terminal | Context

  datatype Axis = Row | Column

  datatype Side = Left | Right | Up | Down

  datatype Node = Pane(view: View) | Split(axis: Axis, first: Node, second: Node, ratio: real)

  datatype Layout = Layout(root: Node, focused: View)

  /** A step into a split. */
  datatype Turn = ToFirst | ToSecond

  const MIN_RATIO := 0.05
  const MAX_RATIO := 0.95
  const MAX_DEPTH := 4

  /** Views in reading order. */
  function Views(node: Node): (views: seq<View>)
    ensures views != []
  {
    match node
    case Pane(view) => [view]
    case Split(_, first, second, _) => Views(first) + Views(second)
  }

  ghost predicate Distinct(views: seq<View>) {
    forall i, j :: 0 <= i < j < |views| ==> views[i] != views[j]
  }

  predicate RatiosIn(node: Node) {
    node.Split? ==> MIN_RATIO <= node.ratio <= MAX_RATIO && RatiosIn(node.first) && RatiosIn(node.second)
  }

  /** Every view at most once, the conversation always, the focus on a view that
      is shown, and every ratio within bounds. */
  ghost predicate Valid(layout: Layout) {
    && Distinct(Views(layout.root)) && Conversation in Views(layout.root)
    && layout.focused in Views(layout.root) && RatiosIn(layout.root)
  }

  function Clamp(ratio: real): real {
    if ratio < MIN_RATIO then MIN_RATIO else if ratio > MAX_RATIO then MAX_RATIO else ratio
  }

  // ----- edits of the tree -----

  function Replace(node: Node, matches: Node -> bool, replacement: Node -> Node): Node {
    if matches(node) then replacement(node)
    else if node.Pane? then node
    else Split(node.axis, Replace(node.first, matches, replacement), Replace(node.second, matches, replacement),
      node.ratio)
  }

  function Remove(node: Node, view: View): Option<Node> {
    match node
    case Pane(shown) => if shown == view then None else Some(node)
    case Split(axis, first, second, ratio) =>
      var left, right := Remove(first, view), Remove(second, view);
      if left.None? then right else if right.None? then left else Some(Split(axis, left.value, right.value, ratio))
  }

  function Beside(item: Node, view: View, side: Side): Node {
    var axis := if side in {Left, Right} then Row else Column;
    if side in {Left, Up} then Split(axis, Pane(view), item, 0.5) else Split(axis, item, Pane(view), 0.5)
  }

  function Dock(node: Node, view: View, target: View, side: Side): Node {
    Replace(node, item => item == Pane(target), item => Beside(item, view, side))
  }

  // ----- operations -----

  function Open(layout: Layout, view: View, target: View, side: Side): Layout {
    if view in Views(layout.root) then layout.(focused := view)
    else
      var anchor := if target in Views(layout.root) then target else Conversation;
      Layout(Dock(layout.root, view, anchor, side), view)
  }

  function Successor(node: Node, view: View): Option<View> {
    if node.Pane? then None
    else if node.first == Pane(view) then Some(Views(node.second)[0])
    else if node.second == Pane(view) then Some(Views(node.first)[0])
    else
      var inFirst := Successor(node.first, view);
      if inFirst.Some? then inFirst else Successor(node.second, view)
  }

  function Close(layout: Layout, view: View): Layout {
    if view == Conversation || view !in Views(layout.root) then layout
    else
      var successor, root := Successor(layout.root, view), Remove(layout.root, view);
      Layout(if root.Some? then root.value else layout.root,
             if layout.focused != view then layout.focused
             else if successor.Some? then successor.value else Conversation)
  }

  function Move(layout: Layout, view: View, target: View, side: Side): Layout {
    var rest := Remove(layout.root, view);
    if view == target || view !in Views(layout.root) || target !in Views(layout.root) || rest.None? then layout
    else Layout(Dock(rest.value, view, target, side), view)
  }

  function Swap(layout: Layout, first: View, second: View): Layout {
    if first == second || first !in Views(layout.root) || second !in Views(layout.root) then layout
    else
      Layout(Replace(layout.root, node => node == Pane(first) || node == Pane(second),
                     node => Pane(if node == Pane(first) then second else first)), first)
  }

  function SplitAt(node: Node, path: seq<Turn>): (found: Option<Node>)
    ensures found.Some? ==> found.value.Split?
  {
    if node.Pane? then None
    else if path == [] then Some(node)
    else SplitAt(if path[0] == ToFirst then node.first else node.second, path[1..])
  }

  /** `ratio` is absent when it is not a finite number. */
  function Resize(layout: Layout, path: seq<Turn>, ratio: Option<real>): Layout {
    var target := SplitAt(layout.root, path);
    if target.None? || ratio.None? then layout
    else
      var next := Clamp(ratio.value);
      if next == target.value.ratio then layout
      else layout.(root := Replace(layout.root, node => node == target.value, node => WithRatio(node, next)))
  }

  function WithRatio(node: Node, ratio: real): Node {
    if node.Split? then node.(ratio := ratio) else node
  }

  function Focus(layout: Layout, view: View): Layout {
    if view in Views(layout.root) then layout.(focused := view) else layout
  }

  datatype Preset = OnlyConversation | WithTerminal | Review

  function Arrange(layout: Layout, preset: Preset): Layout {
    var root := match preset
      case OnlyConversation => Pane(Conversation)
      case WithTerminal => Split(Row, Pane(Conversation), Pane(Terminal), 0.6)
      case Review => Split(Row, Pane(Conversation), Split(Column, Pane(Terminal), Pane(Changes), 0.5), 0.55);
    Layout(root, if layout.focused in Views(root) then layout.focused else Conversation)
  }

  const DEFAULT := Layout(Pane(Conversation), Conversation)

  // ----- what the edits do to the views -----

  lemma DistinctJoin(left: seq<View>, right: seq<View>)
    ensures Distinct(left + right) <==> Distinct(left) && Distinct(right) && forall v :: v in left ==> v !in right
  {
    var both := left + right;
    if Distinct(left) && Distinct(right) && forall v :: v in left ==> v !in right {
      forall i, j | 0 <= i < j < |both|
        ensures both[i] != both[j]
      {
        if i < |left| <= j {
          assert both[i] in left && both[j] in right;
        }
      }
    }
    if Distinct(both) {
      DistinctParts(left, right);
    }
  }

  lemma DistinctParts(left: seq<View>, right: seq<View>)
    requires Distinct(left + right)
    ensures Distinct(left) && Distinct(right) && forall v :: v in left ==> v !in right
  {
    var both := left + right;
    assert forall i :: 0 <= i < |left| ==> both[i] == left[i];
    assert forall i :: 0 <= i < |right| ==> both[|left| + i] == right[i];
    forall i, j | 0 <= i < |left| && 0 <= j < |right|
      ensures left[i] != right[j]
    {
      assert both[i] != both[|left| + j];
    }
  }

  /** A sequence of views without one of them. */
  function Without(views: seq<View>, view: View): seq<View> {
    if views == [] then []
    else if views[0] == view then Without(views[1..], view)
    else [views[0]] + Without(views[1..], view)
  }

  /** A sequence of views with another put before or after one of them. */
  function Placed(views: seq<View>, view: View, target: View, side: Side): seq<View> {
    if views == [] then []
    else if views[0] == target then
      Pair(view, target, side) + Placed(views[1..], view, target, side)
    else [views[0]] + Placed(views[1..], view, target, side)
  }

  function Exchanged(views: seq<View>, first: View, second: View): seq<View> {
    if views == [] then []
    else
      [if views[0] == first then second else if views[0] == second then first else views[0]]
      + Exchanged(views[1..], first, second)
  }

  lemma {:induction false} WithoutJoin(left: seq<View>, right: seq<View>, view: View)
    ensures Without(left + right, view) == Without(left, view) + Without(right, view)
  {
    if left == [] {
      assert left + right == right;
    } else {
      assert (left + right)[1..] == left[1..] + right;
      WithoutJoin(left[1..], right, view);
    }
  }

  lemma {:induction false} PlacedJoin(left: seq<View>, right: seq<View>, view: View, target: View, side: Side)
    ensures Placed(left + right, view, target, side)
      == Placed(left, view, target, side) + Placed(right, view, target, side)
  {
    if left == [] {
      assert left + right == right;
    } else {
      hide Pair;
      assert (left + right)[1..] == left[1..] + right;
      PlacedJoin(left[1..], right, view, target, side);
      var head := if left[0] == target then Pair(view, target, side) else [left[0]];
      assert head + (Placed(left[1..], view, target, side) + Placed(right, view, target, side))
          == head + Placed(left[1..], view, target, side) + Placed(right, view, target, side);
    }
  }

  lemma {:induction false} ExchangedJoin(left: seq<View>, right: seq<View>, first: View, second: View)
    ensures Exchanged(left + right, first, second) == Exchanged(left, first, second) + Exchanged(right, first, second)
  {
    if left == [] {
      assert left + right == right;
    } else {
      assert (left + right)[1..] == left[1..] + right;
      ExchangedJoin(left[1..], right, first, second);
    }
  }

  /** Removing a view takes it, and nothing else, out of the reading order. */
  lemma {:induction false} RemoveViews(node: Node, view: View)
    ensures Remove(node, view).None? <==> Without(Views(node), view) == []
    ensures Remove(node, view).Some? ==> Views(Remove(node, view).value) == Without(Views(node), view)
    ensures RatiosIn(node) && Remove(node, view).Some? ==> RatiosIn(Remove(node, view).value)
  {
    match node
    case Pane(_) =>
    case Split(_, first, second, _) =>
      RemoveViews(first, view);
      RemoveViews(second, view);
      WithoutJoin(Views(first), Views(second), view);
  }

  lemma DockSplit(node: Node, view: View, target: View, side: Side)
    requires node.Split?
    ensures Dock(node, view, target, side)
         == Split(node.axis, Dock(node.first, view, target, side), Dock(node.second, view, target, side), node.ratio)
  {}

  lemma PlacedOne(item: View, view: View, target: View, side: Side)
    ensures Placed([item], view, target, side) == if item == target then Pair(view, target, side) else [item]
  {
    assert [item][1..] == [];
    assert Placed([], view, target, side) == [];
  }

  lemma DockPane(node: Node, view: View, target: View, side: Side)
    requires node.Pane?
    ensures Views(Dock(node, view, target, side)) == Placed(Views(node), view, target, side)
    ensures RatiosIn(Dock(node, view, target, side))
  {
    hide Placed;
    PlacedOne(node.view, view, target, side);
    if node == Pane(target) {
      assert Dock(node, view, target, side) == Beside(node, view, side);
    } else {
      assert Dock(node, view, target, side) == node;
    }
  }

  /** Docking puts the new view right before or after its target, and leaves
      the rest of the reading order alone. */
  lemma {:induction false} DockViews(node: Node, view: View, target: View, side: Side)
    ensures Views(Dock(node, view, target, side)) == Placed(Views(node), view, target, side)
    ensures RatiosIn(node) ==> RatiosIn(Dock(node, view, target, side))
  {
    hide Dock, Placed;
    match node
    case Pane(_) => DockPane(node, view, target, side);
    case Split(_, first, second, _) =>
      DockSplit(node, view, target, side);
      DockViews(first, view, target, side);
      DockViews(second, view, target, side);
      PlacedJoin(Views(first), Views(second), view, target, side);
  }

  lemma {:induction false} SwapViews(node: Node, first: View, second: View)
    ensures
      var swapped := Replace(node, n => n == Pane(first) || n == Pane(second),
        n => Pane(if n == Pane(first) then second else first));
      Views(swapped) == Exchanged(Views(node), first, second) && (RatiosIn(node) ==> RatiosIn(swapped))
  {
    match node
    case Pane(_) =>
    case Split(_, left, right, _) =>
      SwapViews(left, first, second);
      SwapViews(right, first, second);
      ExchangedJoin(Views(left), Views(right), first, second);
  }

  lemma {:induction false} WithoutIs(views: seq<View>, view: View)
    ensures forall v :: v in Without(views, view) <==> v in views && v != view
    ensures Distinct(views) ==> Distinct(Without(views, view))
    ensures view !in views ==> Without(views, view) == views
  {
    if views != [] {
      WithoutIs(views[1..], view);
      assert views == [views[0]] + views[1..];
      DistinctJoin([views[0]], views[1..]);
      DistinctJoin([views[0]], Without(views[1..], view));
    }
  }

  function Pair(view: View, target: View, side: Side): seq<View> {
    if side in {Left, Up} then [view, target] else [target, view]
  }

  lemma {:induction false} PlacedIs(views: seq<View>, view: View, target: View, side: Side)
    requires Distinct(views) && view !in views
    ensures forall v :: v in Placed(views, view, target, side) <==> v in views || (v == view && target in views)
    ensures Distinct(Placed(views, view, target, side))
    ensures target !in views ==> Placed(views, view, target, side) == views
  {
    if views != [] {
      var head, rest := views[0], views[1..];
      assert views == [head] + rest;
      DistinctJoin([head], rest);
      PlacedIs(rest, view, target, side);
      var placed := Placed(rest, view, target, side);
      if head == target {
        var pair := Pair(view, target, side);
        assert Placed(views, view, target, side) == pair + placed;
        assert Distinct(pair);
        DistinctJoin(pair, placed);
      } else {
        assert Distinct([head]);
        DistinctJoin([head], placed);
      }
    }
  }

  /** Taking the new view out again undoes the placing. */
  lemma {:induction false} PlacedWithout(views: seq<View>, view: View, target: View, side: Side)
    requires view !in views
    ensures Without(Placed(views, view, target, side), view) == views
  {
    if views != [] {
      var head, rest := views[0], views[1..];
      PlacedWithout(rest, view, target, side);
      var placed := Placed(rest, view, target, side);
      if head == target {
        var pair := Pair(view, target, side);
        WithoutJoin(pair, placed, view);
        assert pair[1..] == [pair[1]] && pair[1..][1..] == [];
        assert Without(pair[1..], view) == if pair[1] == view then [] else [pair[1]];
      } else {
        assert ([head] + placed)[1..] == placed;
      }
    }
  }

  lemma {:induction false} ExchangedIs(views: seq<View>, first: View, second: View)
    ensures |Exchanged(views, first, second)| == |views|
    ensures forall i :: 0 <= i < |views| ==>
      Exchanged(views, first, second)[i]
      == if views[i] == first then second else if views[i] == second then first else views[i]
  {
    if views != [] {
      ExchangedIs(views[1..], first, second);
    }
  }

  // ----- every run of operations -----

  datatype Operation =
    | Opening(view: View, target: View, side: Side)
    | Closing(view: View)
    | Moving(view: View, target: View, side: Side)
    | Swapping(first: View, second: View)
    | Resizing(path: seq<Turn>, ratio: Option<real>)
    | Focusing(view: View)
    | Arranging(preset: Preset)

  function Apply(layout: Layout, operation: Operation): Layout {
    match operation
    case Opening(view, target, side) => Open(layout, view, target, side)
    case Closing(view) => Close(layout, view)
    case Moving(view, target, side) => Move(layout, view, target, side)
    case Swapping(first, second) => Swap(layout, first, second)
    case Resizing(path, ratio) => Resize(layout, path, ratio)
    case Focusing(view) => Focus(layout, view)
    case Arranging(preset) => Arrange(layout, preset)
  }

  function Run(layout: Layout, operations: seq<Operation>): Layout {
    if operations == [] then layout
    else Apply(Run(layout, operations[..|operations| - 1]), operations[|operations| - 1])
  }

  lemma {:induction false} SuccessorShown(node: Node, view: View)
    requires Distinct(Views(node))
    ensures view !in Views(node) ==> Successor(node, view).None?
    ensures Successor(node, view).Some? ==>
      Successor(node, view).value in Views(node) && Successor(node, view).value != view
    ensures view in Views(node) && node != Pane(view) ==> Successor(node, view).Some?
  {
    if node.Split? {
      DistinctJoin(Views(node.first), Views(node.second));
      SuccessorShown(node.first, view);
      SuccessorShown(node.second, view);
    }
  }

  lemma OpenKeeps(layout: Layout, view: View, target: View, side: Side)
    requires Valid(layout)
    ensures Valid(Open(layout, view, target, side))
    ensures forall v :: v in Views(Open(layout, view, target, side).root) <==> v in Views(layout.root) || v == view
    ensures Open(layout, view, target, side).focused == view
  {
    if view !in Views(layout.root) {
      var anchor := if target in Views(layout.root) then target else Conversation;
      DockViews(layout.root, view, anchor, side);
      PlacedIs(Views(layout.root), view, anchor, side);
    }
  }

  lemma CloseKeeps(layout: Layout, view: View)
    requires Valid(layout)
    ensures Valid(Close(layout, view))
    ensures forall v :: v in Views(Close(layout, view).root) <==>
      v in Views(layout.root) && (v == Conversation || v != view)
    ensures view == Conversation || view !in Views(layout.root) ==> Close(layout, view) == layout
    ensures layout.focused != view ==> Close(layout, view).focused == layout.focused
  {
    var views := Views(layout.root);
    if view != Conversation && view in views {
      RemoveViews(layout.root, view);
      WithoutIs(views, view);
      SuccessorShown(layout.root, view);
    }
  }

  lemma MoveKeeps(layout: Layout, view: View, target: View, side: Side)
    requires Valid(layout)
    ensures Valid(Move(layout, view, target, side))
    ensures forall v :: v in Views(Move(layout, view, target, side).root) <==> v in Views(layout.root)
  {
    var views, rest := Views(layout.root), Remove(layout.root, view);
    if view != target && view in views && target in views && rest.Some? {
      RemoveViews(layout.root, view);
      WithoutIs(views, view);
      DockViews(rest.value, view, target, side);
      PlacedIs(Views(rest.value), view, target, side);
    }
  }

  lemma ExchangedKeeps(views: seq<View>, first: View, second: View)
    requires Distinct(views) && first in views && second in views
    ensures Distinct(Exchanged(views, first, second))
    ensures forall v :: v in Exchanged(views, first, second) <==> v in views
  {
    hide Exchanged;
    ExchangedIs(views, first, second);
    var swapped := Exchanged(views, first, second);
    forall v
      ensures v in swapped <==> v in views
    {
      var other := if v == first then second else if v == second then first else v;
      if v in views {
        assert other in views;
        var i :| 0 <= i < |views| && views[i] == other;
        assert swapped[i] == v;
      }
      if v in swapped {
        var i :| 0 <= i < |swapped| && swapped[i] == v;
        assert views[i] == other;
      }
    }
  }

  lemma SwapKeeps(layout: Layout, first: View, second: View)
    requires Valid(layout)
    ensures Valid(Swap(layout, first, second))
    ensures forall v :: v in Views(Swap(layout, first, second).root) <==> v in Views(layout.root)
    ensures if first != second && first in Views(layout.root) && second in Views(layout.root) then
        && Views(Swap(layout, first, second).root) == Exchanged(Views(layout.root), first, second)
        && Swap(layout, first, second).focused == first
      else Swap(layout, first, second) == layout
  {
    var views := Views(layout.root);
    if first != second && first in views && second in views {
      SwapViews(layout.root, first, second);
      ExchangedKeeps(views, first, second);
      hide Views, Exchanged, RatiosIn, Replace, Distinct;
    }
  }

  /** Every operation keeps the arrangement valid, on any arguments. */
  lemma ApplyKeeps(layout: Layout, operation: Operation)
    requires Valid(layout)
    ensures Valid(Apply(layout, operation))
  {
    match operation
    case Opening(view, target, side) => OpenKeeps(layout, view, target, side);
    case Closing(view) => CloseKeeps(layout, view);
    case Moving(view, target, side) => MoveKeeps(layout, view, target, side);
    case Swapping(first, second) => SwapKeeps(layout, first, second);
    case Resizing(path, ratio) => ResizeIsLocal(layout, path, ratio, []);
    case Focusing(view) => FocusKeeps(layout, view);
    case Arranging(preset) => ArrangeKeeps(layout, preset);
  }

  lemma FocusKeeps(layout: Layout, view: View)
    requires Valid(layout)
    ensures Valid(Focus(layout, view)) && Focus(layout, view).root == layout.root
    ensures Focus(layout, view).focused == if view in Views(layout.root) then view else layout.focused
  {}

  lemma ArrangeKeeps(layout: Layout, preset: Preset)
    ensures Valid(Arrange(layout, preset))
    ensures layout.focused in Views(Arrange(layout, preset).root) ==> Arrange(layout, preset).focused == layout.focused
  {}

  lemma {:induction false} EveryRun(layout: Layout, operations: seq<Operation>)
    requires Valid(layout)
    ensures Valid(Run(layout, operations))
    ensures forall path :: SplitAt(Run(layout, operations).root, path).Some? ==>
      0.05 <= SplitAt(Run(layout, operations).root, path).value.ratio <= 0.95
  {
    if operations != [] {
      EveryRun(layout, operations[..|operations| - 1]);
      ApplyKeeps(Run(layout, operations[..|operations| - 1]), operations[|operations| - 1]);
    }
    forall path | SplitAt(Run(layout, operations).root, path).Some?
      ensures 0.05 <= SplitAt(Run(layout, operations).root, path).value.ratio <= 0.95
    {
      RatioWithin(Run(layout, operations).root, path);
    }
  }

  ghost predicate Did(before: Layout, operation: Operation, after: Layout) {
    match operation
    case Opening(view, target, side) => after == Open(before, view, target, side)
    case Closing(view) => after == Close(before, view)
    case Moving(view, target, side) => after == Move(before, view, target, side)
    case Swapping(first, second) => after == Swap(before, first, second)
    case Resizing(path, ratio) => after == Resize(before, path, ratio)
    case Focusing(view) => after == Focus(before, view)
    case Arranging(preset) => after == Arrange(before, preset)
  }

  /** A run does its operations one after another. */
  lemma RunIs(layout: Layout, operations: seq<Operation>, operation: Operation)
    ensures Run(layout, []) == layout
    ensures Did(Run(layout, operations), operation, Run(layout, operations + [operation]))
  {
    assert (operations + [operation])[..|operations|] == operations;
  }

  lemma {:induction false} RatioWithin(node: Node, path: seq<Turn>)
    requires RatiosIn(node) && SplitAt(node, path).Some?
    ensures 0.05 <= SplitAt(node, path).value.ratio <= 0.95
    decreases |path|
  {
    if path != [] {
      RatioWithin(if path[0] == ToFirst then node.first else node.second, path[1..]);
    }
  }

  // ----- where a docked view stands -----

  function NodeAt(node: Node, path: seq<Turn>): Option<Node> {
    if path == [] then Some(node)
    else if node.Pane? then None
    else NodeAt(if path[0] == ToFirst then node.first else node.second, path[1..])
  }

  function WithNodeAt(node: Node, path: seq<Turn>, part: Node): Node {
    if path == [] then part
    else if node.Pane? then node
    else if path[0] == ToFirst then node.(first := WithNodeAt(node.first, path[1..], part))
    else node.(second := WithNodeAt(node.second, path[1..], part))
  }

  /** Left and right put the new view in a row with its target, up and down in a
      column, in equal halves; nothing else in the tree changes. */
  lemma {:induction false} DocksBeside(node: Node, path: seq<Turn>, view: View, target: View, side: Side)
    requires Distinct(Views(node)) && NodeAt(node, path) == Some(Pane(target))
    ensures Dock(node, view, target, side) == WithNodeAt(node, path,
      match side
      case Left => Split(Row, Pane(view), Pane(target), 0.5)
      case Right => Split(Row, Pane(target), Pane(view), 0.5)
      case Up => Split(Column, Pane(view), Pane(target), 0.5)
      case Down => Split(Column, Pane(target), Pane(view), 0.5))
    decreases |path|
  {
    if path != [] {
      var inside, outside :=
        if path[0] == ToFirst then node.first else node.second, if path[0] == ToFirst then node.second else node.first;
      DistinctJoin(Views(node.first), Views(node.second));
      NodeViews(inside, path[1..]);
      DocksBeside(inside, path[1..], view, target, side);
      DockNothing(outside, view, target, side);
    }
  }

  lemma {:induction false} NodeViews(node: Node, path: seq<Turn>)
    requires NodeAt(node, path).Some?
    ensures forall v :: v in Views(NodeAt(node, path).value) ==> v in Views(node)
    decreases |path|
  {
    if path != [] {
      NodeViews(if path[0] == ToFirst then node.first else node.second, path[1..]);
    }
  }

  /** Every view that is shown stands at the end of a path. */
  lemma {:induction false} PathTo(node: Node, view: View) returns (path: seq<Turn>)
    requires view in Views(node)
    ensures NodeAt(node, path) == Some(Pane(view))
  {
    if node.Pane? {
      path := [];
    } else if view in Views(node.first) {
      var rest := PathTo(node.first, view);
      path := [ToFirst] + rest;
    } else {
      var rest := PathTo(node.second, view);
      path := [ToSecond] + rest;
    }
  }

  lemma {:induction false} DockNothing(node: Node, view: View, target: View, side: Side)
    requires target !in Views(node)
    ensures Dock(node, view, target, side) == node
  {
    if node.Split? {
      DockNothing(node.first, view, target, side);
      DockNothing(node.second, view, target, side);
    }
  }

  lemma {:induction false} NodePrefix(node: Node, path: seq<Turn>, turn: Turn)
    requires NodeAt(node, path + [turn]).Some?
    ensures NodeAt(node, path).Some? && NodeAt(node, path).value.Split?
    ensures NodeAt(node, path + [turn]).value ==
      if turn == ToFirst then NodeAt(node, path).value.first else NodeAt(node, path).value.second
    decreases |path|
  {
    if path != [] {
      assert (path + [turn])[1..] == path[1..] + [turn];
      NodePrefix(if path[0] == ToFirst then node.first else node.second, path[1..], turn);
    }
  }

  lemma {:induction false} SuccessorIs(node: Node, path: seq<Turn>, turn: Turn, view: View)
    requires Distinct(Views(node)) && NodeAt(node, path + [turn]) == Some(Pane(view))
    ensures NodeAt(node, path).Some? && NodeAt(node, path).value.Split?
    ensures Successor(node, view) == Some(
      Views(if turn == ToFirst then NodeAt(node, path).value.second else NodeAt(node, path).value.first)[0])
    decreases |path|
  {
    NodePrefix(node, path, turn);
    if path != [] {
      var inside, outside :=
        if path[0] == ToFirst then node.first else node.second, if path[0] == ToFirst then node.second else node.first;
      assert (path + [turn])[1..] == path[1..] + [turn];
      DistinctJoin(Views(node.first), Views(node.second));
      NodeViews(inside, path[1..] + [turn]);
      SuccessorIs(inside, path[1..], turn, view);
      SuccessorShown(outside, view);
      assert view in Views(inside) && view !in Views(outside);
      NodePrefix(inside, path[1..], turn);
      assert inside != Pane(view);
      assert Views(outside) != [] && Views(outside)[0] != view;
    }
  }

  /** Closing the focused pane moves the focus to the first view of its sibling,
      which takes its place. */
  lemma CloseFocuses(layout: Layout, path: seq<Turn>, turn: Turn)
    requires Valid(layout) && NodeAt(layout.root, path + [turn]) == Some(Pane(layout.focused))
    requires layout.focused != Conversation
    ensures NodeAt(layout.root, path).Some? && NodeAt(layout.root, path).value.Split?
    ensures
      var parent := NodeAt(layout.root, path).value;
      Close(layout, layout.focused).focused == Views(if turn == ToFirst then parent.second else parent.first)[0]
  {
    SuccessorIs(layout.root, path, turn, layout.focused);
  }

  /** The presets: the conversation alone; left of the terminal; and left of the
      terminal above the changes. The focus stays where the view is still shown,
      and goes to the conversation when not. */
  lemma PresetsArrange(layout: Layout, preset: Preset)
    ensures
      var arranged := Arrange(layout, preset);
      && Views(arranged.root) == (match preset
           case OnlyConversation => [Conversation]
           case WithTerminal => [Conversation, Terminal]
           case Review => [Conversation, Terminal, Changes])
      && arranged.focused == (
        if layout.focused == Conversation || (layout.focused == Terminal && preset != OnlyConversation)
           || (layout.focused == Changes && preset == Review)
        then layout.focused else Conversation)
      && (preset == WithTerminal ==>
        SplitAt(arranged.root, []) == Some(arranged.root) && arranged.root.axis == Row && arranged.root.ratio == 0.6)
      && (preset == Review ==>
        && arranged.root.axis == Row && arranged.root.ratio == 0.55 && arranged.root.first == Pane(Conversation)
        && arranged.root.second.axis == Column && arranged.root.second.ratio == 0.5)
  {}

  // ----- what one operation undoes -----

  lemma {:induction false} RemoveUndoesDock(node: Node, view: View, target: View, side: Side)
    requires view !in Views(node)
    ensures Remove(Dock(node, view, target, side), view) == Some(node)
  {
    if node.Split? {
      RemoveUndoesDock(node.first, view, target, side);
      RemoveUndoesDock(node.second, view, target, side);
    }
  }

  lemma {:induction false} DockedSuccessor(node: Node, view: View, target: View, side: Side)
    requires view !in Views(node) && view != target && Distinct(Views(node))
    ensures Successor(Dock(node, view, target, side), view) == if target in Views(node) then Some(target) else None
  {
    if node.Split? {
      DistinctJoin(Views(node.first), Views(node.second));
      DockedSuccessor(node.first, view, target, side);
      DockedSuccessor(node.second, view, target, side);
      DockIsNot(node.first, view, target, side);
      DockIsNot(node.second, view, target, side);
    }
  }

  lemma DockIsNot(node: Node, view: View, target: View, side: Side)
    requires view !in Views(node)
    ensures Dock(node, view, target, side) != Pane(view)
  {}

  /** Closing a view that was just opened restores the arrangement, with the
      focus on the view it was opened beside. */
  lemma CloseUndoesOpen(layout: Layout, view: View, target: View, side: Side)
    requires Valid(layout) && view !in Views(layout.root)
    ensures Close(Open(layout, view, target, side), view)
         == Layout(layout.root, if target in Views(layout.root) then target else Conversation)
    ensures Close(Open(layout, view, layout.focused, side), view) == layout
  {
    var anchor := if target in Views(layout.root) then target else Conversation;
    OpenKeeps(layout, view, target, side);
    RemoveUndoesDock(layout.root, view, anchor, side);
    DockedSuccessor(layout.root, view, anchor, side);
    OpenKeeps(layout, view, layout.focused, side);
    RemoveUndoesDock(layout.root, view, layout.focused, side);
    DockedSuccessor(layout.root, view, layout.focused, side);
  }

  /** Moving a view is closing it and opening it again beside its target. */
  lemma MoveIsCloseThenOpen(layout: Layout, view: View, target: View, side: Side)
    requires Valid(layout) && view in Views(layout.root) && target in Views(layout.root)
    requires view != target && view != Conversation
    ensures Move(layout, view, target, side) == Open(Close(layout, view), view, target, side)
  {
    CloseKeeps(layout, view);
    RemoveViews(layout.root, view);
    WithoutIs(Views(layout.root), view);
  }

  lemma {:induction false} SwapTwice(node: Node, first: View, second: View)
    ensures
      var swap := (n: Node) => Replace(n, m => m == Pane(first) || m == Pane(second),
        m => Pane(if m == Pane(first) then second else first));
      swap(swap(node)) == node
  {
    if node.Split? {
      SwapTwice(node.first, first, second);
      SwapTwice(node.second, first, second);
    }
  }

  /** Swapping twice changes nothing but the focus. */
  lemma SwapUndoesSwap(layout: Layout, first: View, second: View)
    requires Valid(layout)
    ensures Swap(Swap(layout, first, second), first, second).root == layout.root
  {
    SwapKeeps(layout, first, second);
    SwapTwice(layout.root, first, second);
  }

  // ----- resizing -----

  function WithRatioAt(node: Node, path: seq<Turn>, ratio: real): Node {
    if node.Pane? then node
    else if path == [] then node.(ratio := ratio)
    else if path[0] == ToFirst then node.(first := WithRatioAt(node.first, path[1..], ratio))
    else node.(second := WithRatioAt(node.second, path[1..], ratio))
  }

  lemma {:induction false} SplitAtViews(node: Node, path: seq<Turn>)
    ensures SplitAt(node, path).Some? ==> forall v :: v in Views(SplitAt(node, path).value) ==> v in Views(node)
    decreases |path|
  {
    if node.Split? && path != [] {
      SplitAtViews(if path[0] == ToFirst then node.first else node.second, path[1..]);
    }
  }

  lemma {:induction false} ReplaceNothing(node: Node, target: Node, ratio: real)
    requires forall v :: v in Views(target) ==> v !in Views(node)
    ensures Replace(node, n => n == target, n => WithRatio(n, ratio)) == node
  {
    assert Views(target)[0] in Views(target);
    if node.Split? {
      ReplaceNothing(node.first, target, ratio);
      ReplaceNothing(node.second, target, ratio);
    }
  }

  /** No other split has the same views, so replacing the split found at a path
      replaces that one alone. */
  lemma {:induction false} ReplaceIsLocal(node: Node, path: seq<Turn>, ratio: real)
    requires Distinct(Views(node)) && SplitAt(node, path).Some?
    ensures Replace(node, n => n == SplitAt(node, path).value, n => WithRatio(n, ratio))
      == WithRatioAt(node, path, ratio)
    decreases |path|
  {
    if path != [] {
      var target := SplitAt(node, path).value;
      var inside := if path[0] == ToFirst then node.first else node.second;
      var outside := if path[0] == ToFirst then node.second else node.first;
      DistinctJoin(Views(node.first), Views(node.second));
      SplitAtViews(inside, path[1..]);
      assert forall v :: v in Views(target) ==> v !in Views(outside);
      assert node != target by {
        assert Views(outside)[0] in Views(node);
      }
      ReplaceIsLocal(inside, path[1..], ratio);
      ReplaceNothing(outside, target, ratio);
    }
  }

  lemma {:induction false} WithRatioAtIs(node: Node, path: seq<Turn>, ratio: real, other: seq<Turn>)
    requires SplitAt(node, path).Some?
    ensures Views(WithRatioAt(node, path, ratio)) == Views(node)
    ensures RatiosIn(node) && MIN_RATIO <= ratio <= MAX_RATIO ==> RatiosIn(WithRatioAt(node, path, ratio))
    ensures SplitAt(WithRatioAt(node, path, ratio), other).Some? <==> SplitAt(node, other).Some?
    ensures SplitAt(node, other).Some? ==>
      var now := SplitAt(WithRatioAt(node, path, ratio), other).value;
      now.axis == SplitAt(node, other).value.axis
      && now.ratio == if other == path then ratio else SplitAt(node, other).value.ratio
    decreases |path|
  {
    if path == [] {
      if other != [] && node.Split? {
        SplitAtViews(if other[0] == ToFirst then node.first else node.second, other[1..]);
      }
    } else {
      var inside := if path[0] == ToFirst then node.first else node.second;
      if other != [] && other[0] == path[0] {
        WithRatioAtIs(inside, path[1..], ratio, other[1..]);
        assert other == path <==> other[1..] == path[1..] by {
          assert other == [other[0]] + other[1..] && path == [path[0]] + path[1..];
        }
      } else {
        WithRatioAtIs(inside, path[1..], ratio, []);
        if other != [] {
          SplitAtViews(if other[0] == ToFirst then node.first else node.second, other[1..]);
        }
      }
    }
  }

  /** Resizing changes the ratio of the split at its path and of no other: every
      path leads to a split exactly when it did, with its axis and, off the
      path, its ratio. */
  lemma ResizeIsLocal(layout: Layout, path: seq<Turn>, ratio: Option<real>, other: seq<Turn>)
    requires Valid(layout)
    ensures Valid(Resize(layout, path, ratio)) && Resize(layout, path, ratio).focused == layout.focused
    ensures Views(Resize(layout, path, ratio).root) == Views(layout.root)
    ensures
      var before, after := SplitAt(layout.root, other), SplitAt(Resize(layout, path, ratio).root, other);
      && (after.Some? <==> before.Some?) && (before.Some? ==> after.value.axis == before.value.axis)
      && (before.Some? ==>
        after.value.ratio ==
        if other != path || ratio.None? then before.value.ratio
        else if ratio.value < 0.05 then 0.05 else if ratio.value > 0.95 then 0.95 else ratio.value)
  {
    var target := SplitAt(layout.root, path);
    if target.Some? && ratio.Some? {
      SplitAtViews(layout.root, path);
      ReplaceIsLocal(layout.root, path, Clamp(ratio.value));
      WithRatioAtIs(layout.root, path, Clamp(ratio.value), other);
    }
  }
}
