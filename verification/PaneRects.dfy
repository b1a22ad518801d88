/** The pixel rectangles of an arrangement's panes and separators. */
module PaneRects {
  import opened Basics
  import opened PaneLayout

  datatype Dimension = Width | Height

  datatype Rect = Rect(x: int, y: int, width: int, height: int)

  datatype Placement = Placement(view: View, rect: Rect)

  /** A separator, the split it belongs to, and how far it may be dragged. */
  datatype Separator = Separator(path: seq<Turn>, axis: Axis, start: int, available: int, size: int, min: int, max: int,
      rect: Rect)

  const SEPARATOR := 6

  function Least(view: View, dimension: Dimension): int {
    match view
    case Conversation => if dimension == Width then 320 else 400
    case Changes => if dimension == Width then 280 else 340
    case Terminal => if dimension == Width then 260 else 200
    case Context => if dimension == Width then 240 else 180
  }

  function Minimum(node: Node, dimension: Dimension): (least: int)
    ensures least > 0
  {
    match node
    case Pane(view) => Least(view, dimension)
    case Split(axis, first, second, _) =>
      if (axis == Row) == (dimension == Width) then Minimum(first, dimension) + Minimum(second, dimension) + SEPARATOR
      else Max(Minimum(first, dimension), Minimum(second, dimension))
  }

  /** Rounding to the nearest integer, halves up. */
  function Round(value: real): int {
    (value + 0.5).Floor
  }

  function Extent(axis: Axis, area: Rect): int {
    if axis == Row then area.width else area.height
  }

  function Available(axis: Axis, area: Rect): int {
    Max(0, Extent(axis, area) - SEPARATOR)
  }

  /** How much of a split's area its first half gets, and between what bounds. */
  function Bounds(node: Node, area: Rect): (int, int)
    requires node.Split?
  {
    var dimension := if node.axis == Row then Width else Height;
    var available := Available(node.axis, area);
    var min, max := Minimum(node.first, dimension), available - Minimum(node.second, dimension);
    if min > max then (0, available) else (min, max)
  }

  function Share(node: Node, area: Rect): int
    requires node.Split?
  {
    var bounds := Bounds(node, area);
    Min(bounds.1, Max(bounds.0, Wanted(node, Available(node.axis, area))))
  }

  /** What the ratio alone would give the first half. */
  function Wanted(node: Node, available: int): int
    requires node.Split?
  {
    Round(node.ratio * available as real)
  }

  function FirstArea(node: Node, area: Rect): Rect
    requires node.Split?
  {
    if node.axis == Row then area.(width := Share(node, area)) else area.(height := Share(node, area))
  }

  function Between(node: Node, area: Rect): Rect
    requires node.Split?
  {
    var first := Share(node, area);
    if node.axis == Row then Rect(area.x + first, area.y, SEPARATOR, area.height)
    else Rect(area.x, area.y + first, area.width, SEPARATOR)
  }

  function SecondArea(node: Node, area: Rect): Rect
    requires node.Split?
  {
    var first := Share(node, area);
    var second := Available(node.axis, area) - first;
    if node.axis == Row then Rect(area.x + first + SEPARATOR, area.y, second, area.height)
    else Rect(area.x, area.y + first + SEPARATOR, area.width, second)
  }

  function SeparatorOf(node: Node, area: Rect, path: seq<Turn>): Separator
    requires node.Split?
  {
    var bounds := Bounds(node, area);
    Separator(path, node.axis, if node.axis == Row then area.x else area.y, Available(node.axis, area),
              Share(node, area), bounds.0, bounds.1, Between(node, area))
  }

  function Panes(node: Node, area: Rect): seq<Placement> {
    if node.Pane? then [Placement(node.view, area)]
    else Panes(node.first, FirstArea(node, area)) + Panes(node.second, SecondArea(node, area))
  }

  function Separators(node: Node, area: Rect, path: seq<Turn>): seq<Separator> {
    if node.Pane? then []
    else
      [SeparatorOf(node, area, path)]
      + Separators(node.first, FirstArea(node, area), path + [ToFirst])
      + Separators(node.second, SecondArea(node, area), path + [ToSecond])
  }

  predicate Large(placement: Placement) {
    placement.rect.width >= Least(placement.view, Width) && placement.rect.height >= Least(placement.view, Height)
  }

  predicate AllLarge(node: Node, area: Rect) {
    if node.Pane? then Large(Placement(node.view, area))
    else AllLarge(node.first, FirstArea(node, area)) && AllLarge(node.second, SecondArea(node, area))
  }

  predicate Roomy(node: Node, width: int, height: int) {
    width >= Minimum(node, Width) && height >= Minimum(node, Height)
  }

  function Whole(width: int, height: int): Rect {
    Rect(0, 0, Max(0, width), Max(0, height))
  }

  predicate Fits(root: Node, width: int, height: int) {
    Roomy(root, width, height) && AllLarge(root, Whole(width, height))
  }

  /** The rectangles as they are collected, one pane or separator at a time. */
  class Canvas {
    var panes: seq<Placement>
    var separators: seq<Separator>
    var fits: bool

    constructor (fits: bool)
      ensures panes == [] && separators == [] && this.fits == fits
    {
      panes, separators, this.fits := [], [], fits;
    }

    method Place(node: Node, area: Rect, path: seq<Turn>)
      modifies this
      ensures panes == old(panes) + Panes(node, area)
      ensures separators == old(separators) + Separators(node, area, path)
      ensures fits <==> old(fits) && AllLarge(node, area)
      decreases node
    {
      if node.Pane? {
        PlacePane(node.view, area);
        Leaf(node, area, path);
        assert separators + [] == separators;
        return;
      }
      Unfold(node, area, path);
      hide *;
      ghost var was := (panes, separators, fits);
      var first, min, max := FirstSize(node, area);
      var separator, left, right := Halves(node, area, path, first, min, max);
      separators := separators + [separator];
      Place(node.first, left, path + [ToFirst]);
      Place(node.second, right, path + [ToSecond]);
      ThreeParts(was.0, [], Panes(node.first, left), Panes(node.second, right));
      ThreeParts(was.1, [separator], Separators(node.first, left, path + [ToFirst]),
                 Separators(node.second, right, path + [ToSecond]));
    }

    method PlacePane(view: View, area: Rect)
      modifies this
      ensures panes == old(panes) + [Placement(view, area)] && separators == old(separators)
      ensures fits <==> old(fits) && Large(Placement(view, area))
    {
      if area.width < Least(view, Width) || area.height < Least(view, Height) {
        fits := false;
      }
      panes := panes + [Placement(view, area)];
    }
  }

  lemma Leaf(node: Node, area: Rect, path: seq<Turn>)
    requires node.Pane?
    ensures Panes(node, area) == [Placement(node.view, area)] && Separators(node, area, path) == []
    ensures AllLarge(node, area) <==> Large(Placement(node.view, area))
  {}

  method Halves(node: Node, area: Rect, path: seq<Turn>, first: int, min: int, max: int)
    returns (separator: Separator, left: Rect, right: Rect)
    requires node.Split? && first == Share(node, area) && (min, max) == Bounds(node, area)
    ensures separator == SeparatorOf(node, area, path)
    ensures left == FirstArea(node, area) && right == SecondArea(node, area)
  {
    var available := Available(node.axis, area);
    if node.axis == Row {
      var rect := Rect(area.x + first, area.y, SEPARATOR, area.height);
      separator := Separator(path, node.axis, area.x, available, first, min, max, rect);
      left := Rect(area.x, area.y, first, area.height);
      right := Rect(area.x + first + SEPARATOR, area.y, available - first, area.height);
    } else {
      var rect := Rect(area.x, area.y + first, area.width, SEPARATOR);
      separator := Separator(path, node.axis, area.y, available, first, min, max, rect);
      left := Rect(area.x, area.y, area.width, first);
      right := Rect(area.x, area.y + first + SEPARATOR, area.width, available - first);
    }
  }

  lemma ThreeParts<T>(was: seq<T>, head: seq<T>, left: seq<T>, right: seq<T>)
    ensures was + head + left + right == was + (head + left + right)
    ensures head == [] ==> was + left + right == was + (left + right)
  {}

  lemma Unfold(node: Node, area: Rect, path: seq<Turn>)
    requires node.Split?
    ensures Panes(node, area) == Panes(node.first, FirstArea(node, area)) + Panes(node.second, SecondArea(node, area))
    ensures Separators(node, area, path) ==
            [SeparatorOf(node, area, path)]
            + Separators(node.first, FirstArea(node, area), path + [ToFirst])
            + Separators(node.second, SecondArea(node, area), path + [ToSecond])
    ensures AllLarge(node, area) <==>
      AllLarge(node.first, FirstArea(node, area)) && AllLarge(node.second, SecondArea(node, area))
  {}

  method FirstSize(node: Node, area: Rect) returns (first: int, min: int, max: int)
    requires node.Split?
    ensures first == Share(node, area) && (min, max) == Bounds(node, area)
  {
    hide Wanted, Minimum;
    var dimension := if node.axis == Row then Width else Height;
    var available := Max(0, (if node.axis == Row then area.width else area.height) - SEPARATOR);
    first := Wanted(node, available);
    min, max := Minimum(node.first, dimension), available - Minimum(node.second, dimension);
    if min > max {
      min, max := 0, available;
    }
    first := Min(max, Max(min, first));
  }

  method ComputeRects(root: Node, width: int, height: int)
    returns (panes: seq<Placement>, separators: seq<Separator>, fits: bool)
    ensures panes == Panes(root, Whole(width, height))
    ensures separators == Separators(root, Whole(width, height), [])
    ensures fits == Fits(root, width, height)
  {
    var canvas := new Canvas(width >= Minimum(root, Width) && height >= Minimum(root, Height));
    canvas.Place(root, Whole(width, height), []);
    panes, separators, fits := canvas.panes, canvas.separators, canvas.fits;
  }

  // ----- what the rectangles are -----

  /** In an area that is large enough, a split gives each half at least its
      minimum and loses nothing. */
  lemma SplitsFairly(node: Node, area: Rect)
    requires node.Split? && Roomy(node, area.width, area.height)
    ensures Roomy(node.first, FirstArea(node, area).width, FirstArea(node, area).height)
    ensures Roomy(node.second, SecondArea(node, area).width, SecondArea(node, area).height)
    ensures Extent(node.axis, FirstArea(node, area)) + SEPARATOR + Extent(node.axis, SecondArea(node, area))
      == Extent(node.axis, area)
    ensures Bounds(node, area).0 <= Share(node, area) <= Bounds(node, area).1
  {}

  /** Meeting the tree's minimum is enough for every pane to get its own. */
  lemma {:induction false} RoomyIsLarge(node: Node, area: Rect)
    requires Roomy(node, area.width, area.height)
    ensures AllLarge(node, area)
  {
    if node.Split? {
      SplitsFairly(node, area);
      RoomyIsLarge(node.first, FirstArea(node, area));
      RoomyIsLarge(node.second, SecondArea(node, area));
    }
  }

  lemma {:induction false} LargeEach(node: Node, area: Rect)
    ensures AllLarge(node, area) <==> forall p :: p in Panes(node, area) ==> Large(p)
  {
    if node.Split? {
      LargeEach(node.first, FirstArea(node, area));
      LargeEach(node.second, SecondArea(node, area));
    } else {
      assert Placement(node.view, area) in Panes(node, area);
    }
  }

  /** Where every pane gets its own minimum, the area meets the tree's. */
  lemma {:induction false} LargeIsRoomy(node: Node, area: Rect)
    requires AllLarge(node, area)
    ensures Roomy(node, area.width, area.height)
  {
    if node.Split? {
      LargeIsRoomy(node.first, FirstArea(node, area));
      LargeIsRoomy(node.second, SecondArea(node, area));
    }
  }

  /** A pane is as large as its view needs, in pixels. */
  ghost predicate HasRoom(p: Placement) {
    match p.view
    case Conversation => p.rect.width >= 320 && p.rect.height >= 400
    case Changes => p.rect.width >= 280 && p.rect.height >= 340
    case Terminal => p.rect.width >= 260 && p.rect.height >= 200
    case Context => p.rect.width >= 240 && p.rect.height >= 180
  }

  /** `fits` holds exactly when every pane that is placed has the room its view
      needs, which is when the area meets the minimum of the tree. */
  lemma FitsExactly(root: Node, width: int, height: int)
    ensures Fits(root, width, height) <==> forall p :: p in Panes(root, Whole(width, height)) ==> HasRoom(p)
    ensures Fits(root, width, height) <==> width >= Minimum(root, Width) && height >= Minimum(root, Height)
  {
    var area := Whole(width, height);
    assert forall p: Placement :: Large(p) <==> HasRoom(p);
    LargeEach(root, area);
    if Roomy(root, width, height) {
      RoomyIsLarge(root, area);
    }
    if AllLarge(root, area) {
      LargeIsRoomy(root, area);
    }
  }

  /** The first half of a split is its ratio of what is available, rounded to the
      nearest pixel, unless a half would get less than its minimum though both
      could have it. The second half is the rest. */
  lemma FollowsRatio(node: Node, area: Rect) returns (wanted: int)
    requires node.Split?
    ensures
      var dimension, extent :=
        if node.axis == Row then Width else Height, if node.axis == Row then area.width else area.height;
      var available := if extent < 6 then 0 else extent - 6;
      var low, high := Minimum(node.first, dimension), available - Minimum(node.second, dimension);
      var first, second := Extent(node.axis, FirstArea(node, area)), Extent(node.axis, SecondArea(node, area));
      && first + second == available && -0.5 < wanted as real - node.ratio * available as real <= 0.5
      && first == (
        if low <= high then (if wanted < low then low else if wanted > high then high else wanted)
        else if wanted < 0 then 0 else if wanted > available then available else wanted)
  {
    hide Minimum;
    wanted := Wanted(node, Available(node.axis, area));
  }

  /** Each view is placed once, in reading order. */
  lemma {:induction false} PanesAreViews(node: Node, area: Rect)
    ensures |Panes(node, area)| == |Views(node)|
    ensures forall i :: 0 <= i < |Views(node)| ==> Panes(node, area)[i].view == Views(node)[i]
  {
    if node.Split? {
      PanesAreViews(node.first, FirstArea(node, area));
      PanesAreViews(node.second, SecondArea(node, area));
    }
  }

  predicate Inside(inner: Rect, outer: Rect) {
    && outer.x <= inner.x && inner.x + inner.width <= outer.x + outer.width
    && outer.y <= inner.y && inner.y + inner.height <= outer.y + outer.height
  }

  predicate Apart(a: Rect, b: Rect) {
    || a.x + a.width <= b.x || b.x + b.width <= a.x
    || a.y + a.height <= b.y || b.y + b.height <= a.y
  }

  function Rects(node: Node, area: Rect): seq<Rect> {
    if node.Pane? then [area]
    else [Between(node, area)] + Rects(node.first, FirstArea(node, area)) + Rects(node.second, SecondArea(node, area))
  }

  /** These are the rectangles of all panes and separators. */
  lemma {:induction false} RectsAreAll(node: Node, area: Rect, path: seq<Turn>)
    ensures forall p :: p in Panes(node, area) ==> p.rect in Rects(node, area)
    ensures forall s :: s in Separators(node, area, path) ==> s.rect in Rects(node, area)
    ensures |Rects(node, area)| == |Panes(node, area)| + |Separators(node, area, path)|
  {
    if node.Split? {
      RectsAreAll(node.first, FirstArea(node, area), path + [ToFirst]);
      RectsAreAll(node.second, SecondArea(node, area), path + [ToSecond]);
    }
  }

  ghost predicate AllInside(rects: seq<Rect>, area: Rect) {
    forall i :: 0 <= i < |rects| ==> Inside(rects[i], area) && rects[i].width > 0 && rects[i].height > 0
  }

  ghost predicate AllApart(rects: seq<Rect>) {
    forall i, j :: 0 <= i < j < |rects| ==> Apart(rects[i], rects[j])
  }

  lemma JoinApart(left: seq<Rect>, right: seq<Rect>, leftArea: Rect, rightArea: Rect)
    requires AllInside(left, leftArea) && AllInside(right, rightArea) && Apart(leftArea, rightArea)
    requires AllApart(left) && AllApart(right)
    ensures AllApart(left + right)
  {
    var both := left + right;
    forall i, j | 0 <= i < j < |both|
      ensures Apart(both[i], both[j])
    {
      if i < |left| <= j {
        assert Inside(left[i], leftArea) && Inside(right[j - |left|], rightArea);
      }
    }
  }

  lemma JoinInside(left: seq<Rect>, right: seq<Rect>, leftArea: Rect, rightArea: Rect, area: Rect)
    requires AllInside(left, leftArea) && AllInside(right, rightArea) && Inside(leftArea, area)
      && Inside(rightArea, area)
    ensures AllInside(left + right, area)
  {}

  function Area(rect: Rect): int {
    rect.width * rect.height
  }

  function TotalArea(rects: seq<Rect>): int {
    if rects == [] then 0 else Area(rects[0]) + TotalArea(rects[1..])
  }

  lemma {:induction false} TotalJoin(left: seq<Rect>, right: seq<Rect>)
    ensures TotalArea(left + right) == TotalArea(left) + TotalArea(right)
  {
    if left == [] {
      assert left + right == right;
    } else {
      assert (left + right)[1..] == left[1..] + right;
      TotalJoin(left[1..], right);
    }
  }

  lemma Distribute(a: int, b: int, c: int, height: int)
    ensures (a + b + c) * height == a * height + b * height + c * height
  {}

  ghost predicate Adjoin(axis: Axis, first: Rect, between: Rect, second: Rect, area: Rect) {
    if axis == Row then
      && first == area.(width := first.width) && between == Rect(area.x + first.width, area.y, SEPARATOR, area.height)
      && second == Rect(area.x + first.width + SEPARATOR, area.y, second.width, area.height)
      && first.width + SEPARATOR + second.width == area.width
    else
      && first == area.(height := first.height) && between == Rect(area.x, area.y + first.height, area.width, SEPARATOR)
      && second == Rect(area.x, area.y + first.height + SEPARATOR, area.width, second.height)
      && first.height + SEPARATOR + second.height == area.height
  }

  lemma HalvesAdjoin(node: Node, area: Rect)
    requires node.Split? && Roomy(node, area.width, area.height)
    ensures Adjoin(node.axis, FirstArea(node, area), Between(node, area), SecondArea(node, area), area)
  {
    hide Share, Minimum;
    SplitsFairly(node, area);
  }

  lemma SplitAreas(axis: Axis, first: Rect, between: Rect, second: Rect, area: Rect)
    requires Adjoin(axis, first, between, second, area)
    ensures Area(first) + Area(between) + Area(second) == Area(area)
  {
    if axis == Row {
      Distribute(first.width, SEPARATOR, second.width, area.height);
    } else {
      Distribute(first.height, SEPARATOR, second.height, area.width);
    }
  }

  /** Panes and separators tile an area that is large enough: each lies inside
      it, no two overlap, and together they are as large as it is. */
  lemma {:induction false} Tiles(node: Node, area: Rect)
    requires Roomy(node, area.width, area.height)
    ensures AllInside(Rects(node, area), area) && AllApart(Rects(node, area))
      && TotalArea(Rects(node, area)) == Area(area)
  {
    if node.Split? {
      var first, between, second := FirstArea(node, area), Between(node, area), SecondArea(node, area);
      SplitsFairly(node, area);
      HalvesAdjoin(node, area);
      assert area.width > 0 && area.height > 0;
      Tiles(node.first, first);
      Tiles(node.second, second);
      var left, right := Rects(node.first, first), Rects(node.second, second);
      assert Rects(node, area) == [between] + left + right;
      JoinRects(node.axis, left, right, first, between, second, area);
    } else {
      assert TotalArea([area]) == Area(area) + TotalArea([]);
    }
  }

  /** In a window that is large enough they tile the window. */
  lemma TilesWindow(root: Node, width: int, height: int)
    requires Fits(root, width, height)
    ensures AllInside(Rects(root, Whole(width, height)), Rect(0, 0, width, height))
    ensures TotalArea(Rects(root, Whole(width, height))) == width * height
  {
    assert Minimum(root, Width) > 0 && Minimum(root, Height) > 0;
    Tiles(root, Whole(width, height));
  }

  lemma HeadApart(head: Rect, left: seq<Rect>, right: seq<Rect>, first: Rect, second: Rect)
    requires AllInside(left, first) && AllInside(right, second) && AllApart(left + right)
    requires Apart(head, first) && Apart(head, second)
    ensures AllApart([head] + left + right)
  {
    var rects := [head] + left + right;
    forall i, j | 0 <= i < j < |rects|
      ensures Apart(rects[i], rects[j])
    {
      if i > 0 {
        assert Apart((left + right)[i - 1], (left + right)[j - 1]);
      } else if j <= |left| {
        assert Inside(left[j - 1], first);
      } else {
        assert Inside(right[j - 1 - |left|], second);
      }
    }
  }

  lemma HeadTotal(head: Rect, left: seq<Rect>, right: seq<Rect>)
    ensures TotalArea([head] + left + right) == Area(head) + TotalArea(left) + TotalArea(right)
  {
    TotalJoin(left, right);
    assert ([head] + left + right)[1..] == left + right;
  }

  lemma AdjoinParts(axis: Axis, first: Rect, between: Rect, second: Rect, area: Rect)
    requires Adjoin(axis, first, between, second, area) && area.width > 0 && area.height > 0
    requires first.width >= 0 && first.height >= 0 && second.width >= 0 && second.height >= 0
    ensures Inside(first, area) && Inside(second, area) && AllInside([between], area)
    ensures Apart(between, second) && Apart(between, first) && Apart(first, second)
  {}

  lemma JoinRects(axis: Axis, left: seq<Rect>, right: seq<Rect>, first: Rect, between: Rect, second: Rect, area: Rect)
    requires AllInside(left, first) && AllInside(right, second) && AllApart(left) && AllApart(right)
    requires Adjoin(axis, first, between, second, area) && area.width > 0 && area.height > 0
    requires first.width >= 0 && first.height >= 0 && second.width >= 0 && second.height >= 0
    requires TotalArea(left) == Area(first) && TotalArea(right) == Area(second)
    ensures AllInside([between] + left + right, area) && AllApart([between] + left + right)
    ensures TotalArea([between] + left + right) == Area(area)
  {
    AdjoinParts(axis, first, between, second, area);
    SplitAreas(axis, first, between, second, area);
    JoinInside(left, right, first, second, area);
    JoinApart(left, right, first, second);
    assert Inside(area, area);
    JoinInside([between], left + right, area, area, area);
    assert [between] + (left + right) == [between] + left + right;
    HeadApart(between, left, right, first, second);
    HeadTotal(between, left, right);
  }

  lemma ShareInBounds(node: Node, area: Rect)
    requires node.Split?
    ensures Bounds(node, area).0 <= Share(node, area) <= Bounds(node, area).1
  {
    hide Minimum, Wanted;
  }

  /** Each separator names the split it belongs to, and lies between its bounds,
      however small the area. */
  lemma {:induction false} SeparatorsLead(node: Node, area: Rect, path: seq<Turn>)
    ensures forall s :: s in Separators(node, area, path) ==>
      path <= s.path && SplitAt(node, s.path[|path|..]).Some? && SplitAt(node, s.path[|path|..]).value.axis == s.axis
    ensures forall s :: s in Separators(node, area, path) ==> s.min <= s.size <= s.max
    ensures forall s :: s in Separators(node, area, path) ==>
      s.start + s.size == if s.axis == Row then s.rect.x else s.rect.y
  {
    if node.Split? {
      var first := Separators(node.first, FirstArea(node, area), path + [ToFirst]);
      var second := Separators(node.second, SecondArea(node, area), path + [ToSecond]);
      SeparatorsLead(node.first, FirstArea(node, area), path + [ToFirst]);
      SeparatorsLead(node.second, SecondArea(node, area), path + [ToSecond]);
      ShareInBounds(node, area);
      forall s | s in Separators(node, area, path)
        ensures path <= s.path && SplitAt(node, s.path[|path|..]).Some?
          && SplitAt(node, s.path[|path|..]).value.axis == s.axis
      {
        if s in first {
          assert s.path[|path|..] == [ToFirst] + s.path[|path| + 1..];
        } else if s in second {
          assert s.path[|path|..] == [ToSecond] + s.path[|path| + 1..];
        } else {
          assert s == SeparatorOf(node, area, path);
        }
      }
    }
  }
}
