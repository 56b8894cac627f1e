/** Parent nodes: containers with a title bar above a content area that grows to cover
    their children. */
module ParentNodes {
  import opened Geometry
  import opened EntityNodes

  datatype ParentNode = ParentNode(
    entityNode: EntityNode,
    titleBarHeight: real,
    minContentSize: Vec2,
    childMargin: Vec2)

  /** Room kept free to the right of and below the lowest, rightmost child. */
  const BottomRightMargin: real := 30.0

  function NewParent(position: Pos): (p: ParentNode)
    ensures p.entityNode == New(position).(currentSize := Vec2(200.0, 120.0))
    ensures p.titleBarHeight == 30.0
    ensures p.minContentSize == Vec2(150.0, 80.0) && p.childMargin == Vec2(10.0, 10.0)
    ensures Height(ContentRect(p)) == p.minContentSize.y + 10.0
  {
    ParentNode(New(position).(currentSize := Vec2(200.0, 120.0)), 30.0, Vec2(150.0, 80.0), Vec2(10.0, 10.0))
  }

  function ParentRect(p: ParentNode): (r: Rect)
    ensures r == CurrentRect(p.entityNode)
  {
    FromMinSize(p.entityNode.position, p.entityNode.currentSize)
  }

  function TitleBarRect(p: ParentNode): (r: Rect)
    ensures r.min == p.entityNode.position
    ensures Width(r) == p.entityNode.currentSize.x && Height(r) == p.titleBarHeight
  {
    FromMinSize(p.entityNode.position, Vec2(p.entityNode.currentSize.x, p.titleBarHeight))
  }

  /** The area below the title bar. Title bar and content tile the whole rect: same
      horizontal extent, the content starts where the title bar ends, and the heights add up
      to the node's height. */
  function ContentRect(p: ParentNode): (r: Rect)
    ensures r.min.x == TitleBarRect(p).min.x && r.max.x == TitleBarRect(p).max.x
    ensures r.min.y == TitleBarRect(p).max.y && r.max == ParentRect(p).max
    ensures Height(TitleBarRect(p)) + Height(r) == Height(ParentRect(p))
  {
    var start := Add(p.entityNode.position, Vec2(0.0, p.titleBarHeight));
    FromMinSize(start, Vec2(p.entityNode.currentSize.x, p.entityNode.currentSize.y - p.titleBarHeight))
  }

  /** The size used when the parent has no children: the minimum content plus the title bar. */
  function MinimumSize(p: ParentNode): Vec2
  {
    Vec2(p.minContentSize.x, p.minContentSize.y + p.titleBarHeight)
  }

  /** Where children may start: the content area's top-left corner moved in by the child margin. */
  function ContentStart(p: ParentNode): Pos
  {
    Add(ContentRect(p).min, p.childMargin)
  }

  /** The rightmost of `init` and every rectangle's right edge. */
  function MaxRight(rects: seq<Rect>, init: real): (m: real)
    ensures m >= init
    ensures forall k :: 0 <= k < |rects| ==> rects[k].max.x <= m
    ensures m == init || exists k :: 0 <= k < |rects| && m == rects[k].max.x
  {
    if |rects| == 0 then init else Max(MaxRight(rects[..|rects| - 1], init), rects[|rects| - 1].max.x)
  }

  /** The lowest of `init` and every rectangle's bottom edge. */
  function MaxBottom(rects: seq<Rect>, init: real): (m: real)
    ensures m >= init
    ensures forall k :: 0 <= k < |rects| ==> rects[k].max.y <= m
    ensures m == init || exists k :: 0 <= k < |rects| && m == rects[k].max.y
  {
    if |rects| == 0 then init else Max(MaxBottom(rects[..|rects| - 1], init), rects[|rects| - 1].max.y)
  }

  /** The size `calculate_size_for_children` computes for a non-empty list of child rectangles:
      the content reaches from its start to the farthest child edge (or to the minimum content
      extent, whichever is farther) plus the child margin and the bottom-right margin, and is
      never smaller than the minimum content size; the title bar is added to the height. */
  function SizeForChildren(p: ParentNode, childRects: seq<Rect>): Vec2
  {
    var start := ContentStart(p);
    var maxX := MaxRight(childRects, start.x + p.minContentSize.x - p.childMargin.x * 2.0);
    var maxY := MaxBottom(childRects, start.y + p.minContentSize.y - p.childMargin.y * 2.0);
    Vec2(Max((maxX - start.x) + p.childMargin.x + BottomRightMargin, p.minContentSize.x),
         Max((maxY - start.y) + p.childMargin.y + BottomRightMargin, p.minContentSize.y) + p.titleBarHeight)
  }

  /** The parent as `calculate_size_for_children` leaves it: only the size changes, to the
      minimum without children and to `SizeForChildren` otherwise. */
  function SizedForChildren(p: ParentNode, childRects: seq<Rect>): (q: ParentNode)
    ensures q == p.(entityNode := p.entityNode.(currentSize := q.entityNode.currentSize))
    ensures |childRects| == 0 ==> q.entityNode.currentSize == MinimumSize(p)
    ensures q.entityNode.currentSize.x >= p.minContentSize.x
    ensures q.entityNode.currentSize.y >= p.minContentSize.y + p.titleBarHeight
  {
    if |childRects| == 0 then p.(entityNode := p.entityNode.(currentSize := MinimumSize(p)))
    else p.(entityNode := p.entityNode.(currentSize := SizeForChildren(p, childRects)))
  }

  /** The computed size leaves the bottom-right margin free past every child: the margin the
      content start moved in by is given back in the required size, so it cancels out. */
  lemma {:induction false} SizeForChildrenCovers(p: ParentNode, childRects: seq<Rect>, k: nat)
    requires k < |childRects|
    ensures p.entityNode.position.x + SizeForChildren(p, childRects).x >= childRects[k].max.x + BottomRightMargin
    ensures p.entityNode.position.y + SizeForChildren(p, childRects).y >= childRects[k].max.y + BottomRightMargin
  {
    var start := ContentStart(p);
    assert start.x == p.entityNode.position.x + p.childMargin.x;
    assert start.y == p.entityNode.position.y + p.titleBarHeight + p.childMargin.y;
    var maxX := MaxRight(childRects, start.x + p.minContentSize.x - p.childMargin.x * 2.0);
    var maxY := MaxBottom(childRects, start.y + p.minContentSize.y - p.childMargin.y * 2.0);
    assert childRects[k].max.x <= maxX && childRects[k].max.y <= maxY;
  }

  /** The loop over the child rectangles: the farthest right and bottom edges, starting
      from the given values. */
  method FarthestEdges(childRects: seq<Rect>, initX: real, initY: real) returns (maxX: real, maxY: real)
    ensures maxX == MaxRight(childRects, initX) && maxY == MaxBottom(childRects, initY)
  {
    maxX, maxY := initX, initY;
    var i := 0;
    while i < |childRects|
      invariant 0 <= i <= |childRects|
      invariant maxX == MaxRight(childRects[..i], initX) && maxY == MaxBottom(childRects[..i], initY)
    {
      ghost var grown := childRects[..i + 1];
      assert grown[..|grown| - 1] == childRects[..i] && grown[|grown| - 1] == childRects[i];
      maxX := Max(maxX, childRects[i].max.x);
      maxY := Max(maxY, childRects[i].max.y);
      assert maxX == MaxRight(grown, initX) && maxY == MaxBottom(grown, initY);
      i := i + 1;
    }
    assert childRects[..i] == childRects;
  }

  /** Grows (or shrinks) the parent so its content area reaches past every child rectangle by
      the child margin plus the bottom-right margin, never below the minimum content size.
      Only the size changes; the top-left corner stays where it is. */
  method CalculateSizeForChildren(p: ParentNode, childRects: seq<Rect>) returns (q: ParentNode)
    ensures q == SizedForChildren(p, childRects)
    ensures forall k :: 0 <= k < |childRects| ==>
      ParentRect(q).max.x >= childRects[k].max.x + BottomRightMargin &&
      ParentRect(q).max.y >= childRects[k].max.y + BottomRightMargin
  {
    if |childRects| == 0 {
      q := p.(entityNode := p.entityNode.(currentSize := MinimumSize(p)));
      return;
    }
    var contentStart := ContentStart(p);
    var maxX, maxY := FarthestEdges(childRects,
      contentStart.x + p.minContentSize.x - p.childMargin.x * 2.0,
      contentStart.y + p.minContentSize.y - p.childMargin.y * 2.0);
    var requiredWidth := (maxX - contentStart.x) + p.childMargin.x + BottomRightMargin;
    var requiredHeight := (maxY - contentStart.y) + p.childMargin.y + BottomRightMargin;
    var finalWidth := Max(requiredWidth, p.minContentSize.x);
    var finalHeight := Max(requiredHeight, p.minContentSize.y);
    assert Vec2(finalWidth, finalHeight + p.titleBarHeight) == SizeForChildren(p, childRects);
    q := p.(entityNode := p.entityNode.(currentSize := Vec2(finalWidth, finalHeight + p.titleBarHeight)));
    forall k | 0 <= k < |childRects|
      ensures ParentRect(q).max.x >= childRects[k].max.x + BottomRightMargin
      ensures ParentRect(q).max.y >= childRects[k].max.y + BottomRightMargin
    {
      SizeForChildrenCovers(p, childRects, k);
    }
  }

  /** Sizes the parent from the bounding box of its children: the box plus the child margin on
      both sides (and the title bar), never below the minimum; no box gives the minimum. */
  function UpdateSizeForChildren(p: ParentNode, childBounds: Option<Rect>): (q: ParentNode)
    ensures q == p.(entityNode := p.entityNode.(currentSize := q.entityNode.currentSize))
    ensures childBounds.None? ==> q.entityNode.currentSize == MinimumSize(p)
    ensures q.entityNode.currentSize.x >= p.minContentSize.x
    ensures q.entityNode.currentSize.y >= p.minContentSize.y + p.titleBarHeight
    ensures childBounds.Some? ==>
      q.entityNode.currentSize.x >= Width(childBounds.value) + 2.0 * p.childMargin.x &&
      q.entityNode.currentSize.y >= Height(childBounds.value) + 2.0 * p.childMargin.y + p.titleBarHeight
  {
    match childBounds
    case Some(b) =>
      var requiredWidth := Width(b) + p.childMargin.x * 2.0;
      var requiredHeight := Height(b) + p.childMargin.y * 2.0 + p.titleBarHeight;
      p.(entityNode := p.entityNode.(currentSize := Vec2(Max(requiredWidth, p.minContentSize.x),
        Max(requiredHeight, p.minContentSize.y + p.titleBarHeight))))
    case None =>
      p.(entityNode := p.entityNode.(currentSize := MinimumSize(p)))
  }

  /** One frame of a parent node: the shared drag rules, plus the "+" (add transition) button,
      which exists only on a selected non-root node and reports a click only there. */
  method Show(p: ParentNode, isSelected: bool, isRoot: bool, i: Interaction, buttonClicked: bool)
    returns (q: ParentNode, resp: NodeResponse, buttonShown: bool)
    ensures buttonShown <==> isSelected && !isRoot
    ensures resp.addTransitionClicked <==> buttonShown && buttonClicked
    ensures q.entityNode.isBeingDraggedByPrimary ==
      (i.dragStartedByPrimary || (p.entityNode.isBeingDraggedByPrimary && !i.dragStopped))
    ensures resp.dragged <==> i.dragged && q.entityNode.isBeingDraggedByPrimary
    ensures resp.dragged ==> q.entityNode.position == Add(p.entityNode.position, i.dragDelta)
    ensures !resp.dragged ==> q.entityNode.position == p.entityNode.position
    ensures q.entityNode.currentSize == p.entityNode.currentSize
    ensures q.titleBarHeight == p.titleBarHeight && q.minContentSize == p.minContentSize
    ensures resp.dragged ==> resp.dragDelta == i.dragDelta
    ensures !resp.dragged ==> resp.dragDelta == ZeroVec
    ensures resp.clicked == i.clickedByPrimary && resp.rightClicked == i.clickedBySecondary
    ensures resp.hovered == i.hovered
    ensures q == p.(entityNode := p.entityNode.(position := q.entityNode.position,
      isBeingDraggedByPrimary := q.entityNode.isBeingDraggedByPrimary))
  {
    var n;
    n, resp := HandleInteraction(p.entityNode, i);
    q := p.(entityNode := n);
    buttonShown := isSelected && !isRoot;
    if buttonShown && buttonClicked {
      resp := resp.(addTransitionClicked := true);
    }
  }
}
