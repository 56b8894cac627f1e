/** The properties every editor node shares (`EntityNode`), the mouse interaction a node
    sees in one frame, and the response it reports back (`NodeResponse`). */
module EntityNodes {
  import opened Geometry

  /** An sRGB colour with alpha, as egui's `Color32`. */
  datatype Color32 = Color32(r: nat, g: nat, b: nat, a: nat)

  function Rgb(r: nat, g: nat, b: nat): Color32 { Color32(r, g, b, 255) }

  const White := Rgb(255, 255, 255)

  datatype EntityNode = EntityNode(
    position: Pos,
    currentSize: Vec2,
    selected: bool,
    minSize: Vec2,
    maxSize: Vec2,
    padding: Vec2,
    fontSize: real,
    bgColor: Color32,
    selectedBgColor: Color32,
    textColor: Color32,
    borderColor: Color32,
    isBeingDraggedByPrimary: bool)

  /** `size` lies between the node's minimum and maximum size on both axes. */
  predicate SizeWithinBounds(n: EntityNode, size: Vec2)
  {
    n.minSize.x <= size.x <= n.maxSize.x && n.minSize.y <= size.y <= n.maxSize.y
  }

  /** A node with the default styling at `position`. */
  function New(position: Pos): (n: EntityNode)
    ensures n.position == position
    ensures n.currentSize == n.minSize == Vec2(80.0, 40.0)
    ensures n.maxSize == Vec2(300.0, 200.0) && n.padding == Vec2(12.0, 8.0)
    ensures SizeWithinBounds(n, n.currentSize)
    ensures !n.selected && !n.isBeingDraggedByPrimary
    ensures n.bgColor != n.selectedBgColor
  {
    EntityNode(
      position,
      Vec2(80.0, 40.0),
      false,
      Vec2(80.0, 40.0),
      Vec2(300.0, 200.0),
      Vec2(12.0, 8.0),
      14.0,
      Rgb(45, 45, 55),
      Rgb(65, 65, 85),
      White,
      Rgb(80, 80, 90),
      false)
  }

  /** The subscript (entity id) font is 70% of the main font. */
  function SubscriptFontSize(n: EntityNode): (size: real)
    ensures n.fontSize > 0.0 ==> 0.0 < size < n.fontSize
    ensures size * 10.0 == n.fontSize * 7.0
  {
    n.fontSize * 0.7
  }

  /** The background colour follows the selection flag. */
  function CurrentBgColor(n: EntityNode): (c: Color32)
    ensures n.selected ==> c == n.selectedBgColor
    ensures !n.selected ==> c == n.bgColor
  {
    if n.selected then n.selectedBgColor else n.bgColor
  }

  /** The node's bounding rectangle: top-left corner at the position, extent the current size. */
  function CurrentRect(n: EntityNode): (r: Rect)
    ensures r.min == n.position
    ensures Width(r) == n.currentSize.x && Height(r) == n.currentSize.y
  {
    FromMinSize(n.position, n.currentSize)
  }

  /** What egui reports about the mouse over a node's rectangle in one frame. */
  datatype Interaction = Interaction(
    dragStartedByPrimary: bool,
    dragStopped: bool,
    dragged: bool,
    dragDelta: Vec2,
    clickedByPrimary: bool,
    clickedBySecondary: bool,
    hovered: bool)

  datatype NodeResponse = NodeResponse(
    clicked: bool,
    dragged: bool,
    dragDelta: Vec2,
    hovered: bool,
    rightClicked: bool,
    addTransitionClicked: bool)

  const DefaultResponse := NodeResponse(false, false, ZeroVec, false, false, false)

  /** The drag handling shared by leaf and parent nodes: a drag started with the primary
      button sets the flag, a drag stop clears it, and the node follows the mouse only
      while it is dragged with the flag set. Clicks and hover are passed through. */
  method HandleInteraction(n: EntityNode, i: Interaction) returns (m: EntityNode, resp: NodeResponse)
    ensures m.isBeingDraggedByPrimary ==
      (i.dragStartedByPrimary || (n.isBeingDraggedByPrimary && !i.dragStopped))
    ensures resp.dragged <==> i.dragged && m.isBeingDraggedByPrimary
    ensures resp.dragged ==> m.position == Add(n.position, i.dragDelta) && resp.dragDelta == i.dragDelta
    ensures !resp.dragged ==> m.position == n.position && resp.dragDelta == ZeroVec
    ensures m == n.(position := m.position, isBeingDraggedByPrimary := m.isBeingDraggedByPrimary)
    ensures resp.clicked == i.clickedByPrimary && resp.rightClicked == i.clickedBySecondary
    ensures resp.hovered == i.hovered && !resp.addTransitionClicked
  {
    m := n;
    resp := DefaultResponse;
    if i.dragStartedByPrimary {
      m := m.(isBeingDraggedByPrimary := true);
    } else if i.dragStopped {
      m := m.(isBeingDraggedByPrimary := false);
    }
    if i.dragged && m.isBeingDraggedByPrimary {
      m := m.(position := Add(m.position, i.dragDelta));
      resp := resp.(dragged := true, dragDelta := i.dragDelta);
    }
    if i.clickedByPrimary {
      resp := resp.(clicked := true);
    }
    if i.clickedBySecondary {
      resp := resp.(rightClicked := true);
    }
    resp := resp.(hovered := i.hovered);
  }
}
