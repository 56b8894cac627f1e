/** Leaf nodes: terminal states drawn as a box sized to their label. */
module LeafNodes {
  import opened Geometry
  import opened EntityNodes

  datatype LeafNode = LeafNode(entityNode: EntityNode)

  function NewLeaf(position: Pos): (l: LeafNode)
    ensures l.entityNode == New(position)
  {
    LeafNode(New(position))
  }

  /** Gap between the main label and the entity-id subscript. */
  const TextGap: real := 2.0

  /** `f32::clamp`: the value moved into `[lo, hi]`. */
  function Clamp(v: real, lo: real, hi: real): (r: real)
    requires lo <= hi
    ensures lo <= r <= hi
    ensures lo <= v <= hi ==> r == v
    ensures v < lo ==> r == lo
    ensures hi < v ==> r == hi
  {
    if v < lo then lo else if hi < v then hi else v
  }

  /** The size of the label block: the wider of the two lines, and both heights plus the gap.
      Without an entity id the subscript has zero size. */
  function ContentSize(mainSize: Vec2, subscriptSize: Option<Vec2>): (c: Vec2)
    ensures c.x >= mainSize.x
    ensures subscriptSize.None? ==> c == Vec2(Max(mainSize.x, 0.0), mainSize.y + TextGap)
    ensures subscriptSize.Some? ==>
      c.x >= subscriptSize.value.x && c.y == mainSize.y + subscriptSize.value.y + TextGap
    ensures subscriptSize.Some? ==> c.x == mainSize.x || c.x == subscriptSize.value.x
  {
    var sub := match subscriptSize case Some(s) => s case None => ZeroVec;
    Vec2(Max(mainSize.x, sub.x), mainSize.y + sub.y + TextGap)
  }

  /** Lays the leaf out for this frame and applies the mouse interaction: the size is the
      label block plus padding on each side, clamped into the node's size bounds, and the drag
      rules are the shared ones. Returns the updated node, its interaction rectangle and the
      response. */
  method Show(leaf: LeafNode, mainSize: Vec2, subscriptSize: Option<Vec2>, i: Interaction)
    returns (out: LeafNode, rect: Rect, resp: NodeResponse)
    requires leaf.entityNode.minSize.x <= leaf.entityNode.maxSize.x
    requires leaf.entityNode.minSize.y <= leaf.entityNode.maxSize.y
    ensures var n := leaf.entityNode; var c := ContentSize(mainSize, subscriptSize);
      out.entityNode.currentSize ==
        Vec2(Clamp(c.x + 2.0 * n.padding.x, n.minSize.x, n.maxSize.x),
             Clamp(c.y + 2.0 * n.padding.y, n.minSize.y, n.maxSize.y))
    ensures SizeWithinBounds(out.entityNode, out.entityNode.currentSize)
    ensures rect == FromMinSize(leaf.entityNode.position, out.entityNode.currentSize)
    ensures out.entityNode.isBeingDraggedByPrimary ==
      (i.dragStartedByPrimary || (leaf.entityNode.isBeingDraggedByPrimary && !i.dragStopped))
    ensures resp.dragged <==> i.dragged && out.entityNode.isBeingDraggedByPrimary
    ensures resp.dragged ==>
      out.entityNode.position == Add(leaf.entityNode.position, i.dragDelta) && resp.dragDelta == i.dragDelta
    ensures !resp.dragged ==> out.entityNode.position == leaf.entityNode.position && resp.dragDelta == ZeroVec
    ensures out.entityNode == leaf.entityNode.(currentSize := out.entityNode.currentSize,
      position := out.entityNode.position, isBeingDraggedByPrimary := out.entityNode.isBeingDraggedByPrimary)
    ensures resp.clicked == i.clickedByPrimary && resp.rightClicked == i.clickedBySecondary
    ensures resp.hovered == i.hovered && !resp.addTransitionClicked
  {
    var n := leaf.entityNode;
    var content := ContentSize(mainSize, subscriptSize);
    var nodeSize := VAdd(content, Scale(n.padding, 2.0));
    var constrained := Vec2(Clamp(nodeSize.x, n.minSize.x, n.maxSize.x), Clamp(nodeSize.y, n.minSize.y, n.maxSize.y));
    n := n.(currentSize := constrained);
    rect := FromMinSize(n.position, constrained);
    n, resp := HandleInteraction(n, i);
    out := LeafNode(n);
  }
}
