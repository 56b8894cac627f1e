/** Parent-child layout rules: children follow a dragged parent, stay inside the parent's
    content area on the left and top, and parents grow bottom-up to cover their children;
    every parent gets an initial state. */
module Hierarchy {
  import opened Geometry
  import opened EntityNodes
  import opened ParentNodes
  import opened Components
  import opened EditorStates

  /** Distance kept between a child and the left and top of its parent's content area. */
  const ChildInset: real := 10.0

  /** The child position pushed right and down, never left or up, until it is at least the
      inset inside the parent's content area. */
  function ConstrainedPosition(childPos: Pos, parent: ParentNode): (p: Pos)
    ensures p.x >= childPos.x && p.y >= childPos.y
    ensures p.x >= ContentRect(parent).min.x + ChildInset && p.y >= ContentRect(parent).min.y + ChildInset
    ensures p.x == childPos.x || p.x == ContentRect(parent).min.x + ChildInset
    ensures p.y == childPos.y || p.y == ContentRect(parent).min.y + ChildInset
  {
    var least := Add(ContentRect(parent).min, Vec2(ChildInset, ChildInset));
    Pos(Max(childPos.x, least.x), Max(childPos.y, least.y))
  }

  /** The child's parent node, when the child has a parent whose node is a parent node. */
  predicate HasParentNode(nodes: map<Entity, NodeType>, child: Entity, childOf: map<Entity, Entity>)
  {
    child in nodes && child in childOf && childOf[child] in nodes && nodes[childOf[child]].Parent?
  }

  /** The node map after constraining `child`: only the child's position can change, and only
      when both nodes exist and the parent is drawn as a parent node. */
  function ConstrainedNodes(nodes: map<Entity, NodeType>, child: Entity, childOf: map<Entity, Entity>): (out: map<Entity, NodeType>)
    ensures out.Keys == nodes.Keys
    ensures forall e :: e in out && e != child ==> out[e] == nodes[e]
    ensures !HasParentNode(nodes, child, childOf) ==> out == nodes
    ensures HasParentNode(nodes, child, childOf) ==>
      out[child] == nodes[child].WithPosition(ConstrainedPosition(nodes[child].Position(), nodes[childOf[child]].parent))
  {
    if HasParentNode(nodes, child, childOf) then
      var pos := ConstrainedPosition(nodes[child].NodeRect().min, nodes[childOf[child]].parent);
      if pos != nodes[child].NodeRect().min then nodes[child := nodes[child].WithPosition(pos)]
      else
        assert nodes[child].WithPosition(pos) == nodes[child];
        nodes
    else nodes
  }

  /** Keeps a child from sticking out left of or above its parent's content area; it may
      stick out right and below (the parent grows instead). */
  method ConstrainChildToParent(data: StateMachinePersistentData, child: Entity, childOf: map<Entity, Entity>)
    modifies data
    ensures data.nodes == ConstrainedNodes(old(data.nodes), child, childOf)
    ensures data.visualTransitions == old(data.visualTransitions)
  {
    if child in childOf && childOf[child] in data.nodes && data.nodes[childOf[child]].Parent? && child in data.nodes {
      var parent := data.nodes[childOf[child]].parent;
      var childRect := data.nodes[child].NodeRect();
      var content := ContentRect(parent);
      var constrainedMin := Add(content.min, Vec2(ChildInset, ChildInset));
      var constrainedPos := Pos(Max(childRect.min.x, constrainedMin.x), Max(childRect.min.y, constrainedMin.y));
      if constrainedPos != childRect.min {
        data.nodes := data.nodes[child := data.nodes[child].WithPosition(constrainedPos)];
      }
    }
  }

  /** Constraining twice is constraining once, as long as the child is not its own parent. */
  lemma ConstrainIsIdempotent(nodes: map<Entity, NodeType>, child: Entity, childOf: map<Entity, Entity>)
    requires child in childOf ==> childOf[child] != child
    ensures ConstrainedNodes(ConstrainedNodes(nodes, child, childOf), child, childOf) == ConstrainedNodes(nodes, child, childOf)
  {
    var once := ConstrainedNodes(nodes, child, childOf);
    if HasParentNode(nodes, child, childOf) {
      var parent := nodes[childOf[child]].parent;
      assert once[childOf[child]] == nodes[childOf[child]];
      var pos := ConstrainedPosition(nodes[child].Position(), parent);
      assert once[child].Position() == pos;
      assert ConstrainedPosition(pos, parent) == pos;
      assert once[child].WithPosition(pos) == once[child];
    }
  }

  /** A child of the dragged node: moved by the same delta, and re-announced as dragged so
      that its own children follow. */
  datatype NodeDragged = NodeDragged(entity: Entity, dragDelta: Vec2)

  /** Moves every direct child (by `childOf`) of the dragged entity that has a node by the
      drag delta and returns one drag event per moved child. Nothing else moves; the
      children's own children move when their events are handled. */
  method HandleParentChildMovement(data: StateMachinePersistentData, event: NodeDragged, childOf: map<Entity, Entity>)
    returns (triggered: seq<NodeDragged>)
    modifies data
    ensures data.nodes.Keys == old(data.nodes).Keys
    ensures forall e :: e in data.nodes ==>
      data.nodes[e] == (if e in childOf && childOf[e] == event.entity
                        then old(data.nodes)[e].WithPosition(Add(old(data.nodes)[e].Position(), event.dragDelta))
                        else old(data.nodes)[e])
    ensures forall d :: d in triggered <==>
      d.dragDelta == event.dragDelta && d.entity in childOf && childOf[d.entity] == event.entity && d.entity in old(data.nodes)
    ensures forall i, j :: 0 <= i < j < |triggered| ==> triggered[i] != triggered[j]
    ensures data.visualTransitions == old(data.visualTransitions)
  {
    var childrenToMove := set c | c in childOf && childOf[c] == event.entity;
    ghost var before := data.nodes;
    triggered := [];
    var todo := childrenToMove;
    while todo != {}
      invariant todo <= childrenToMove
      invariant data.nodes.Keys == before.Keys
      invariant data.visualTransitions == old(data.visualTransitions)
      invariant forall e :: e in data.nodes ==>
        data.nodes[e] == (if e in childrenToMove && e !in todo
                          then before[e].WithPosition(Add(before[e].Position(), event.dragDelta))
                          else before[e])
      invariant forall d :: d in triggered <==>
        d.dragDelta == event.dragDelta && d.entity in childrenToMove && d.entity !in todo && d.entity in before
      invariant forall i, j :: 0 <= i < j < |triggered| ==> triggered[i] != triggered[j]
      decreases |todo|
    {
      var c :| c in todo;
      if c in data.nodes {
        var node := data.nodes[c];
        data.nodes := data.nodes[c := node.WithPosition(Add(node.Position(), event.dragDelta))];
        triggered := triggered + [NodeDragged(c, event.dragDelta)];
      }
      todo := todo - {c};
    }
  }

  /** Gives every entity with children but no initial state the initial state "first child";
      existing initial states are kept. */
  method EnsureInitialStates(children: map<Entity, seq<Entity>>, initialState: map<Entity, Entity>)
    returns (out: map<Entity, Entity>)
    ensures forall p :: p in initialState ==> p in out && out[p] == initialState[p]
    ensures forall p :: p in children && p !in initialState && |children[p]| > 0 ==> p in out && out[p] == children[p][0]
    ensures forall p :: p in out ==> p in initialState || (p in children && |children[p]| > 0)
    ensures forall p :: p in children && |children[p]| > 0 ==> p in out
    ensures forall p :: p in out && p !in initialState ==> out[p] in children[p]
  {
    out := initialState;
    var todo := children.Keys;
    while todo != {}
      invariant todo <= children.Keys
      invariant forall p :: p in initialState ==> p in out && out[p] == initialState[p]
      invariant forall p :: p in children && p !in todo && p !in initialState && |children[p]| > 0 ==>
        p in out && out[p] == children[p][0]
      invariant forall p :: p in out ==> p in initialState || (p in children && |children[p]| > 0)
      decreases |todo|
    {
      var p :| p in todo;
      if p !in initialState && |children[p]| > 0 {
        out := out[p := children[p][0]];
      }
      todo := todo - {p};
    }
  }

  /** A parent whose every child either has no children or was already processed. */
  predicate ChildrenReady(children: map<Entity, seq<Entity>>, processed: set<Entity>, p: Entity)
    requires p in children
  {
    forall c :: c in children[p] ==> c in processed || c !in children
  }

  /** The rectangles of the children that have nodes, in child order: every such child's
      rectangle is there, and nothing else is. */
  function KidRects(nodes: map<Entity, NodeType>, kids: seq<Entity>): (rects: seq<Rect>)
    ensures |rects| <= |kids|
    ensures forall c :: c in kids && c in nodes ==> nodes[c].NodeRect() in rects
    ensures forall r :: r in rects ==> exists c :: c in kids && c in nodes && r == nodes[c].NodeRect()
  {
    if |kids| == 0 then []
    else
      var init := kids[..|kids| - 1];
      var last := kids[|kids| - 1];
      assert forall c :: c in kids ==> c in init || c == last;
      if last in nodes then KidRects(nodes, init) + [nodes[last].NodeRect()] else KidRects(nodes, init)
  }

  /** Collects the children's rectangles with a loop over the children. */
  method ChildRects(nodes: map<Entity, NodeType>, kids: seq<Entity>) returns (rects: seq<Rect>)
    ensures rects == KidRects(nodes, kids)
  {
    rects := [];
    var i := 0;
    while i < |kids|
      invariant 0 <= i <= |kids|
      invariant rects == KidRects(nodes, kids[..i])
    {
      assert kids[..i + 1][..i] == kids[..i];
      if kids[i] in nodes {
        rects := rects + [nodes[kids[i]].NodeRect()];
      }
      i := i + 1;
    }
    assert kids[..i] == kids;
  }

  /** A processed parent node covers its children: its rectangle reaches past the right and
      bottom edge of every child that has a node by at least the bottom-right margin. */
  ghost predicate Covered(nodes: map<Entity, NodeType>, children: map<Entity, seq<Entity>>, p: Entity)
  {
    p in nodes && p in children && nodes[p].Parent? ==>
      forall c :: c in children[p] && c in nodes ==>
        ParentRect(nodes[p].parent).max.x >= nodes[c].NodeRect().max.x + BottomRightMargin &&
        ParentRect(nodes[p].parent).max.y >= nodes[c].NodeRect().max.y + BottomRightMargin
  }

  ghost predicate AllCovered(nodes: map<Entity, NodeType>, children: map<Entity, seq<Entity>>, processed: set<Entity>)
  {
    forall p :: p in processed ==> Covered(nodes, children, p)
  }

  /** Resizing an unprocessed entity with children cannot undo the cover of a processed
      parent: such an entity is never a child of a processed one, since children with
      children come first in the log. */
  lemma ResizeKeepsCovered(nodes: map<Entity, NodeType>, children: map<Entity, seq<Entity>>,
                           order: seq<Entity>, processed: set<Entity>, q: Entity, pn: ParentNode)
    requires ProcessedLog(order, processed, children) && AllCovered(nodes, children, processed)
    requires q in nodes && q in children && q !in processed
    ensures AllCovered(nodes[q := Parent(pn)], children, processed)
  {
    var after := nodes[q := Parent(pn)];
    forall p | p in processed
      ensures Covered(after, children, p)
    {
      if p in after && p in children {
        var i :| 0 <= i < |order| && order[i] == p;
        assert after[p] == nodes[p];
        forall c | c in children[p] && c in children
          ensures c in processed
        {
          assert c in order[..i];
        }
        assert Covered(nodes, children, p);
      }
    }
  }

  /** A parent resized from the rectangles of its ready children covers them. */
  lemma ResizedIsCovered(nodes: map<Entity, NodeType>, children: map<Entity, seq<Entity>>,
                         processed: set<Entity>, q: Entity)
    requires q in nodes && q in children && q !in processed && nodes[q].Parent?
    requires ChildrenReady(children, processed, q)
    ensures Covered(nodes[q := Parent(SizedForChildren(nodes[q].parent, KidRects(nodes, children[q])))], children, q)
  {
    var rects := KidRects(nodes, children[q]);
    var pn := SizedForChildren(nodes[q].parent, rects);
    var after := nodes[q := Parent(pn)];
    forall c | c in children[q] && c in after
      ensures ParentRect(pn).max.x >= after[c].NodeRect().max.x + BottomRightMargin
      ensures ParentRect(pn).max.y >= after[c].NodeRect().max.y + BottomRightMargin
    {
      assert c != q;
      var k :| 0 <= k < |rects| && rects[k] == nodes[c].NodeRect();
      SizeForChildrenCovers(nodes[q].parent, rects, k);
    }
  }

  /** Only sizes have changed: the same entities, at the same positions, drawn as the same
      variant, and leaves untouched. */
  ghost predicate SizesOnly(nodes: map<Entity, NodeType>, before: map<Entity, NodeType>)
  {
    nodes.Keys == before.Keys &&
    (forall e :: e in nodes ==> nodes[e].Position() == before[e].Position() && nodes[e].Leaf? == before[e].Leaf?) &&
    (forall e :: e in nodes && nodes[e].Leaf? ==> nodes[e] == before[e])
  }

  /** The node map the sweeps have produced so far from `before`: an entity not yet processed,
      without children, or drawn as a leaf is as it was, and every processed parent node has
      exactly the size `calculate_size_for_children` gives for its children's rectangles. */
  ghost predicate SizedExactly(nodes: map<Entity, NodeType>, before: map<Entity, NodeType>,
                               children: map<Entity, seq<Entity>>, processed: set<Entity>)
  {
    nodes.Keys == before.Keys &&
    (forall e :: e in nodes && (e !in processed || e !in children || before[e].Leaf?) ==> nodes[e] == before[e]) &&
    (forall p :: p in processed && p in children && p in nodes && before[p].Parent? ==>
      nodes[p] == Parent(SizedForChildren(before[p].parent, KidRects(nodes, children[p]))))
  }

  /** Changing the node of an entity that is not among the children leaves their rectangles. */
  lemma {:induction false} KidRectsUnchanged(nodes: map<Entity, NodeType>, kids: seq<Entity>, x: Entity, v: NodeType)
    requires x !in kids
    ensures KidRects(nodes[x := v], kids) == KidRects(nodes, kids)
  {
    if |kids| > 0 {
      assert kids[|kids| - 1] != x;
      KidRectsUnchanged(nodes, kids[..|kids| - 1], x, v);
    }
  }

  /** Marking `p` processed, after resizing it when it is a parent node with ready children,
      keeps every processed parent at exactly its children's size: `p` is no child of a
      processed entity, so their rectangles stay, and `p`'s own children are final. */
  lemma SizedStep(nodes: map<Entity, NodeType>, before: map<Entity, NodeType>, children: map<Entity, seq<Entity>>,
                  order: seq<Entity>, processed: set<Entity>, p: Entity, after: map<Entity, NodeType>)
    requires ProcessedLog(order, processed, children) && SizedExactly(nodes, before, children, processed)
    requires p in nodes && p !in processed && (p in children ==> ChildrenReady(children, processed, p))
    requires after == if p in children && nodes[p].Parent?
      then nodes[p := Parent(SizedForChildren(nodes[p].parent, KidRects(nodes, children[p])))]
      else nodes
    ensures SizedExactly(after, before, children, processed + {p})
  {
    if p in children && nodes[p].Parent? {
      var v := after[p];
      forall c | c in children[p] && c in children
        ensures c in processed
      {
      }
      KidRectsUnchanged(nodes, children[p], p, v);
      forall q | q in processed && q in children && q in after && before[q].Parent?
        ensures after[q] == Parent(SizedForChildren(before[q].parent, KidRects(after, children[q])))
      {
        var i :| 0 <= i < |order| && order[i] == q;
        forall c | c in children[q] && c in children
          ensures c in processed
        {
          assert c in order[..i];
        }
        KidRectsUnchanged(nodes, children[q], p, v);
      }
    }
  }

  /** The processed entities in processing order: no repeats, and every child with children
      of an entity came before it. */
  ghost predicate ProcessedLog(order: seq<Entity>, processed: set<Entity>, children: map<Entity, seq<Entity>>)
  {
    processed == (set x | x in order) &&
    (forall i, j :: 0 <= i < j < |order| ==> order[i] != order[j]) &&
    (forall i, c :: 0 <= i < |order| && order[i] in children && c in children[order[i]] && c in children ==> c in order[..i])
  }

  /** What holds between visits of the sweeps: the processed log is children-first, every
      processed parent covers its children and has exactly their size, and every other entry
      is as before (so only sizes have changed, by `ExactSizesOnly`). */
  ghost predicate SweepInvariant(nodes: map<Entity, NodeType>, before: map<Entity, NodeType>,
                                 children: map<Entity, seq<Entity>>, order: seq<Entity>, processed: set<Entity>)
  {
    ProcessedLog(order, processed, children) &&
    AllCovered(nodes, children, processed) && SizedExactly(nodes, before, children, processed)
  }

  /** Exact sizes change nothing but sizes: same entities, positions and variants. */
  lemma ExactSizesOnly(nodes: map<Entity, NodeType>, before: map<Entity, NodeType>,
                       children: map<Entity, seq<Entity>>, processed: set<Entity>)
    requires SizedExactly(nodes, before, children, processed)
    ensures SizesOnly(nodes, before)
  {
    forall e | e in nodes
      ensures nodes[e].Position() == before[e].Position() && nodes[e].Leaf? == before[e].Leaf?
    {
      if e in processed && e in children && before[e].Parent? {
        var q := SizedForChildren(before[e].parent, KidRects(nodes, children[e]));
        assert q.entityNode.position == before[e].parent.entityNode.position;
      }
    }
  }

  /** One visit of the sweep to entity `p`: an entity already processed is skipped; an entity
      without children is marked processed; a parent whose children are ready is resized and
      marked; any other entity is left for a later sweep. */
  method ProcessEntity(data: StateMachinePersistentData, children: map<Entity, seq<Entity>>, p: Entity,
                       processed: set<Entity>, ghost order: seq<Entity>, ghost before: map<Entity, NodeType>)
    returns (processed': set<Entity>, ghost order': seq<Entity>, progressed: bool)
    modifies data
    requires p in data.nodes
    requires SweepInvariant(data.nodes, before, children, order, processed)
    ensures SweepInvariant(data.nodes, before, children, order', processed')
    ensures progressed <==> p !in processed && (p !in children || ChildrenReady(children, processed, p))
    ensures processed' == if progressed then processed + {p} else processed
    ensures data.nodes ==
      if progressed && p in children && old(data.nodes)[p].Parent?
      then old(data.nodes)[p := Parent(SizedForChildren(old(data.nodes)[p].parent, KidRects(old(data.nodes), children[p])))]
      else old(data.nodes)
    ensures data.visualTransitions == old(data.visualTransitions)
  {
    processed', order', progressed := processed, order, false;
    if p in processed {
      return;
    }
    if p in children {
      if ChildrenReady(children, processed, p) {
        var rects := ChildRects(data.nodes, children[p]);
        var after := data.nodes;
        if data.nodes[p].Parent? {
          var resized := CalculateSizeForChildren(data.nodes[p].parent, rects);
          after := data.nodes[p := Parent(resized)];
        }
        MarkStep(data.nodes, before, children, order, processed, p, after);
        data.nodes := after;
        order', processed', progressed := order + [p], processed + {p}, true;
      }
    } else {
      MarkStep(data.nodes, before, children, order, processed, p, data.nodes);
      order', processed', progressed := order + [p], processed + {p}, true;
    }
  }

  /** Marking a ready entity processed, after resizing it when it is a parent node, keeps
      every invariant of the sweep. */
  lemma MarkStep(nodes: map<Entity, NodeType>, before: map<Entity, NodeType>, children: map<Entity, seq<Entity>>,
                 order: seq<Entity>, processed: set<Entity>, p: Entity, after: map<Entity, NodeType>)
    requires p in nodes && p !in processed && (p in children ==> ChildrenReady(children, processed, p))
    requires SweepInvariant(nodes, before, children, order, processed)
    requires after == if p in children && nodes[p].Parent?
      then nodes[p := Parent(SizedForChildren(nodes[p].parent, KidRects(nodes, children[p])))]
      else nodes
    ensures SweepInvariant(after, before, children, order + [p], processed + {p})
  {
    if p in children && nodes[p].Parent? {
      ResizeKeepsCovered(nodes, children, order, processed, p, after[p].parent);
      ResizedIsCovered(nodes, children, processed, p);
    }
    SizedStep(nodes, before, children, order, processed, p, after);
    AppendProcessed(order, processed, p, children);
  }

  /** One sweep over all nodes: visits each unprocessed entity once. When nothing was
      processed, every unprocessed entity is a parent whose children are not ready. */
  method Sweep(data: StateMachinePersistentData, children: map<Entity, seq<Entity>>,
               processed: set<Entity>, ghost order: seq<Entity>, ghost before: map<Entity, NodeType>)
    returns (processed': set<Entity>, ghost order': seq<Entity>, madeProgress: bool)
    modifies data
    requires processed <= data.nodes.Keys
    requires SweepInvariant(data.nodes, before, children, order, processed)
    ensures SweepInvariant(data.nodes, before, children, order', processed')
    ensures processed <= processed' <= data.nodes.Keys
    ensures madeProgress <==> processed' != processed
    ensures !madeProgress ==> forall e :: e in data.nodes && e !in processed ==>
      e in children && !ChildrenReady(children, processed, e)
    ensures data.visualTransitions == old(data.visualTransitions)
  {
    var keys := data.nodes.Keys;
    processed', order', madeProgress := processed, order, false;
    var todo := keys;
    while todo != {}
      invariant todo <= keys && processed <= processed' <= keys
      invariant data.nodes.Keys == keys
      invariant SweepInvariant(data.nodes, before, children, order', processed')
      invariant madeProgress <==> processed' != processed
      invariant !madeProgress ==> forall e :: e in keys && e !in todo && e !in processed ==>
        e in children && !ChildrenReady(children, processed, e)
      invariant data.visualTransitions == old(data.visualTransitions)
      decreases |todo|
    {
      var p :| p in todo;
      todo := todo - {p};
      var progressed;
      processed', order', progressed := ProcessEntity(data, children, p, processed', order', before);
      madeProgress := madeProgress || progressed;
    }
  }

  /** Bottom-up resizing: sweeps over the nodes until a sweep makes no progress. An entity
      without children is marked processed; a parent is resized to cover its children once
      each child either has no children or was processed, and then marked processed. Each
      entity is processed at most once, every child with children of a processed entity was
      processed before it, and at the end no unprocessed entity is ready. Only sizes change. */
  method RecalculateParentSizes(data: StateMachinePersistentData, children: map<Entity, seq<Entity>>)
    returns (processed: set<Entity>, ghost order: seq<Entity>)
    modifies data
    ensures SizesOnly(data.nodes, old(data.nodes))
    ensures ProcessedLog(order, processed, children) && processed <= data.nodes.Keys
    ensures AllCovered(data.nodes, children, processed)
    ensures forall e :: e in data.nodes && (e !in processed || e !in children || old(data.nodes)[e].Leaf?) ==>
      data.nodes[e] == old(data.nodes)[e]
    ensures forall p :: p in processed && p in children && p in data.nodes && old(data.nodes)[p].Parent? ==>
      data.nodes[p] == Parent(SizedForChildren(old(data.nodes)[p].parent, KidRects(data.nodes, children[p])))
    ensures forall e :: e in data.nodes && e !in processed ==>
      e in children && !ChildrenReady(children, processed, e)
    ensures data.visualTransitions == old(data.visualTransitions)
  {
    ghost var before := data.nodes;
    processed := {};
    order := [];
    var madeProgress := true;
    while madeProgress
      invariant data.nodes.Keys == before.Keys && processed <= before.Keys
      invariant SweepInvariant(data.nodes, before, children, order, processed)
      invariant !madeProgress ==> forall e :: e in data.nodes && e !in processed ==>
        e in children && !ChildrenReady(children, processed, e)
      invariant data.visualTransitions == old(data.visualTransitions)
      decreases |before.Keys - processed| + (if madeProgress then 1 else 0)
    {
      ghost var processedAtStart := processed;
      processed, order, madeProgress := Sweep(data, children, processed, order, before);
      if madeProgress {
        FewerLeft(processedAtStart, processed, before.Keys);
      }
    }
    ExactSizesOnly(data.nodes, before, children, processed);
  }

  /** Growing the processed set leaves fewer entities to process. */
  lemma FewerLeft(a: set<Entity>, b: set<Entity>, all: set<Entity>)
    requires a <= b <= all && a != b
    ensures |all - b| < |all - a|
  {
    var x :| x in b && x !in a;
    assert all - a == (all - b) + (b - a);
    assert (all - b) * (b - a) == {};
    assert x in b - a;
  }

  /** Appending a ready entity keeps the processed log duplicate-free and children-first. */
  lemma AppendProcessed(order: seq<Entity>, processed: set<Entity>, p: Entity, children: map<Entity, seq<Entity>>)
    requires processed == set x | x in order && p !in processed
    requires forall i, j :: 0 <= i < j < |order| ==> order[i] != order[j]
    requires forall i, c :: 0 <= i < |order| && order[i] in children && c in children[order[i]] && c in children ==>
      c in order[..i]
    requires p in children ==> ChildrenReady(children, processed, p)
    ensures processed + {p} == set x | x in order + [p]
    ensures var o := order + [p]; forall i, j :: 0 <= i < j < |o| ==> o[i] != o[j]
    ensures var o := order + [p];
      forall i, c :: 0 <= i < |o| && o[i] in children && c in children[o[i]] && c in children ==> c in o[..i]
  {
    var o := order + [p];
    assert o[..|order|] == order;
    forall i, c | 0 <= i < |o| && o[i] in children && c in children[o[i]] && c in children
      ensures c in o[..i]
    {
      if i < |order| {
        assert o[i] == order[i];
        assert order[..i] == o[..i];
      } else {
        assert c in order;
      }
    }
  }
}
