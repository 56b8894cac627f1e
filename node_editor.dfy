/** The node editor: keeping each state's node variant in line with the state hierarchy
    (states with an initial state are parents, the others leaves) and the drawing order of
    the nodes (hierarchy order, the selected node and its ancestors lifted above their
    siblings). */
module NodeEditor {
  import opened Geometry
  import opened LeafNodes
  import opened ParentNodes
  import opened Components
  import opened Seqs
  import opened EditorStates

  /** Where a node created for a parent state is placed. */
  const NewParentPosition := Pos(200.0, 100.0)
  /** Where a node created for a leaf state is placed. */
  const NewLeafPosition := Pos(100.0, 100.0)

  /** The node an entity should have: a node of the right variant is kept as it is, a node
      of the other variant is replaced by a fresh node of the right variant at the same
      position, and a missing node is created at the default position of its variant. */
  function RetypedNode(current: Option<NodeType>, wantParent: bool): (n: NodeType)
    ensures n.Parent? == wantParent
    ensures current.Some? && current.value.Parent? == wantParent ==> n == current.value
    ensures current.Some? ==> n.Position() == current.value.Position()
    ensures current.Some? && current.value.Parent? != wantParent ==>
      n == (if wantParent then Parent(NewParent(current.value.Position())) else Leaf(NewLeaf(current.value.Position())))
    ensures current.None? ==>
      n == (if wantParent then Parent(NewParent(NewParentPosition)) else Leaf(NewLeaf(NewLeafPosition)))
  {
    match current
    case Some(Parent(p)) =>
      if wantParent then current.value else Leaf(NewLeaf(p.entityNode.position))
    case Some(Leaf(l)) =>
      if wantParent then Parent(NewParent(l.entityNode.position)) else current.value
    case None =>
      if wantParent then Parent(NewParent(NewParentPosition)) else Leaf(NewLeaf(NewLeafPosition))
  }

  /** Retyping a node that already has the right variant changes nothing. */
  lemma RetypeIsIdempotent(current: Option<NodeType>, wantParent: bool)
    ensures RetypedNode(Some(RetypedNode(current, wantParent)), wantParent) == RetypedNode(current, wantParent)
  {
  }

  /** The node-editor view: the open state machine, the selected node and the node of every
      state of the open machine. */
  class NodeEditorState {
    var selectedMachine: Option<Entity>
    var selectedNode: Option<Entity>
    var nodes: map<Entity, NodeType>

    constructor()
      ensures selectedMachine.None? && selectedNode.None? && nodes == map[]
    {
      selectedMachine, selectedNode, nodes := None, None, map[];
    }

    /** Brings the nodes in line with the open machine's hierarchy: `hierarchy` is the
        selected root followed by its descendants depth first, and `hasInitialState` the
        states carrying an initial state. Every state of the hierarchy gets the node
        `RetypedNode` gives it and nodes of entities outside the hierarchy are dropped.
        Nothing happens when no machine is open or the open one is not a root. */
    method UpdateNodeTypes(roots: set<Entity>, hierarchy: seq<Entity>, hasInitialState: set<Entity>)
      modifies this
      requires selectedMachine.Some? ==> |hierarchy| > 0 && hierarchy[0] == selectedMachine.value
      ensures selectedMachine == old(selectedMachine) && selectedNode == old(selectedNode)
      ensures selectedMachine.None? || selectedMachine.value !in roots ==> nodes == old(nodes)
      ensures selectedMachine.Some? && selectedMachine.value in roots ==>
        nodes.Keys == (set e | e in hierarchy) &&
        forall e :: e in nodes ==>
          nodes[e] == RetypedNode(if e in old(nodes) then Some(old(nodes)[e]) else None, e in hasInitialState)
    {
      if selectedMachine.None? || selectedMachine.value !in roots {
        return;
      }
      nodes := RetypeAll(nodes, hierarchy, hasInitialState);
    }
  }

  /** The node map after retyping every entity of `hierarchy` in turn and dropping the
      entities outside it. */
  method RetypeAll(before: map<Entity, NodeType>, hierarchy: seq<Entity>, hasInitialState: set<Entity>)
    returns (nodes: map<Entity, NodeType>)
    ensures nodes.Keys == (set e | e in hierarchy)
    ensures forall e :: e in nodes ==>
      nodes[e] == RetypedNode(if e in before then Some(before[e]) else None, e in hasInitialState)
  {
    nodes := before;
    ghost var seen: set<Entity> := {};
    var i := 0;
    while i < |hierarchy|
      invariant 0 <= i <= |hierarchy|
      invariant forall k :: 0 <= k < i ==> hierarchy[k] in seen
      invariant forall e :: e in seen ==> e in hierarchy
      invariant RetypedSoFar(before, nodes, seen, hasInitialState)
    {
      var e := hierarchy[i];
      ghost var prev := nodes;
      nodes := RetypeOne(nodes, e, e in hasInitialState);
      RetypeStep(before, prev, seen, hasInitialState, e);
      seen := seen + {e};
      i := i + 1;
    }
    nodes := Restrict(nodes, set e | e in hierarchy);
  }

  /** The entities of `seen` have been retyped from `before`, the others kept as they were. */
  ghost predicate RetypedSoFar(before: map<Entity, NodeType>, nodes: map<Entity, NodeType>, seen: set<Entity>,
                               hasInitialState: set<Entity>)
  {
    seen <= nodes.Keys && before.Keys <= nodes.Keys && nodes.Keys <= before.Keys + seen &&
    forall e :: e in nodes ==>
      nodes[e] == (if e in seen
                   then RetypedNode(if e in before then Some(before[e]) else None, e in hasInitialState)
                   else before[e])
  }

  /** Retyping one more entity, whether seen before or not, keeps `RetypedSoFar`. */
  lemma RetypeStep(before: map<Entity, NodeType>, nodes: map<Entity, NodeType>, seen: set<Entity>,
                   hasInitialState: set<Entity>, e: Entity)
    requires RetypedSoFar(before, nodes, seen, hasInitialState)
    ensures RetypedSoFar(before, nodes[e := RetypedNode(if e in nodes then Some(nodes[e]) else None, e in hasInitialState)],
                         seen + {e}, hasInitialState)
  {
    if e in seen {
      RetypeIsIdempotent(if e in before then Some(before[e]) else None, e in hasInitialState);
    }
  }

  /** The entries of `m` whose keys lie in `keep`. */
  function Restrict(m: map<Entity, NodeType>, keep: set<Entity>): (r: map<Entity, NodeType>)
    ensures r.Keys == m.Keys * keep
    ensures forall e :: e in r ==> r[e] == m[e]
  {
    map e | e in m && e in keep :: m[e]
  }

  /** Gives `e` a node of the wanted variant: a node of the right variant is kept, one of the
      other variant is replaced at its position, a missing one is created. */
  method RetypeOne(nodes: map<Entity, NodeType>, e: Entity, wantParent: bool) returns (r: map<Entity, NodeType>)
    ensures r == nodes[e := RetypedNode(if e in nodes then Some(nodes[e]) else None, wantParent)]
  {
    r := nodes;
    if wantParent {
      if e in nodes && nodes[e].Parent? {
      } else if e in nodes {
        r := nodes[e := Parent(NewParent(nodes[e].Position()))];
      } else {
        r := nodes[e := Parent(NewParent(NewParentPosition))];
      }
    } else {
      if e in nodes && nodes[e].Leaf? {
      } else if e in nodes {
        r := nodes[e := Leaf(NewLeaf(nodes[e].Position()))];
      } else {
        r := nodes[e := Leaf(NewLeaf(NewLeafPosition))];
      }
    }
  }

  /** An entry of the render queue: the entity and its drawing height. */
  datatype RenderItem = RenderItem(entity: Entity, zOrder: int)

  /** Lower `zOrder` is drawn first. */
  function ZLe(a: RenderItem, b: RenderItem): bool { a.zOrder <= b.zOrder }

  /** Distance between the drawing heights of consecutive hierarchy positions. */
  const LayerStep: int := 10
  /** Lift given to the selected node and its ancestors; below `LayerStep`, so it never
      reorders two hierarchy positions. */
  const SelectionLift: int := 5

  /** The entity is the selected node or an ancestor of it. */
  ghost predicate Boosted(parentOf: map<Entity, Entity>, rank: map<Entity, nat>, selected: Option<Entity>, e: Entity)
    requires RankedHierarchy(parentOf, rank)
  {
    selected.Some? && (e == selected.value || IsAncestor(parentOf, rank, e, selected.value))
  }

  function Entities(q: seq<RenderItem>): (es: seq<Entity>)
    ensures |es| == |q| && forall k :: 0 <= k < |q| ==> es[k] == q[k].entity
  {
    if |q| == 0 then [] else [q[0].entity] + Entities(q[1..])
  }

  /** `nodes` has a node for the entity. */
  function HasNode(nodes: map<Entity, NodeType>): Entity -> bool
  {
    e => e in nodes
  }

  /** The height of the entity at hierarchy position `index`. */
  ghost function Height(parentOf: map<Entity, Entity>, rank: map<Entity, nat>, selected: Option<Entity>, e: Entity, index: nat): int
    requires RankedHierarchy(parentOf, rank)
  {
    LayerStep * index + (if Boosted(parentOf, rank, selected, e) then SelectionLift else 0)
  }

  /** `queue` lists the entities with nodes among the first `i` of `hierarchy`, each at the
      height of its hierarchy position, with `indices` the positions. */
  ghost predicate QueueUpTo(queue: seq<RenderItem>, indices: seq<nat>, hierarchy: seq<Entity>, i: nat,
                            nodes: map<Entity, NodeType>, selected: Option<Entity>,
                            parentOf: map<Entity, Entity>, rank: map<Entity, nat>)
    requires RankedHierarchy(parentOf, rank)
    requires i <= |hierarchy|
  {
    Entities(queue) == Filter(hierarchy[..i], HasNode(nodes)) &&
    Placed(queue, indices, hierarchy, i, selected, parentOf, rank)
  }

  /** Each queued item sits at the height of its position in `indices`, the positions lie
      below `i` and strictly increase. */
  ghost predicate Placed(queue: seq<RenderItem>, indices: seq<nat>, hierarchy: seq<Entity>, i: nat,
                         selected: Option<Entity>, parentOf: map<Entity, Entity>, rank: map<Entity, nat>)
    requires RankedHierarchy(parentOf, rank)
    requires i <= |hierarchy|
  {
    |indices| == |queue| &&
    (forall k :: 0 <= k < |queue| ==>
      indices[k] < i && hierarchy[indices[k]] == queue[k].entity &&
      queue[k].zOrder == Height(parentOf, rank, selected, queue[k].entity, indices[k])) &&
    (forall k, l :: 0 <= k < l < |queue| ==> indices[k] < indices[l])
  }

  /** Heights at strictly increasing positions are sorted, since the lift is below the step. */
  lemma QueueIsSorted(queue: seq<RenderItem>, indices: seq<nat>, hierarchy: seq<Entity>, i: nat,
                      selected: Option<Entity>, parentOf: map<Entity, Entity>, rank: map<Entity, nat>)
    requires RankedHierarchy(parentOf, rank)
    requires i <= |hierarchy|
    requires Placed(queue, indices, hierarchy, i, selected, parentOf, rank)
    ensures SortedBy(queue, ZLe)
  {
    forall k, l | 0 <= k < l < |queue|
      ensures ZLe(queue[k], queue[l])
    {
      assert indices[k] < indices[l];
    }
  }

  /** Pushing the entity at position `i` at its height keeps the queue placed, up to `i + 1`. */
  lemma PlacedPush(queue: seq<RenderItem>, indices: seq<nat>, hierarchy: seq<Entity>, i: nat,
                   selected: Option<Entity>, parentOf: map<Entity, Entity>, rank: map<Entity, nat>, boost: bool)
    requires RankedHierarchy(parentOf, rank)
    requires i < |hierarchy|
    requires Placed(queue, indices, hierarchy, i, selected, parentOf, rank)
    requires boost == Boosted(parentOf, rank, selected, hierarchy[i])
    ensures Placed(queue + [RenderItem(hierarchy[i], LayerStep * i + (if boost then SelectionLift else 0))],
                   indices + [i], hierarchy, i + 1, selected, parentOf, rank)
  {
    var q := queue + [RenderItem(hierarchy[i], LayerStep * i + (if boost then SelectionLift else 0))];
    var ix := indices + [i];
    forall k | 0 <= k < |q|
      ensures ix[k] < i + 1 && hierarchy[ix[k]] == q[k].entity
      ensures q[k].zOrder == Height(parentOf, rank, selected, q[k].entity, ix[k])
    {
      if k < |queue| {
        assert q[k] == queue[k] && ix[k] == indices[k];
      }
    }
    forall k, l | 0 <= k < l < |q|
      ensures ix[k] < ix[l]
    {
      assert ix[k] == indices[k];
    }
  }

  /** A placed queue up to `i` is placed up to `i + 1`. */
  lemma PlacedSkip(queue: seq<RenderItem>, indices: seq<nat>, hierarchy: seq<Entity>, i: nat,
                   selected: Option<Entity>, parentOf: map<Entity, Entity>, rank: map<Entity, nat>)
    requires RankedHierarchy(parentOf, rank)
    requires i < |hierarchy|
    requires Placed(queue, indices, hierarchy, i, selected, parentOf, rank)
    ensures Placed(queue, indices, hierarchy, i + 1, selected, parentOf, rank)
  {
  }

  lemma EntitiesAppend(q: seq<RenderItem>, x: RenderItem)
    ensures Entities(q + [x]) == Entities(q) + [x.entity]
  {
    assert forall k :: 0 <= k < |q| ==> (q + [x])[k] == q[k];
  }

  /** Visiting the entity at position `i`, and pushing it at its height when it has a node,
      extends the queue to `i + 1`. */
  lemma QueueStep(queue: seq<RenderItem>, indices: seq<nat>, hierarchy: seq<Entity>, i: nat,
                  nodes: map<Entity, NodeType>, selected: Option<Entity>,
                  parentOf: map<Entity, Entity>, rank: map<Entity, nat>, boost: bool)
    requires RankedHierarchy(parentOf, rank)
    requires i < |hierarchy|
    requires QueueUpTo(queue, indices, hierarchy, i, nodes, selected, parentOf, rank)
    requires boost == Boosted(parentOf, rank, selected, hierarchy[i])
    ensures hierarchy[i] in nodes ==>
      QueueUpTo(queue + [RenderItem(hierarchy[i], LayerStep * i + (if boost then SelectionLift else 0))],
                indices + [i], hierarchy, i + 1, nodes, selected, parentOf, rank)
    ensures hierarchy[i] !in nodes ==> QueueUpTo(queue, indices, hierarchy, i + 1, nodes, selected, parentOf, rank)
  {
    FilterPrefixStep(hierarchy, i, HasNode(nodes));
    if hierarchy[i] in nodes {
      var x := RenderItem(hierarchy[i], LayerStep * i + (if boost then SelectionLift else 0));
      EntitiesAppend(queue, x);
      PlacedPush(queue, indices, hierarchy, i, selected, parentOf, rank, boost);
    } else {
      PlacedSkip(queue, indices, hierarchy, i, selected, parentOf, rank);
    }
  }

  /** The queue before sorting: the entities with nodes in hierarchy order, at their heights. */
  method PushNodes(hierarchy: seq<Entity>, nodes: map<Entity, NodeType>, selected: Option<Entity>,
                   parentOf: map<Entity, Entity>, ghost rank: map<Entity, nat>)
    returns (pushed: seq<RenderItem>, ghost indices: seq<nat>)
    requires RankedHierarchy(parentOf, rank)
    ensures QueueUpTo(pushed, indices, hierarchy, |hierarchy|, nodes, selected, parentOf, rank)
  {
    pushed := [];
    indices := [];
    var i := 0;
    while i < |hierarchy|
      invariant 0 <= i <= |hierarchy|
      invariant QueueUpTo(pushed, indices, hierarchy, i, nodes, selected, parentOf, rank)
    {
      pushed, indices := PushOne(pushed, indices, hierarchy, i, nodes, selected, parentOf, rank);
      i := i + 1;
    }
  }

  /** Visits `hierarchy[i]`: an entity with a node is pushed at its height. */
  method PushOne(queue: seq<RenderItem>, ghost indices: seq<nat>, hierarchy: seq<Entity>, i: nat,
                 nodes: map<Entity, NodeType>, selected: Option<Entity>,
                 parentOf: map<Entity, Entity>, ghost rank: map<Entity, nat>)
    returns (pushed: seq<RenderItem>, ghost indices': seq<nat>)
    requires RankedHierarchy(parentOf, rank)
    requires i < |hierarchy|
    requires QueueUpTo(queue, indices, hierarchy, i, nodes, selected, parentOf, rank)
    ensures QueueUpTo(pushed, indices', hierarchy, i + 1, nodes, selected, parentOf, rank)
  {
    var e := hierarchy[i];
    var boost := ShouldGetSelectionBoost(e, selected, parentOf, rank);
    QueueStep(queue, indices, hierarchy, i, nodes, selected, parentOf, rank, boost);
    pushed, indices' := queue, indices;
    if e in nodes {
      pushed := queue + [RenderItem(e, LayerStep * i + (if boost then SelectionLift else 0))];
      indices' := indices + [i];
    }
  }

  /** The drawing order: every entity of `hierarchy` that has a node, at height ten times
      its hierarchy index plus five when it is boosted, sorted by height. Since the lift is
      smaller than the step, the order is exactly hierarchy order, and the sort keeps it. */
  method BuildRenderQueue(hierarchy: seq<Entity>, nodes: map<Entity, NodeType>, selected: Option<Entity>,
                          parentOf: map<Entity, Entity>, ghost rank: map<Entity, nat>)
    returns (queue: seq<RenderItem>, ghost indices: seq<nat>)
    requires RankedHierarchy(parentOf, rank)
    ensures SortedBy(queue, ZLe)
    ensures Entities(queue) == Filter(hierarchy, HasNode(nodes))
    ensures |indices| == |queue|
    ensures forall k :: 0 <= k < |queue| ==>
      indices[k] < |hierarchy| && hierarchy[indices[k]] == queue[k].entity &&
      queue[k].zOrder == Height(parentOf, rank, selected, queue[k].entity, indices[k])
    ensures forall k, l :: 0 <= k < l < |queue| ==> indices[k] < indices[l]
  {
    var pushed;
    pushed, indices := PushNodes(hierarchy, nodes, selected, parentOf, rank);
    assert hierarchy[..|hierarchy|] == hierarchy;
    QueueIsSorted(pushed, indices, hierarchy, |hierarchy|, selected, parentOf, rank);
    SortByKeepsSorted(pushed, ZLe);
    queue := SortBy(pushed, ZLe);
  }
}
