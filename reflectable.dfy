/** The saved form of a machine's editor data: node positions with their kind, and the
    transition labels' positions and offsets, converted to and from the live data. */
module Reflectable {
  import opened Geometry
  import opened EntityNodes
  import opened LeafNodes
  import opened ParentNodes
  import opened Components
  import opened EditorStates

  datatype ReflectableNodeType = LeafType | ParentType

  datatype ReflectableNode = ReflectableNode(position: Pos, nodeType: ReflectableNodeType)

  datatype ReflectableTransitionConnection = ReflectableTransitionConnection(
    sourceEntity: Entity,
    targetEntity: Entity,
    eventType: string,
    position: Pos,
    offset: Vec2)

  datatype ReflectableData = ReflectableData(
    nodes: map<Entity, ReflectableNode>,
    visualTransitions: seq<ReflectableTransitionConnection>)

  /** A state is saved as a parent exactly when it has children. */
  function DetermineNodeType(entity: Entity, withChildren: set<Entity>): (t: ReflectableNodeType)
    ensures t == ParentType <==> entity in withChildren
  {
    if entity in withChildren then ParentType else LeafType
  }

  /** The saved form of every node: its position and its kind. */
  function SavedNodes(nodes: map<Entity, NodeType>, withChildren: set<Entity>): (r: map<Entity, ReflectableNode>)
    ensures r.Keys == nodes.Keys
    ensures forall e :: e in r ==> r[e].position == nodes[e].Position()
  {
    map e | e in nodes :: ReflectableNode(nodes[e].Position(), DetermineNodeType(e, withChildren))
  }

  function SavedTransition(t: TransitionConnection): ReflectableTransitionConnection
  {
    ReflectableTransitionConnection(t.sourceEntity, t.targetEntity, t.eventType, t.eventNodePosition, t.eventNodeOffset)
  }

  function SavedTransitions(ts: seq<TransitionConnection>): (r: seq<ReflectableTransitionConnection>)
    ensures |r| == |ts| && forall k :: 0 <= k < |ts| ==> r[k] == SavedTransition(ts[k])
  {
    seq(|ts|, k requires 0 <= k < |ts| => SavedTransition(ts[k]))
  }

  /** A node rebuilt from its saved form: a fresh leaf or parent at the saved position. */
  function RestoredNode(n: ReflectableNode): (r: NodeType)
    ensures r.Position() == n.position
    ensures r.Parent? <==> n.nodeType == ParentType
  {
    match n.nodeType
    case LeafType => Leaf(NewLeaf(n.position))
    case ParentType => Parent(NewParent(n.position))
  }

  function RestoredNodes(nodes: map<Entity, ReflectableNode>): (r: map<Entity, NodeType>)
    ensures r.Keys == nodes.Keys
  {
    map e | e in nodes :: RestoredNode(nodes[e])
  }

  /** A label rebuilt from its saved form: not being dragged, with placeholder rectangles and
      edge until the nodes are drawn again. */
  function RestoredTransition(t: ReflectableTransitionConnection, noRect: Rect, noEdge: Entity): TransitionConnection
  {
    TransitionConnection(t.sourceEntity, noEdge, t.targetEntity, t.eventType, noRect, noRect, t.position, false, t.offset)
  }

  function RestoredTransitions(ts: seq<ReflectableTransitionConnection>, noRect: Rect, noEdge: Entity): (r: seq<TransitionConnection>)
    ensures |r| == |ts| && forall k :: 0 <= k < |ts| ==> r[k] == RestoredTransition(ts[k], noRect, noEdge)
  {
    seq(|ts|, k requires 0 <= k < |ts| => RestoredTransition(ts[k], noRect, noEdge))
  }

  /** The saved form of every node, built entry by entry. */
  method SaveNodes(source: map<Entity, NodeType>, withChildren: set<Entity>) returns (nodes: map<Entity, ReflectableNode>)
    ensures nodes == SavedNodes(source, withChildren)
  {
    nodes := map[];
    var todo := source.Keys;
    while todo != {}
      invariant todo <= source.Keys
      invariant nodes.Keys == source.Keys - todo
      invariant forall e :: e in nodes ==>
        nodes[e] == ReflectableNode(source[e].Position(), DetermineNodeType(e, withChildren))
      decreases |todo|
    {
      var entity :| entity in todo;
      var nodeType := if entity in withChildren then ParentType else LeafType;
      nodes := nodes[entity := ReflectableNode(source[entity].Position(), nodeType)];
      todo := todo - {entity};
    }
  }

  /** The saved form of every label, in order. */
  method SaveTransitions(source: seq<TransitionConnection>) returns (saved: seq<ReflectableTransitionConnection>)
    ensures saved == SavedTransitions(source)
  {
    saved := [];
    var i := 0;
    while i < |source|
      invariant 0 <= i <= |source|
      invariant saved == SavedTransitions(source[..i])
    {
      saved := saved + [SavedTransition(source[i])];
      i := i + 1;
    }
    assert source[..i] == source;
  }

  /** Converts the live data to its saved form: each node with its position and kind, and
      each label in order. */
  method FromPersistentData(data: StateMachinePersistentData, withChildren: set<Entity>) returns (r: ReflectableData)
    ensures r.nodes == SavedNodes(data.nodes, withChildren)
    ensures r.visualTransitions == SavedTransitions(data.visualTransitions)
  {
    var nodes := SaveNodes(data.nodes, withChildren);
    var visualTransitions := SaveTransitions(data.visualTransitions);
    r := ReflectableData(nodes, visualTransitions);
  }

  /** Rebuilds live data from the saved form: nodes of the saved kind at the saved positions,
      with default sizes, and labels in order, not being dragged. */
  method ToPersistentData(saved: ReflectableData, noRect: Rect, noEdge: Entity) returns (data: StateMachinePersistentData)
    ensures fresh(data)
    ensures data.nodes == RestoredNodes(saved.nodes)
    ensures data.visualTransitions == RestoredTransitions(saved.visualTransitions, noRect, noEdge)
  {
    var nodes := RestoreNodes(saved.nodes);
    var visualTransitions := RestoreTransitions(saved.visualTransitions, noRect, noEdge);
    data := new StateMachinePersistentData();
    data.nodes := nodes;
    data.visualTransitions := visualTransitions;
  }

  /** Rebuilds every saved node as a fresh leaf or parent at its saved position. */
  method RestoreNodes(source: map<Entity, ReflectableNode>) returns (nodes: map<Entity, NodeType>)
    ensures nodes == RestoredNodes(source)
  {
    nodes := map[];
    var todo := source.Keys;
    while todo != {}
      invariant todo <= source.Keys
      invariant nodes.Keys == source.Keys - todo
      invariant forall e :: e in nodes ==> nodes[e] == RestoredNode(source[e])
      decreases |todo|
    {
      var entity :| entity in todo;
      var position := source[entity].position;
      var node := match source[entity].nodeType
        case LeafType => Leaf(NewLeaf(position))
        case ParentType => Parent(NewParent(position));
      nodes := nodes[entity := node];
      todo := todo - {entity};
    }
  }

  /** Rebuilds every saved label in order, with placeholder edge and rectangles, not dragged. */
  method RestoreTransitions(source: seq<ReflectableTransitionConnection>, noRect: Rect, noEdge: Entity)
    returns (visualTransitions: seq<TransitionConnection>)
    ensures visualTransitions == RestoredTransitions(source, noRect, noEdge)
  {
    visualTransitions := [];
    var i := 0;
    while i < |source|
      invariant 0 <= i <= |source|
      invariant visualTransitions == RestoredTransitions(source[..i], noRect, noEdge)
    {
      var t := source[i];
      visualTransitions := visualTransitions + [TransitionConnection(t.sourceEntity, noEdge, t.targetEntity, t.eventType,
                                                                     noRect, noRect, t.position, false, t.offset)];
      i := i + 1;
    }
    assert source[..i] == source;
  }

  /** Saving and restoring keeps every node at its place, as a parent exactly when it has
      children, and every label in order with its ends, event, position and offset. */
  lemma SaveRestoreKeepsLayout(nodes: map<Entity, NodeType>, ts: seq<TransitionConnection>, withChildren: set<Entity>,
                               noRect: Rect, noEdge: Entity)
    ensures var r := RestoredNodes(SavedNodes(nodes, withChildren));
      r.Keys == nodes.Keys &&
      forall e :: e in r ==> r[e].Position() == nodes[e].Position() && (r[e].Parent? <==> e in withChildren)
    ensures var u := RestoredTransitions(SavedTransitions(ts), noRect, noEdge);
      |u| == |ts| &&
      forall k :: 0 <= k < |ts| ==>
        u[k].sourceEntity == ts[k].sourceEntity && u[k].targetEntity == ts[k].targetEntity &&
        u[k].eventType == ts[k].eventType && u[k].eventNodePosition == ts[k].eventNodePosition &&
        u[k].eventNodeOffset == ts[k].eventNodeOffset && !u[k].isDraggingEventNode
  {
    var saved := SavedNodes(nodes, withChildren);
    var r := RestoredNodes(saved);
    forall e | e in r
      ensures r[e].Position() == nodes[e].Position() && (r[e].Parent? <==> e in withChildren)
    {
      assert r[e] == RestoredNode(saved[e]);
    }
  }

  /** Restoring and saving again gives back the saved form, when the saved kinds agree with
      which states have children. */
  lemma RestoreSaveIsIdentity(saved: ReflectableData, withChildren: set<Entity>, noRect: Rect, noEdge: Entity)
    requires forall e :: e in saved.nodes ==> (saved.nodes[e].nodeType == ParentType <==> e in withChildren)
    ensures SavedNodes(RestoredNodes(saved.nodes), withChildren) == saved.nodes
    ensures SavedTransitions(RestoredTransitions(saved.visualTransitions, noRect, noEdge)) == saved.visualTransitions
  {
    var back := SavedNodes(RestoredNodes(saved.nodes), withChildren);
    forall e | e in saved.nodes
      ensures back[e] == saved.nodes[e]
    {
      assert RestoredNodes(saved.nodes)[e] == RestoredNode(saved.nodes[e]);
    }
  }
}
