/** The editor's observers and helpers over one state machine's saved data: the event types
    offered for new transitions, the canvas offset applied around drawing, deleting
    transitions and nodes, keeping the transition labels in step with the edge entities,
    and the background context menu. */
module Editor {
  import opened Geometry
  import opened Strings
  import opened Seqs
  import opened Components
  import opened EditorStates

  // ---- Event types offered for new transitions ----

  /** Marks the type path of an event edge component. */
  const EdgeMarker: string := "EventEdge<"
  /** The event type of transitions that fire without an event. */
  const AlwaysEvent: string := "Always"

  /** The type argument of the first "EventEdge<": the text after the marker up to the first
      '>' that follows the marker's start. Since the marker holds no '>', that '>' always
      lies after the marker and the slice never panics. */
  function EdgeEventArg(path: string): (r: Option<string>)
    ensures Find(path, EdgeMarker).None? ==> r.None?
  {
    match Find(path, EdgeMarker)
    case None => None
    case Some(start) =>
      match Find(path[start..], ">")
      case None => None
      case Some(end) =>
        CloseAfterMarker(path, start, end);
        Some(path[start + |EdgeMarker|..start + end])
  }

  /** No character of the marker is '>', so the first '>' from the marker's start lies past it. */
  lemma CloseAfterMarker(path: string, start: nat, end: nat)
    requires IsMatchAt(path, EdgeMarker, start) && start <= |path| && IsMatchAt(path[start..], ">", end)
    ensures end >= |EdgeMarker|
  {
    forall j | 0 <= j < |EdgeMarker|
      ensures path[start..][j] != '>'
    {
      assert path[start..][j] == path[start..start + |EdgeMarker|][j];
    }
    assert path[start..][end..end + 1][0] == '>';
  }

  /** The event name of one type path: the last "::" segment of its event edge argument. */
  function EdgeName(path: string): Option<string>
  {
    match EdgeEventArg(path)
    case None => None
    case Some(arg) => Some(LastSegment(arg))
  }

  /** The event names collected from the type paths in order, each once. */
  function DiscoveredNames(paths: seq<string>): (names: seq<string>)
    ensures Distinct(names)
  {
    if |paths| == 0 then []
    else
      var names := DiscoveredNames(paths[..|paths| - 1]);
      match EdgeName(paths[|paths| - 1])
      case None => names
      case Some(name) => PushNew(names, name)
  }

  /** The collected names are exactly the names of the event edges among the paths. */
  lemma {:induction false} DiscoveredNamesAreEdgeNames(paths: seq<string>)
    ensures forall x :: x in DiscoveredNames(paths) <==> Produces(paths, EdgeName, x)
  {
    if |paths| > 0 {
      DiscoveredNamesAreEdgeNames(paths[..|paths| - 1]);
      forall x
        ensures x in DiscoveredNames(paths) <==> Produces(paths, EdgeName, x)
      {
        ProducesStep(paths, EdgeName, x);
      }
    }
  }

  /** "Always" in front, unless the list already has it. */
  function WithAlways(names: seq<string>): (r: seq<string>)
    ensures AlwaysEvent in r
    ensures forall x :: x in r <==> x in names || x == AlwaysEvent
    ensures Distinct(names) ==> Distinct(r)
    ensures AlwaysEvent !in names ==> r[0] == AlwaysEvent && r[1..] == names
    ensures AlwaysEvent in names ==> r == names
  {
    if AlwaysEvent in names then names else [AlwaysEvent] + names
  }

  /** Fills the transition workflow's event list from the registered type paths: the event
      edge names, sorted, each once, with "Always" prepended when missing. The list holds
      "Always", has no duplicates, lists exactly the edge names besides "Always", and is
      sorted after any leading "Always". Nothing else in the workflow changes. */
  method DiscoverTransitionEdgeListenerEventTypes(state: TransitionCreationState, paths: seq<string>)
    modifies state
    ensures state.availableEventTypes == WithAlways(SortBy(DiscoveredNames(paths), LexLe))
    ensures AlwaysEvent in state.availableEventTypes && Distinct(state.availableEventTypes)
    ensures forall x :: x in state.availableEventTypes <==> x == AlwaysEvent || Produces(paths, EdgeName, x)
    ensures SortedBy(SortBy(DiscoveredNames(paths), LexLe), LexLe)
    ensures state.sourceEntity == old(state.sourceEntity) && state.targetEntity == old(state.targetEntity)
    ensures state.awaitingTargetSelection == old(state.awaitingTargetSelection)
    ensures state.showEventDropdown == old(state.showEventDropdown) && state.dropdownPosition == old(state.dropdownPosition)
  {
    var eventTypes := ScanEdgeNames(paths);
    DiscoveredNamesAreEdgeNames(paths);
    SortNamesKeepsThem(eventTypes);
    var sorted := SortBy(eventTypes, LexLe);
    if AlwaysEvent !in sorted {
      sorted := [AlwaysEvent] + sorted;
    }
    state.availableEventTypes := sorted;
  }

  /** The registry scan: for each type path that holds an event edge, its name is pushed
      unless already present. */
  method ScanEdgeNames(paths: seq<string>) returns (eventTypes: seq<string>)
    ensures eventTypes == DiscoveredNames(paths)
  {
    eventTypes := [];
    var i := 0;
    while i < |paths|
      invariant 0 <= i <= |paths|
      invariant eventTypes == DiscoveredNames(paths[..i])
    {
      var typePath := paths[i];
      assert paths[..i + 1][..i] == paths[..i];
      var start := Find(typePath, EdgeMarker);
      if start.Some? {
        var end := Find(typePath[start.value..], ">");
        if end.Some? {
          CloseAfterMarker(typePath, start.value, end.value);
          var eventType := typePath[start.value + |EdgeMarker|..start.value + end.value];
          var lastPart := LastSegment(eventType);
          if lastPart !in eventTypes {
            eventTypes := eventTypes + [lastPart];
          }
        }
      }
      i := i + 1;
    }
    assert paths[..i] == paths;
  }

  // ---- Canvas offset ----

  /** Every node moved by `v`. */
  function OffsetNodes(nodes: map<Entity, NodeType>, v: Vec2): (r: map<Entity, NodeType>)
    ensures r.Keys == nodes.Keys
    ensures forall e :: e in r ==> r[e].Position() == Add(nodes[e].Position(), v) && r[e].Leaf? == nodes[e].Leaf?
  {
    map e | e in nodes :: nodes[e].WithPosition(Add(nodes[e].Position(), v))
  }

  /** Every transition label moved by `v`. */
  function OffsetLabels(ts: seq<TransitionConnection>, v: Vec2): (r: seq<TransitionConnection>)
    ensures |r| == |ts|
    ensures forall k :: 0 <= k < |ts| ==>
      r[k] == ts[k].(eventNodePosition := Add(ts[k].eventNodePosition, v))
  {
    seq(|ts|, k requires 0 <= k < |ts| => ts[k].(eventNodePosition := Add(ts[k].eventNodePosition, v)))
  }

  /** Moves every node and every transition label by the machine's canvas offset. */
  method ApplyCanvasOffset(data: StateMachinePersistentData, offset: Vec2)
    modifies data
    ensures data.nodes == OffsetNodes(old(data.nodes), offset)
    ensures data.visualTransitions == OffsetLabels(old(data.visualTransitions), offset)
  {
    ShiftAll(data, offset);
  }

  /** Moves every node and every transition label back by the canvas offset. */
  method RemoveCanvasOffset(data: StateMachinePersistentData, offset: Vec2)
    modifies data
    ensures data.nodes == OffsetNodes(old(data.nodes), Neg(offset))
    ensures data.visualTransitions == OffsetLabels(old(data.visualTransitions), Neg(offset))
  {
    ShiftAll(data, Neg(offset));
  }

  /** The shared loop of the two offset functions: each node, then each label, moved by `v`. */
  method ShiftAll(data: StateMachinePersistentData, v: Vec2)
    modifies data
    ensures data.nodes == OffsetNodes(old(data.nodes), v)
    ensures data.visualTransitions == OffsetLabels(old(data.visualTransitions), v)
  {
    var nodes := ShiftNodes(data.nodes, v);
    var labels := ShiftLabels(data.visualTransitions, v);
    data.nodes, data.visualTransitions := nodes, labels;
  }

  /** Each node, one after another, moved by `v`. */
  method ShiftNodes(before: map<Entity, NodeType>, v: Vec2) returns (nodes: map<Entity, NodeType>)
    ensures nodes == OffsetNodes(before, v)
  {
    nodes := before;
    var todo := nodes.Keys;
    while todo != {}
      invariant todo <= before.Keys && nodes.Keys == before.Keys
      invariant forall e :: e in nodes ==>
        nodes[e] == (if e in todo then before[e] else before[e].WithPosition(Add(before[e].Position(), v)))
      decreases |todo|
    {
      var e :| e in todo;
      var node := nodes[e];
      nodes := nodes[e := node.WithPosition(Add(node.Position(), v))];
      todo := todo - {e};
    }
  }

  /** Each label, one after another, moved by `v`. */
  method ShiftLabels(before: seq<TransitionConnection>, v: Vec2) returns (labels: seq<TransitionConnection>)
    ensures labels == OffsetLabels(before, v)
  {
    labels := before;
    var i := 0;
    while i < |labels|
      invariant 0 <= i <= |labels| == |before|
      invariant forall k :: 0 <= k < |labels| ==>
        labels[k] == (if k < i then before[k].(eventNodePosition := Add(before[k].eventNodePosition, v)) else before[k])
    {
      var t := labels[i];
      labels := labels[i := t.(eventNodePosition := Add(t.eventNodePosition, v))];
      i := i + 1;
    }
  }

  /** Removing the offset after applying it puts every node and label back where it was. */
  lemma CanvasOffsetRoundTrip(nodes: map<Entity, NodeType>, ts: seq<TransitionConnection>, v: Vec2)
    ensures OffsetNodes(OffsetNodes(nodes, v), Neg(v)) == nodes
    ensures OffsetLabels(OffsetLabels(ts, v), Neg(v)) == ts
  {
    var back := OffsetNodes(OffsetNodes(nodes, v), Neg(v));
    forall e | e in nodes
      ensures back[e] == nodes[e]
    {
      var n := nodes[e];
      assert back[e].Position() == n.Position();
      match n
      case Leaf(l) =>
      case Parent(p) =>
    }
    var labels := OffsetLabels(OffsetLabels(ts, v), Neg(v));
    forall k | 0 <= k < |ts|
      ensures labels[k] == ts[k]
    {
      assert labels[k].eventNodePosition == ts[k].eventNodePosition;
    }
  }

  // ---- Deleting transitions and nodes ----

  /** A request to delete the transitions from `sourceEntity` to `targetEntity` on `eventType`. */
  datatype DeleteTransition = DeleteTransition(sourceEntity: Entity, targetEntity: Entity, eventType: string)

  predicate Matches(t: TransitionConnection, d: DeleteTransition)
  {
    t.sourceEntity == d.sourceEntity && t.targetEntity == d.targetEntity && t.eventType == d.eventType
  }

  function Survives(d: DeleteTransition): TransitionConnection -> bool
  {
    (t: TransitionConnection) => !Matches(t, d)
  }

  /** Drops the labels of the transitions the request names and keeps the rest in order. */
  method HandleDeleteTransition(data: StateMachinePersistentData, d: DeleteTransition)
    modifies data
    ensures data.visualTransitions == Filter(old(data.visualTransitions), Survives(d))
    ensures data.nodes == old(data.nodes)
  {
    data.visualTransitions := Filter(data.visualTransitions, Survives(d));
  }

  /** After a deletion no label matches the request, every other label is kept, and deleting
      again changes nothing. */
  lemma DeleteTransitionIsExactAndIdempotent(ts: seq<TransitionConnection>, d: DeleteTransition)
    ensures forall t :: t in Filter(ts, Survives(d)) <==> t in ts && !Matches(t, d)
    ensures Filter(Filter(ts, Survives(d)), Survives(d)) == Filter(ts, Survives(d))
  {
    FilterIdempotent(ts, Survives(d));
  }

  /** The deletion request for a label's transition. */
  function RequestFor(t: TransitionConnection): (d: DeleteTransition)
    ensures Matches(t, d)
  {
    DeleteTransition(t.sourceEntity, t.targetEntity, t.eventType)
  }

  function RequestsFor(ts: seq<TransitionConnection>): (ds: seq<DeleteTransition>)
    ensures |ds| == |ts| && forall k :: 0 <= k < |ts| ==> ds[k] == RequestFor(ts[k])
  {
    if |ts| == 0 then [] else [RequestFor(ts[0])] + RequestsFor(ts[1..])
  }

  function TargetsEntity(e: Entity): TransitionConnection -> bool
  {
    (t: TransitionConnection) => t.targetEntity == e
  }

  /** One deletion request per label, in label order, built by the loop that triggers them. */
  method TriggerDeletions(incoming: seq<TransitionConnection>) returns (triggered: seq<DeleteTransition>)
    ensures triggered == RequestsFor(incoming)
  {
    triggered := [];
    var i := 0;
    while i < |incoming|
      invariant 0 <= i <= |incoming|
      invariant triggered == RequestsFor(incoming[..i])
    {
      var t := incoming[i];
      assert RequestsFor(incoming[..i + 1]) == RequestsFor(incoming[..i]) + [RequestFor(t)];
      triggered := triggered + [DeleteTransition(t.sourceEntity, t.targetEntity, t.eventType)];
      i := i + 1;
    }
    assert incoming[..i] == incoming;
  }

  /** Deletes the node of a state other than the root: removes only that node, returns one
      transition deletion per label that targets it, in label order, and returns the entity
      itself for despawning. The root is refused: nothing changes, nothing is triggered and
      nothing is despawned. */
  method HandleDeleteNode(data: StateMachinePersistentData, entity: Entity, root: Entity)
    returns (triggered: seq<DeleteTransition>, despawned: Option<Entity>)
    modifies data
    ensures entity == root ==> triggered == [] && despawned == None && data.nodes == old(data.nodes)
    ensures entity != root ==>
      triggered == RequestsFor(Filter(old(data.visualTransitions), TargetsEntity(entity))) &&
      despawned == Some(entity) &&
      data.nodes == old(data.nodes) - {entity}
    ensures data.visualTransitions == old(data.visualTransitions)
  {
    triggered, despawned := [], None;
    if entity == root {
      return;
    }
    triggered := TriggerDeletions(Filter(data.visualTransitions, TargetsEntity(entity)));
    data.nodes := data.nodes - {entity};
    despawned := Some(entity);
  }

  /** The labels left after handling deletion requests one after another. */
  function AfterDeletions(ts: seq<TransitionConnection>, ds: seq<DeleteTransition>): (r: seq<TransitionConnection>)
    decreases |ds|
  {
    if |ds| == 0 then ts else AfterDeletions(Filter(ts, Survives(ds[0])), ds[1..])
  }

  /** A label survives a run of deletions only when no request matches it. */
  lemma {:induction false} AfterDeletionsKeepsOnlyUnmatched(ts: seq<TransitionConnection>, ds: seq<DeleteTransition>)
    ensures forall t :: t in AfterDeletions(ts, ds) ==> t in ts && forall k :: 0 <= k < |ds| ==> !Matches(t, ds[k])
    decreases |ds|
  {
    if |ds| > 0 {
      var rest := Filter(ts, Survives(ds[0]));
      AfterDeletionsKeepsOnlyUnmatched(rest, ds[1..]);
      forall t | t in AfterDeletions(ts, ds)
        ensures t in ts && forall k :: 0 <= k < |ds| ==> !Matches(t, ds[k])
      {
        forall k | 0 <= k < |ds|
          ensures !Matches(t, ds[k])
        {
          if k > 0 {
            assert ds[k] == ds[1..][k - 1];
          }
        }
      }
    }
  }

  /** Once the requests a node deletion triggers are handled, no label points at the deleted
      state any more. */
  lemma DeletedNodeHasNoIncomingLabels(ts: seq<TransitionConnection>, entity: Entity)
    ensures forall t :: t in AfterDeletions(ts, RequestsFor(Filter(ts, TargetsEntity(entity)))) ==>
      t.targetEntity != entity
  {
    var incoming := Filter(ts, TargetsEntity(entity));
    var ds := RequestsFor(incoming);
    AfterDeletionsKeepsOnlyUnmatched(ts, ds);
    forall t | t in AfterDeletions(ts, ds)
      ensures t.targetEntity != entity
    {
    }
  }

  // ---- Keeping labels in step with the edge entities ----

  /** An edge entity of the world: its ends and the label it shows (its name, or its id when
      it has none). */
  datatype EdgeEntity = EdgeEntity(edge: Entity, source: Entity, target: Entity, name: string)

  /** The state machine root above an entity: the recorded one, or the entity itself. */
  function RootOf(roots: map<Entity, Entity>, e: Entity): Entity
  {
    if e in roots then roots[e] else e
  }

  /** The index of the first label drawn for `edge`. */
  function FindLabel(ts: seq<TransitionConnection>, edge: Entity): (r: Option<nat>)
    ensures r.Some? ==>
      r.value < |ts| && ts[r.value].edgeEntity == edge && forall j :: 0 <= j < r.value ==> ts[j].edgeEntity != edge
    ensures r.None? ==> forall j :: 0 <= j < |ts| ==> ts[j].edgeEntity != edge
  {
    if |ts| == 0 then None
    else if ts[0].edgeEntity == edge then Some(0)
    else match FindLabel(ts[1..], edge)
      case None => None
      case Some(k) => Some(k + 1)
  }

  /** An existing label refreshed from its edge: new ends, rectangles and text; the offset is
      kept, and the label is placed from it unless the user is dragging it. */
  function Refreshed(t: TransitionConnection, e: EdgeEntity, sourceRect: Rect, targetRect: Rect): (u: TransitionConnection)
    ensures u.edgeEntity == t.edgeEntity && u.eventNodeOffset == t.eventNodeOffset
    ensures u.isDraggingEventNode == t.isDraggingEventNode
    ensures u.sourceEntity == e.source && u.targetEntity == e.target && u.eventType == e.name
    ensures u.sourceRect == sourceRect && u.targetRect == targetRect
    ensures u.eventNodePosition ==
      (if t.isDraggingEventNode then t.eventNodePosition else Add(Midpoint(sourceRect, targetRect), t.eventNodeOffset))
  {
    var v := t.(sourceEntity := e.source, targetEntity := e.target, sourceRect := sourceRect,
                targetRect := targetRect, eventType := e.name);
    if !v.isDraggingEventNode then UpdateEventNodePosition(v) else v
  }

  /** A label for a new edge: at the midpoint of the two node centres, offset zero. */
  function NewLabel(e: EdgeEntity, sourceRect: Rect, targetRect: Rect): TransitionConnection
  {
    TransitionConnection(e.source, e.edge, e.target, e.name, sourceRect, targetRect,
                         Midpoint(sourceRect, targetRect), false, ZeroVec)
  }

  /** The labels after visiting one edge: unchanged when either end has no node; otherwise
      its first label is refreshed in place, or a new label is appended. */
  function SyncOne(ts: seq<TransitionConnection>, e: EdgeEntity, rects: map<Entity, Rect>): (r: seq<TransitionConnection>)
    ensures |ts| <= |r| <= |ts| + 1
    ensures forall j :: 0 <= j < |ts| ==> r[j].edgeEntity == ts[j].edgeEntity
    ensures e.source in rects && e.target in rects ==> exists k :: 0 <= k < |r| && r[k].edgeEntity == e.edge
  {
    if e.source !in rects || e.target !in rects then ts
    else match FindLabel(ts, e.edge)
      case Some(k) => ts[k := Refreshed(ts[k], e, rects[e.source], rects[e.target])]
      case None =>
        var r := ts + [NewLabel(e, rects[e.source], rects[e.target])];
        assert r[|ts|].edgeEntity == e.edge;
        r
  }

  /** The labels after visiting the edges of the machine rooted at `root`, in order. */
  function SyncAll(ts: seq<TransitionConnection>, edges: seq<EdgeEntity>, rects: map<Entity, Rect>,
                   root: Entity, roots: map<Entity, Entity>): seq<TransitionConnection>
  {
    if |edges| == 0 then ts
    else
      var before := SyncAll(ts, edges[..|edges| - 1], rects, root, roots);
      var e := edges[|edges| - 1];
      if RootOf(roots, e.source) != root then before else SyncOne(before, e, rects)
  }

  /** The edges of the machine rooted at `root`. */
  function SeenEdges(edges: seq<EdgeEntity>, root: Entity, roots: map<Entity, Entity>): set<Entity>
  {
    set e | e in edges && RootOf(roots, e.source) == root :: e.edge
  }

  function EdgeSeen(seen: set<Entity>): TransitionConnection -> bool
  {
    (t: TransitionConnection) => t.edgeEntity in seen
  }

  /** The rectangle of every node. */
  function NodeRects(nodes: map<Entity, NodeType>): (rects: map<Entity, Rect>)
    ensures rects.Keys == nodes.Keys
  {
    map e | e in nodes :: nodes[e].NodeRect()
  }

  /** The first label of an edge, found by scanning the labels in order. */
  method FindLabelIndex(ts: seq<TransitionConnection>, edge: Entity) returns (r: Option<nat>)
    ensures r == FindLabel(ts, edge)
  {
    var i := 0;
    while i < |ts|
      invariant 0 <= i <= |ts|
      invariant forall j :: 0 <= j < i ==> ts[j].edgeEntity != edge
    {
      if ts[i].edgeEntity == edge {
        FindLabelIsFirst(ts, edge, i);
        return Some(i);
      }
      i := i + 1;
    }
    FindLabelIsFirst(ts, edge, |ts|);
    return None;
  }

  lemma FindLabelIsFirst(ts: seq<TransitionConnection>, edge: Entity, i: nat)
    requires i <= |ts| && forall j :: 0 <= j < i ==> ts[j].edgeEntity != edge
    requires i < |ts| ==> ts[i].edgeEntity == edge
    ensures FindLabel(ts, edge) == (if i < |ts| then Some(i) else None)
  {
    var r := FindLabel(ts, edge);
    if r.Some? {
      assert r.value >= i;
    }
  }

  /** Visits one edge whose two ends have nodes: refreshes its first label in place, or
      appends a new label when it has none. */
  method SyncEdge(data: StateMachinePersistentData, e: EdgeEntity, nodeRects: map<Entity, Rect>)
    requires e.source in nodeRects && e.target in nodeRects
    modifies data
    ensures data.visualTransitions == SyncOne(old(data.visualTransitions), e, nodeRects)
    ensures data.nodes == old(data.nodes)
  {
    var sourceRect, targetRect := nodeRects[e.source], nodeRects[e.target];
    var found := FindLabelIndex(data.visualTransitions, e.edge);
    if found.Some? {
      var k := found.value;
      var vt := data.visualTransitions[k];
      vt := vt.(sourceEntity := e.source, targetEntity := e.target, sourceRect := sourceRect,
                targetRect := targetRect, eventType := e.name);
      if !vt.isDraggingEventNode {
        vt := UpdateEventNodePosition(vt);
      }
      data.visualTransitions := data.visualTransitions[k := vt];
    } else {
      data.visualTransitions := data.visualTransitions + [NewLabel(e, sourceRect, targetRect)];
    }
  }

  lemma SeenEdgesStep(edges: seq<EdgeEntity>, i: nat, root: Entity, roots: map<Entity, Entity>)
    requires i < |edges|
    ensures SeenEdges(edges[..i + 1], root, roots) ==
      SeenEdges(edges[..i], root, roots) + (if RootOf(roots, edges[i].source) == root then {edges[i].edge} else {})
  {
    assert edges[..i + 1] == edges[..i] + [edges[i]];
  }

  /** Brings the labels of the machine rooted at `root` in line with its edge entities:
      each edge refreshes its label or gets a new one when both its ends have nodes, and
      labels of edges that no longer exist are dropped. */
  method SyncEdgeVisualsFromEcs(data: StateMachinePersistentData, root: Entity, edges: seq<EdgeEntity>,
                                roots: map<Entity, Entity>)
    modifies data
    ensures data.visualTransitions ==
      Filter(SyncAll(old(data.visualTransitions), edges, NodeRects(old(data.nodes)), root, roots),
             EdgeSeen(SeenEdges(edges, root, roots)))
    ensures data.nodes == old(data.nodes)
  {
    var seenEdges: set<Entity> := {};
    var nodeRects := map e | e in data.nodes :: data.nodes[e].NodeRect();
    assert nodeRects == NodeRects(data.nodes);
    var i := 0;
    while i < |edges|
      invariant 0 <= i <= |edges|
      invariant data.nodes == old(data.nodes)
      invariant data.visualTransitions == SyncAll(old(data.visualTransitions), edges[..i], nodeRects, root, roots)
      invariant seenEdges == SeenEdges(edges[..i], root, roots)
    {
      var e := edges[i];
      assert edges[..i + 1][..i] == edges[..i];
      SeenEdgesStep(edges, i, root, roots);
      if RootOf(roots, e.source) == root {
        seenEdges := seenEdges + {e.edge};
        if e.source in nodeRects && e.target in nodeRects {
          SyncEdge(data, e, nodeRects);
        }
      }
      i := i + 1;
    }
    assert edges[..i] == edges;
    data.visualTransitions := Filter(data.visualTransitions, EdgeSeen(seenEdges));
  }

  /** After a sync every edge of the machine whose two ends have nodes has a label, and every
      label belongs to an edge of the machine. */
  lemma {:induction false} SyncCoversEdges(ts: seq<TransitionConnection>, edges: seq<EdgeEntity>,
                                           rects: map<Entity, Rect>, root: Entity, roots: map<Entity, Entity>)
    ensures forall k ::
      (0 <= k < |edges| && RootOf(roots, edges[k].source) == root &&
       edges[k].source in rects && edges[k].target in rects) ==>
      exists j :: 0 <= j < |SyncAll(ts, edges, rects, root, roots)| &&
        SyncAll(ts, edges, rects, root, roots)[j].edgeEntity == edges[k].edge
  {
    if |edges| > 0 {
      var prefix := edges[..|edges| - 1];
      SyncCoversEdges(ts, prefix, rects, root, roots);
      var before := SyncAll(ts, prefix, rects, root, roots);
      var after := SyncAll(ts, edges, rects, root, roots);
      assert |before| <= |after|;
      assert forall j :: 0 <= j < |before| ==> after[j].edgeEntity == before[j].edgeEntity;
      forall k | 0 <= k < |edges| && RootOf(roots, edges[k].source) == root &&
        edges[k].source in rects && edges[k].target in rects
        ensures exists j :: 0 <= j < |after| && after[j].edgeEntity == edges[k].edge
      {
        if k < |prefix| {
          assert edges[k] == prefix[k];
          var j :| 0 <= j < |before| && before[j].edgeEntity == prefix[k].edge;
          assert after[j].edgeEntity == edges[k].edge;
        } else {
          assert edges[k] == edges[|edges| - 1];
          assert after == SyncOne(before, edges[k], rects);
        }
      }
      assert after == SyncAll(ts, edges, rects, root, roots);
    }
  }

  /** Dropping labels of unseen edges keeps every label of a seen edge. */
  lemma SyncedLabelsOfSeenEdgesSurvive(ts: seq<TransitionConnection>, edges: seq<EdgeEntity>,
                                       rects: map<Entity, Rect>, root: Entity, roots: map<Entity, Entity>)
    ensures var synced := Filter(SyncAll(ts, edges, rects, root, roots), EdgeSeen(SeenEdges(edges, root, roots)));
      (forall t :: t in synced ==> t.edgeEntity in SeenEdges(edges, root, roots)) &&
      forall k ::
        (0 <= k < |edges| && RootOf(roots, edges[k].source) == root &&
         edges[k].source in rects && edges[k].target in rects) ==>
        exists t :: t in synced && t.edgeEntity == edges[k].edge
  {
    var all := SyncAll(ts, edges, rects, root, roots);
    var seen := SeenEdges(edges, root, roots);
    var synced := Filter(all, EdgeSeen(seen));
    SyncCoversEdges(ts, edges, rects, root, roots);
    forall k | 0 <= k < |edges| && RootOf(roots, edges[k].source) == root &&
      edges[k].source in rects && edges[k].target in rects
      ensures exists t :: t in synced && t.edgeEntity == edges[k].edge
    {
      var j :| 0 <= j < |all| && all[j].edgeEntity == edges[k].edge;
      assert edges[k] in edges;
      assert edges[k].edge in seen;
      assert all[j] in synced;
    }
  }

  // ---- Context menus ----

  /** The context-menu part of the editor state. */
  class EditorMenus {
    var contextMenuEntity: Option<Entity>
    var contextMenuPosition: Option<Pos>
    var transitionContextMenu: Option<(Entity, Entity, string, Entity)>
    var transitionContextMenuPosition: Option<Pos>
    var showMachineSelectionMenu: bool
    var backgroundContextMenuPosition: Option<Pos>
    var suppressBackgroundContextMenuOnce: bool

    constructor()
      ensures NodeAndTransitionMenusClosed() && backgroundContextMenuPosition.None?
      ensures !suppressBackgroundContextMenuOnce
    {
      contextMenuEntity, contextMenuPosition := None, None;
      transitionContextMenu, transitionContextMenuPosition := None, None;
      showMachineSelectionMenu, backgroundContextMenuPosition := false, None;
      suppressBackgroundContextMenuOnce := false;
    }

    /** Neither the node menu, nor the transition menu, nor the machine submenu is open. */
    predicate NodeAndTransitionMenusClosed()
      reads this
    {
      contextMenuEntity.None? && contextMenuPosition.None? && transitionContextMenu.None? &&
      transitionContextMenuPosition.None? && !showMachineSelectionMenu
    }

    /** Opens the background menu at `position`, closing the other menus; when a node or
        transition menu opened this frame, only consumes the suppression flag. */
    method HandleBackgroundContextMenuRequest(position: Pos)
      modifies this
      ensures !suppressBackgroundContextMenuOnce
      ensures old(suppressBackgroundContextMenuOnce) ==>
        contextMenuEntity == old(contextMenuEntity) && contextMenuPosition == old(contextMenuPosition) &&
        transitionContextMenu == old(transitionContextMenu) &&
        transitionContextMenuPosition == old(transitionContextMenuPosition) &&
        showMachineSelectionMenu == old(showMachineSelectionMenu) &&
        backgroundContextMenuPosition == old(backgroundContextMenuPosition)
      ensures !old(suppressBackgroundContextMenuOnce) ==>
        NodeAndTransitionMenusClosed() && backgroundContextMenuPosition == Some(position)
    {
      if suppressBackgroundContextMenuOnce {
        suppressBackgroundContextMenuOnce := false;
        return;
      }
      contextMenuEntity := None;
      contextMenuPosition := None;
      transitionContextMenu := None;
      transitionContextMenuPosition := None;
      showMachineSelectionMenu := false;
      backgroundContextMenuPosition := Some(position);
    }

    /** A right click on the canvas closes the node and transition menus and requests the
        background menu at the cursor (the origin when the cursor position is unknown); a set
        suppression flag is consumed instead and nothing else happens. */
    method HandleBackgroundInteractions(secondaryClicked: bool, hoverPos: Option<Pos>)
      returns (request: Option<Pos>)
      modifies this
      ensures !suppressBackgroundContextMenuOnce
      ensures backgroundContextMenuPosition == old(backgroundContextMenuPosition)
      ensures old(suppressBackgroundContextMenuOnce) || !secondaryClicked ==>
        request.None? &&
        contextMenuEntity == old(contextMenuEntity) && contextMenuPosition == old(contextMenuPosition) &&
        transitionContextMenu == old(transitionContextMenu) &&
        transitionContextMenuPosition == old(transitionContextMenuPosition) &&
        showMachineSelectionMenu == old(showMachineSelectionMenu)
      ensures !old(suppressBackgroundContextMenuOnce) && secondaryClicked ==>
        NodeAndTransitionMenusClosed() &&
        request == Some(if hoverPos.Some? then hoverPos.value else Pos(0.0, 0.0))
    {
      request := None;
      if suppressBackgroundContextMenuOnce {
        suppressBackgroundContextMenuOnce := false;
        return;
      }
      if secondaryClicked {
        var cursorPos := if hoverPos.Some? then hoverPos.value else Pos(0.0, 0.0);
        contextMenuEntity := None;
        contextMenuPosition := None;
        transitionContextMenu := None;
        transitionContextMenuPosition := None;
        showMachineSelectionMenu := false;
        request := Some(cursorPos);
      }
    }
  }
}
