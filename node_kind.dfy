/** The editor's own small state machine per state entity, tracking whether the state is drawn
    as a leaf, a parent or a parallel container: its transition table, the registry of
    these machines, and the component changes made on entering each kind. */
module NodeKinds {
  import opened Geometry
  import opened LeafNodes
  import opened Components
  import opened EditorStates

  datatype NodeKind = LeafKind | ParentKind | ParallelKind

  datatype NodeKindEvent =
    | AddChildClicked
    | ChildAdded
    | AllChildrenRemoved
    | MakeParallelClicked
    | MakeParentClicked
    | MakeLeafClicked

  /** An event edge of the machine: on `event` in `source`, go to `target`. */
  datatype KindEdge = KindEdge(source: NodeKind, event: NodeKindEvent, target: NodeKind)

  /** The edges every machine is built with, in the order they are created. */
  const KindEdges: seq<KindEdge> := [
    KindEdge(LeafKind, AddChildClicked, ParentKind),
    KindEdge(LeafKind, ChildAdded, ParentKind),
    KindEdge(ParentKind, MakeParallelClicked, ParallelKind),
    KindEdge(LeafKind, MakeParallelClicked, ParallelKind),
    KindEdge(LeafKind, MakeParentClicked, ParentKind),
    KindEdge(ParallelKind, MakeParentClicked, ParentKind),
    KindEdge(ParentKind, AllChildrenRemoved, LeafKind),
    KindEdge(ParallelKind, AllChildrenRemoved, LeafKind),
    KindEdge(ParentKind, MakeLeafClicked, LeafKind),
    KindEdge(ParallelKind, MakeLeafClicked, LeafKind)
  ]

  /** Every machine starts as a leaf. */
  const InitialKind: NodeKind := LeafKind

  /** The target of the first edge at index `i` or later that leaves `k` on `ev`. */
  function FindEdgeFrom(edges: seq<KindEdge>, k: NodeKind, ev: NodeKindEvent, i: nat): (r: Option<NodeKind>)
    ensures r.Some? <==> exists j :: i <= j < |edges| && edges[j].source == k && edges[j].event == ev
    ensures r.Some? ==> exists j :: i <= j < |edges| && edges[j] == KindEdge(k, ev, r.value)
    decreases |edges| - i
  {
    if i >= |edges| then None
    else if edges[i].source == k && edges[i].event == ev then
      assert edges[i] == KindEdge(k, ev, edges[i].target);
      Some(edges[i].target)
    else FindEdgeFrom(edges, k, ev, i + 1)
  }

  /** The target of the first edge leaving `k` on `ev`. */
  function FindEdge(edges: seq<KindEdge>, k: NodeKind, ev: NodeKindEvent): (r: Option<NodeKind>)
    ensures r.Some? <==> exists j :: 0 <= j < |edges| && edges[j].source == k && edges[j].event == ev
    ensures r.Some? ==> exists j :: 0 <= j < |edges| && edges[j] == KindEdge(k, ev, r.value)
  {
    FindEdgeFrom(edges, k, ev, 0)
  }

  /** The kind after `ev`: the edge's target, or `k` itself when no edge leaves `k` on `ev`. */
  function Next(k: NodeKind, ev: NodeKindEvent): NodeKind
  {
    match FindEdge(KindEdges, k, ev)
    case None => k
    case Some(t) => t
  }

  /** The table read row by row: a leaf becomes a parent on a new child and a parallel on
      request; parent and parallel turn into each other on request; both fall back to a
      leaf when the children are gone or on request; nothing else moves. */
  lemma NextTable(k: NodeKind, ev: NodeKindEvent)
    ensures Next(k, ev) ==
      match ev
      case AddChildClicked => if k == LeafKind then ParentKind else k
      case ChildAdded => if k == LeafKind then ParentKind else k
      case MakeParallelClicked => ParallelKind
      case MakeParentClicked => ParentKind
      case AllChildrenRemoved => LeafKind
      case MakeLeafClicked => LeafKind
  {
    match k
    case LeafKind =>
      match ev {
        case AddChildClicked => FirstMatchAt(KindEdges, k, ev, 0);
        case ChildAdded => FirstMatchAt(KindEdges, k, ev, 1);
        case AllChildrenRemoved => NoMatch(KindEdges, k, ev);
        case MakeParallelClicked => FirstMatchAt(KindEdges, k, ev, 3);
        case MakeParentClicked => FirstMatchAt(KindEdges, k, ev, 4);
        case MakeLeafClicked => NoMatch(KindEdges, k, ev);
      }
    case ParentKind =>
      match ev {
        case AddChildClicked => NoMatch(KindEdges, k, ev);
        case ChildAdded => NoMatch(KindEdges, k, ev);
        case AllChildrenRemoved => FirstMatchAt(KindEdges, k, ev, 6);
        case MakeParallelClicked => FirstMatchAt(KindEdges, k, ev, 2);
        case MakeParentClicked => NoMatch(KindEdges, k, ev);
        case MakeLeafClicked => FirstMatchAt(KindEdges, k, ev, 8);
      }
    case ParallelKind =>
      match ev {
        case AddChildClicked => NoMatch(KindEdges, k, ev);
        case ChildAdded => NoMatch(KindEdges, k, ev);
        case AllChildrenRemoved => FirstMatchAt(KindEdges, k, ev, 7);
        case MakeParallelClicked => NoMatch(KindEdges, k, ev);
        case MakeParentClicked => FirstMatchAt(KindEdges, k, ev, 5);
        case MakeLeafClicked => FirstMatchAt(KindEdges, k, ev, 9);
      }
  }

  /** Edges before `j` that do not match are skipped. */
  lemma {:induction false} SkipNonMatching(edges: seq<KindEdge>, k: NodeKind, ev: NodeKindEvent, i: nat, j: nat)
    requires i <= j <= |edges|
    requires forall l :: i <= l < j ==> edges[l].source != k || edges[l].event != ev
    ensures FindEdgeFrom(edges, k, ev, i) == FindEdgeFrom(edges, k, ev, j)
    decreases j - i
  {
    if i < j {
      SkipNonMatching(edges, k, ev, i + 1, j);
    }
  }

  /** The lookup finds the edge at `j` when it is the first that matches. */
  lemma FirstMatchAt(edges: seq<KindEdge>, k: NodeKind, ev: NodeKindEvent, j: nat)
    requires j < |edges| && edges[j].source == k && edges[j].event == ev
    requires forall l :: 0 <= l < j ==> edges[l].source != k || edges[l].event != ev
    ensures FindEdge(edges, k, ev) == Some(edges[j].target)
  {
    SkipNonMatching(edges, k, ev, 0, j);
  }

  /** The lookup finds nothing when no edge matches. */
  lemma NoMatch(edges: seq<KindEdge>, k: NodeKind, ev: NodeKindEvent)
    requires forall l :: 0 <= l < |edges| ==> edges[l].source != k || edges[l].event != ev
    ensures FindEdge(edges, k, ev).None?
  {
  }

  /** No two edges leave the same kind on the same event, so the order of the table does not
      matter. */
  lemma EdgesAreDeterministic()
    ensures forall i, j :: 0 <= i < j < |KindEdges| ==>
      KindEdges[i].source != KindEdges[j].source || KindEdges[i].event != KindEdges[j].event
  {
  }

  /** The kind after a run of events. */
  function Run(k: NodeKind, evs: seq<NodeKindEvent>): NodeKind
    decreases |evs|
  {
    if |evs| == 0 then k else Run(Next(k, evs[0]), evs[1..])
  }

  /** The three "Make" requests and the loss of all children decide the kind regardless of
      what came before: the kind after a run ending in one of them is that event's kind. */
  lemma {:induction false} RunEndsInLastRequest(k: NodeKind, evs: seq<NodeKindEvent>)
    requires |evs| > 0 && evs[|evs| - 1] in {MakeParallelClicked, MakeParentClicked, MakeLeafClicked, AllChildrenRemoved}
    ensures Run(k, evs) == match evs[|evs| - 1]
      case MakeParallelClicked => ParallelKind
      case MakeParentClicked => ParentKind
      case _ => LeafKind
    decreases |evs|
  {
    if |evs| == 1 {
      NextTable(k, evs[0]);
      assert Run(Next(k, evs[0]), evs[1..]) == Next(k, evs[0]);
    } else {
      RunEndsInLastRequest(Next(k, evs[0]), evs[1..]);
    }
  }

  /** The registry after creating a machine for every listed state that has none: each new
      machine gets the next free id and starts as a leaf. Returns the roots by state, the
      active kind by machine root, and the next free id. */
  function Synced(roots: map<Entity, Entity>, kinds: map<Entity, NodeKind>, states: seq<Entity>, next: nat)
    : (r: (map<Entity, Entity>, map<Entity, NodeKind>, nat))
    ensures r.0.Keys == roots.Keys + set s | s in states
    ensures forall s :: s in roots ==> r.0[s] == roots[s]
    ensures next <= r.2
    decreases |states|
  {
    if |states| == 0 then (roots, kinds, next)
    else
      var before := Synced(roots, kinds, states[..|states| - 1], next);
      var s := states[|states| - 1];
      assert states == states[..|states| - 1] + [s];
      SyncStep(before, s)
  }

  /** Visiting one state: it gets a fresh machine, started as a leaf, unless it has one. */
  function SyncStep(reg: (map<Entity, Entity>, map<Entity, NodeKind>, nat), s: Entity)
    : (r: (map<Entity, Entity>, map<Entity, NodeKind>, nat))
    ensures r.0.Keys == reg.0.Keys + {s}
  {
    if s in reg.0 then reg
    else (reg.0[s := reg.2], reg.1[reg.2 := InitialKind], reg.2 + 1)
  }

  /** Every registered machine has an active kind and an id already handed out, and no two
      states share a machine. */
  ghost predicate RegistryValid(roots: map<Entity, Entity>, kinds: map<Entity, NodeKind>, next: nat)
  {
    (forall s :: s in roots ==> roots[s] in kinds && roots[s] < next) &&
    forall s, t :: s in roots && t in roots && s != t ==> roots[s] != roots[t]
  }

  lemma SyncStepKeepsValid(reg: (map<Entity, Entity>, map<Entity, NodeKind>, nat), s: Entity)
    requires RegistryValid(reg.0, reg.1, reg.2)
    ensures var r := SyncStep(reg, s); RegistryValid(r.0, r.1, r.2)
  {
  }

  lemma SyncedPrefixStep(roots: map<Entity, Entity>, kinds: map<Entity, NodeKind>, states: seq<Entity>, next: nat, i: nat)
    requires i < |states|
    ensures Synced(roots, kinds, states[..i + 1], next) == SyncStep(Synced(roots, kinds, states[..i], next), states[i])
  {
    assert states[..i + 1][..i] == states[..i];
  }

  /** Each new machine gets its own id, not handed out before, and starts as a leaf; the
      active kind of every machine that existed before is kept. */
  lemma SyncedNewMachines(roots: map<Entity, Entity>, kinds: map<Entity, NodeKind>, states: seq<Entity>, next: nat)
    ensures var r := Synced(roots, kinds, states, next);
      (forall s :: s in r.0 && s !in roots ==> next <= r.0[s] < r.2 && r.0[s] in r.1 && r.1[r.0[s]] == InitialKind) &&
      (forall s, t :: s in r.0 && t in r.0 && s !in roots && t !in roots && s != t ==> r.0[s] != r.0[t]) &&
      (forall m :: m in kinds && m < next ==> m in r.1 && r.1[m] == kinds[m])
  {
    SyncedIdsFresh(roots, kinds, states, next);
    SyncedNewKinds(roots, kinds, states, next);
    SyncedIdsDistinct(roots, kinds, states, next);
    SyncedKeepsOldKinds(roots, kinds, states, next);
  }

  /** The id of each new machine is handed out during the sync: at least `next` and below the
      final counter. */
  lemma {:induction false} SyncedIdsFresh(roots: map<Entity, Entity>, kinds: map<Entity, NodeKind>, states: seq<Entity>, next: nat)
    ensures var r := Synced(roots, kinds, states, next);
      forall s :: s in r.0 && s !in roots ==> next <= r.0[s] < r.2
    decreases |states|
  {
    if |states| > 0 {
      SyncedIdsFresh(roots, kinds, states[..|states| - 1], next);
    }
  }

  lemma {:induction false} SyncedNewKinds(roots: map<Entity, Entity>, kinds: map<Entity, NodeKind>, states: seq<Entity>, next: nat)
    ensures var r := Synced(roots, kinds, states, next);
      forall s :: s in r.0 && s !in roots ==> r.0[s] in r.1 && r.1[r.0[s]] == InitialKind
    decreases |states|
  {
    if |states| > 0 {
      SyncedNewKinds(roots, kinds, states[..|states| - 1], next);
      SyncedIdsFresh(roots, kinds, states[..|states| - 1], next);
    }
  }

  lemma {:induction false} SyncedIdsDistinct(roots: map<Entity, Entity>, kinds: map<Entity, NodeKind>, states: seq<Entity>, next: nat)
    ensures var r := Synced(roots, kinds, states, next);
      forall s, t :: s in r.0 && t in r.0 && s !in roots && t !in roots && s != t ==> r.0[s] != r.0[t]
    decreases |states|
  {
    if |states| > 0 {
      SyncedIdsDistinct(roots, kinds, states[..|states| - 1], next);
      SyncedIdsFresh(roots, kinds, states[..|states| - 1], next);
    }
  }

  lemma {:induction false} SyncedKeepsOldKinds(roots: map<Entity, Entity>, kinds: map<Entity, NodeKind>, states: seq<Entity>, next: nat)
    ensures var r := Synced(roots, kinds, states, next);
      forall m :: m in kinds && m < next ==> m in r.1 && r.1[m] == kinds[m]
    decreases |states|
  {
    if |states| > 0 {
      SyncedKeepsOldKinds(roots, kinds, states[..|states| - 1], next);
    }
  }

  /** Syncing again with the same states creates no machine and changes no entry. */
  lemma {:induction false} SyncIsIdempotent(roots: map<Entity, Entity>, kinds: map<Entity, NodeKind>, states: seq<Entity>,
                                            next: nat, kinds2: map<Entity, NodeKind>, next2: nat)
    requires Synced(roots, kinds, states, next).0.Keys >= set s | s in states
    ensures Synced(Synced(roots, kinds, states, next).0, kinds2, states, next2) ==
      (Synced(roots, kinds, states, next).0, kinds2, next2)
  {
    var once := Synced(roots, kinds, states, next).0;
    NothingToSync(once, kinds2, states, next2);
  }

  lemma {:induction false} NothingToSync(roots: map<Entity, Entity>, kinds: map<Entity, NodeKind>, states: seq<Entity>, next: nat)
    requires forall s :: s in states ==> s in roots
    ensures Synced(roots, kinds, states, next) == (roots, kinds, next)
    decreases |states|
  {
    if |states| > 0 {
      NothingToSync(roots, kinds, states[..|states| - 1], next);
      assert states[|states| - 1] in states;
    }
  }

  /** The transient registry of one machine: the node-kind machine of each of its states and
      the active kind of every such machine. New machine roots are handed out from a counter
      of ids never used before. */
  class NodeKindRegistry {
    var nodeKindRoots: map<Entity, Entity>
    var currentKind: map<Entity, NodeKind>
    var nextEntity: nat

    /** Every registered machine has an active kind and an id already handed out, and no two
        states share a machine. */
    ghost predicate Valid()
      reads this
    {
      RegistryValid(nodeKindRoots, currentKind, nextEntity)
    }

    constructor(firstFree: nat)
      ensures Valid() && nodeKindRoots == map[] && currentKind == map[] && nextEntity == firstFree
    {
      nodeKindRoots, currentKind, nextEntity := map[], map[], firstFree;
    }

    /** Creates a node-kind machine, started as a leaf, for every state of the machine that
        has none yet, visiting the states in the given order; existing machines are kept. */
    method SyncNodeKind(states: seq<Entity>)
      requires Valid()
      modifies this
      ensures Valid()
      ensures (nodeKindRoots, currentKind, nextEntity) ==
        Synced(old(nodeKindRoots), old(currentKind), states, old(nextEntity))
    {
      var i := 0;
      while i < |states|
        invariant 0 <= i <= |states|
        invariant Valid()
        invariant (nodeKindRoots, currentKind, nextEntity) ==
          Synced(old(nodeKindRoots), old(currentKind), states[..i], old(nextEntity))
      {
        var stateEntity := states[i];
        SyncedPrefixStep(old(nodeKindRoots), old(currentKind), states, old(nextEntity), i);
        SyncStepKeepsValid((nodeKindRoots, currentKind, nextEntity), stateEntity);
        var reg := SyncStep((nodeKindRoots, currentKind, nextEntity), stateEntity);
        nodeKindRoots, currentKind, nextEntity := reg.0, reg.1, reg.2;
        i := i + 1;
      }
      assert states[..i] == states;
    }

    /** Forgets the machine of a deleted state and reports its root for despawning. */
    method OnDeleteNodeCleanup(entityToDelete: Entity) returns (despawned: Option<Entity>)
      requires Valid()
      modifies this
      ensures Valid()
      ensures nodeKindRoots == old(nodeKindRoots) - {entityToDelete}
      ensures despawned == (if entityToDelete in old(nodeKindRoots) then Some(old(nodeKindRoots)[entityToDelete]) else None)
      ensures currentKind == (if despawned.Some? then old(currentKind) - {despawned.value} else old(currentKind))
    {
      despawned := None;
      if entityToDelete in nodeKindRoots {
        var nkRoot := nodeKindRoots[entityToDelete];
        nodeKindRoots := nodeKindRoots - {entityToDelete};
        currentKind := currentKind - {nkRoot};
        despawned := Some(nkRoot);
      }
    }

    /** Delivers `ev` to the machine rooted at `nkRoot`: when an edge leaves its active kind
        on `ev`, the machine enters the edge's target, which is reported; otherwise nothing
        happens. */
    method Trigger(nkRoot: Entity, ev: NodeKindEvent) returns (entered: Option<NodeKind>)
      modifies this
      ensures nodeKindRoots == old(nodeKindRoots) && nextEntity == old(nextEntity)
      ensures nkRoot in old(currentKind) && FindEdge(KindEdges, old(currentKind)[nkRoot], ev).Some? ==>
        entered == Some(Next(old(currentKind)[nkRoot], ev)) && currentKind == old(currentKind)[nkRoot := entered.value]
      ensures !(nkRoot in old(currentKind) && FindEdge(KindEdges, old(currentKind)[nkRoot], ev).Some?) ==>
        entered.None? && currentKind == old(currentKind)
      ensures old(Valid()) ==> Valid()
    {
      entered := None;
      if nkRoot in currentKind {
        var target := FindEdge(KindEdges, currentKind[nkRoot], ev);
        if target.Some? {
          currentKind := currentKind[nkRoot := target.value];
          entered := target;
        }
      }
    }

    /** A state that lost its last child asks its node-kind machine, if it has one, to fall
        back to a leaf. */
    method OnRemoveStateChildren(parent: Entity) returns (entered: Option<NodeKind>)
      requires Valid()
      modifies this
      ensures Valid() && nodeKindRoots == old(nodeKindRoots)
      ensures parent !in nodeKindRoots ==> entered.None? && currentKind == old(currentKind)
      ensures parent in nodeKindRoots && old(currentKind)[nodeKindRoots[parent]] != LeafKind ==>
        entered == Some(LeafKind) && currentKind == old(currentKind)[nodeKindRoots[parent] := LeafKind]
      ensures parent in nodeKindRoots ==> currentKind[nodeKindRoots[parent]] == LeafKind
    {
      entered := None;
      if parent in nodeKindRoots {
        var nkRoot := nodeKindRoots[parent];
        NextTable(currentKind[nkRoot], AllChildrenRemoved);
        entered := Trigger(nkRoot, AllChildrenRemoved);
      }
    }
  }

  /** The markers the editor keeps on state entities: which states are parallel, the initial
      child of each compound state, and the ordered children of each state that has any. */
  class StateComponents {
    var parallel: set<Entity>
    var initialState: map<Entity, Entity>
    var stateChildren: map<Entity, seq<Entity>>

    predicate HasChild(state: Entity)
      reads this
    {
      state in stateChildren && |stateChildren[state]| > 0
    }

    /** The markers of `state` agree with the node kind it was last put in. */
    predicate AgreesWith(state: Entity, kind: NodeKind)
      reads this
    {
      match kind
      case LeafKind => state !in parallel && state !in initialState && state !in stateChildren
      case ParentKind => state !in parallel && HasChild(state)
      case ParallelKind => state in parallel && state !in initialState && HasChild(state)
    }

    /** Entering the leaf kind drops the parallel marker, the initial state and the children. */
    method OnEnterLeaf(state: Entity)
      modifies this
      ensures AgreesWith(state, LeafKind)
      ensures parallel == old(parallel) - {state} && initialState == old(initialState) - {state}
      ensures stateChildren == old(stateChildren) - {state}
    {
      parallel := parallel - {state};
      initialState := initialState - {state};
      stateChildren := stateChildren - {state};
    }

    /** Entering the parallel kind marks the state parallel and drops its initial state; a
        state without children gets the spawned `newChild`, drawn as a leaf 50 units right of
        and below the state when the state has a node. */
    method OnEnterParallel(state: Entity, newChild: Entity, data: StateMachinePersistentData)
      modifies this, data
      ensures AgreesWith(state, ParallelKind)
      ensures parallel == old(parallel) + {state} && initialState == old(initialState) - {state}
      ensures old(HasChild(state)) ==> stateChildren == old(stateChildren) && data.nodes == old(data.nodes)
      ensures !old(HasChild(state)) ==> stateChildren == old(stateChildren)[state := [newChild]]
      ensures !old(HasChild(state)) && state in old(data.nodes) ==>
        data.nodes == old(data.nodes)[newChild := Leaf(NewLeaf(Add(old(data.nodes)[state].Position(), ChildOffset)))]
      ensures state !in old(data.nodes) ==> data.nodes == old(data.nodes)
      ensures data.visualTransitions == old(data.visualTransitions)
    {
      parallel := parallel + {state};
      initialState := initialState - {state};
      if !HasChild(state) {
        SpawnChild(state, newChild, data);
      }
    }

    /** Entering the parent kind drops the parallel marker and asks for an initial child:
        the first child, or the spawned `newChild` when there is none. Of the two observers
        for this entry, the one whose command runs first spawns the child and, when the state
        has no node, returns before asking; the other then finds that child and asks for it,
        so together they always ask for the new child. */
    method OnEnterParent(state: Entity, newChild: Entity, data: StateMachinePersistentData)
      returns (initRequest: Option<Entity>)
      modifies this, data
      ensures AgreesWith(state, ParentKind)
      ensures parallel == old(parallel) - {state} && initialState == old(initialState)
      ensures old(HasChild(state)) ==>
        initRequest == Some(old(stateChildren)[state][0]) &&
        stateChildren == old(stateChildren) && data.nodes == old(data.nodes)
      ensures !old(HasChild(state)) ==>
        initRequest == Some(newChild) && stateChildren == old(stateChildren)[state := [newChild]]
      ensures !old(HasChild(state)) && state in old(data.nodes) ==>
        data.nodes == old(data.nodes)[newChild := Leaf(NewLeaf(Add(old(data.nodes)[state].Position(), ChildOffset)))]
      ensures !old(HasChild(state)) && state !in old(data.nodes) ==> data.nodes == old(data.nodes)
      ensures initRequest.Some? ==> initRequest.value in stateChildren[state]
      ensures data.visualTransitions == old(data.visualTransitions)
    {
      parallel := parallel - {state};
      if HasChild(state) {
        initRequest := Some(stateChildren[state][0]);
      } else {
        SpawnChild(state, newChild, data);
        initRequest := Some(newChild);
      }
    }

    /** Spawns `newChild` under `state` and, when the state has a node, places a leaf node
        for it 50 units right of and below the state's node. */
    method SpawnChild(state: Entity, newChild: Entity, data: StateMachinePersistentData)
      modifies this, data
      ensures parallel == old(parallel) && initialState == old(initialState)
      ensures stateChildren == old(stateChildren)[state := [newChild]]
      ensures state in old(data.nodes) ==>
        data.nodes == old(data.nodes)[newChild := Leaf(NewLeaf(Add(old(data.nodes)[state].Position(), ChildOffset)))]
      ensures state !in old(data.nodes) ==> data.nodes == old(data.nodes)
      ensures state in old(data.nodes) <==> state in data.nodes
      ensures data.visualTransitions == old(data.visualTransitions)
    {
      stateChildren := stateChildren[state := [newChild]];
      if state in data.nodes {
        var parentPos := data.nodes[state].Position();
        data.nodes := data.nodes[newChild := Leaf(NewLeaf(Add(parentPos, ChildOffset)))];
      }
    }
  }

  /** Where a spawned child is placed relative to its parent state's node. */
  const ChildOffset: Vec2 := Vec2(50.0, 50.0)
}
