/** Editor state: the rename workflow, the transition-creation workflow, the draggable event
    label of a transition, the expanded namespaces of the component picker, and the
    selection boost used for z-ordering. */
module EditorStates {
  import opened Geometry
  import opened Components

  /** The rename workflow of a node. */
  class TextEditingState {
    var editingEntity: Option<Entity>
    var currentText: string
    var shouldFocus: bool
    var firstFocus: bool

    /** Not editing anything: no entity, empty text, both focus flags clear. */
    predicate IsIdle()
      reads this
    {
      editingEntity.None? && currentText == [] && !shouldFocus && !firstFocus
    }

    constructor()
      ensures IsIdle()
    {
      editingEntity, currentText, shouldFocus, firstFocus := None, [], false, false;
    }

    predicate IsEditing(e: Entity)
      reads this
    {
      editingEntity == Some(e)
    }

    /** Starts renaming `e` with its current name in the text field, focused and with the
        text to be selected on the first focus. */
    method StartEditing(e: Entity, currentName: string)
      modifies this
      ensures IsEditing(e) && currentText == currentName && shouldFocus && firstFocus
    {
      editingEntity := Some(e);
      currentText := currentName;
      shouldFocus := true;
      firstFocus := true;
    }

    /** Ends the rename: when an entity was being edited, returns it with the edited text and
        returns to idle; otherwise returns nothing and changes nothing. */
    method StopEditing() returns (r: Option<(Entity, string)>)
      modifies this
      ensures old(editingEntity).Some? ==> r == Some((old(editingEntity).value, old(currentText))) && IsIdle()
      ensures old(editingEntity).None? ==> r.None? && unchanged(this)
    {
      if editingEntity.Some? {
        var e := editingEntity.value;
        var text := currentText;
        editingEntity := None;
        currentText := [];
        shouldFocus := false;
        firstFocus := false;
        r := Some((e, text));
      } else {
        r := None;
      }
    }

    /** Abandons the rename without returning the text. */
    method CancelEditing()
      modifies this
      ensures IsIdle()
    {
      editingEntity := None;
      currentText := [];
      shouldFocus := false;
      firstFocus := false;
    }
  }

  /** The transition-creation workflow: pick a source, then a target, then an event type. */
  class TransitionCreationState {
    var sourceEntity: Option<Entity>
    var awaitingTargetSelection: bool
    var dropdownPosition: Option<Pos>
    var targetEntity: Option<Entity>
    var showEventDropdown: bool
    var availableEventTypes: seq<string>

    /** The default state: nothing chosen, nothing shown, no event types known. */
    predicate IsDefault()
      reads this
    {
      sourceEntity.None? && !awaitingTargetSelection && dropdownPosition.None? && targetEntity.None?
      && !showEventDropdown && availableEventTypes == []
    }

    constructor()
      ensures IsDefault()
    {
      sourceEntity, awaitingTargetSelection, dropdownPosition := None, false, None;
      targetEntity, showEventDropdown, availableEventTypes := None, false, [];
    }

    predicate IsActive()
      reads this
    {
      sourceEntity.Some?
    }

    /** Begins a transition from `source`: waits for a target, with no target chosen and the
        event dropdown hidden. The known event types are kept. */
    method StartTransition(source: Entity)
      modifies this
      ensures IsActive() && sourceEntity == Some(source) && awaitingTargetSelection
      ensures targetEntity.None? && !showEventDropdown && dropdownPosition.None?
      ensures availableEventTypes == old(availableEventTypes)
    {
      sourceEntity := Some(source);
      awaitingTargetSelection := true;
      targetEntity := None;
      showEventDropdown := false;
      dropdownPosition := None;
    }

    /** Records the target and opens the event dropdown at `dropdownPos`; the source is kept. */
    method SetTarget(target: Entity, dropdownPos: Pos)
      modifies this
      ensures targetEntity == Some(target) && !awaitingTargetSelection
      ensures showEventDropdown && dropdownPosition == Some(dropdownPos)
      ensures sourceEntity == old(sourceEntity) && availableEventTypes == old(availableEventTypes)
    {
      targetEntity := Some(target);
      awaitingTargetSelection := false;
      showEventDropdown := true;
      dropdownPosition := Some(dropdownPos);
    }

    /** Resets to the default state. */
    method Cancel()
      modifies this
      ensures IsDefault() && !IsActive()
    {
      sourceEntity, awaitingTargetSelection, dropdownPosition := None, false, None;
      targetEntity, showEventDropdown, availableEventTypes := None, false, [];
    }

    /** Resets to the default state once the transition was created. */
    method Complete()
      modifies this
      ensures IsDefault() && !IsActive()
    {
      Cancel();
    }
  }

  /** The on-canvas label of a transition: drawn at the midpoint of its two nodes' centres
      plus an offset the user sets by dragging. */
  datatype TransitionConnection = TransitionConnection(
    sourceEntity: Entity,
    edgeEntity: Entity,
    targetEntity: Entity,
    eventType: string,
    sourceRect: Rect,
    targetRect: Rect,
    eventNodePosition: Pos,
    isDraggingEventNode: bool,
    eventNodeOffset: Vec2)

  /** Places the label at the midpoint of the node centres plus the stored offset; only the
      position changes. */
  function UpdateEventNodePosition(t: TransitionConnection): (u: TransitionConnection)
    ensures u == t.(eventNodePosition := u.eventNodePosition)
    ensures Diff(u.eventNodePosition, Midpoint(t.sourceRect, t.targetRect)) == t.eventNodeOffset
  {
    t.(eventNodePosition := Add(Midpoint(t.sourceRect, t.targetRect), t.eventNodeOffset))
  }

  /** Stores the label's offset from the midpoint of the node centres; only the offset changes,
      and placing the label from that offset puts it back exactly where it was. */
  function UpdateEventNodeOffset(t: TransitionConnection): (u: TransitionConnection)
    ensures u == t.(eventNodeOffset := u.eventNodeOffset)
    ensures UpdateEventNodePosition(u) == t.(eventNodeOffset := u.eventNodeOffset)
  {
    t.(eventNodeOffset := Diff(t.eventNodePosition, Midpoint(t.sourceRect, t.targetRect)))
  }

  /** When the nodes move, the label keeps its offset: storing the offset of a label placed
      from an offset gives that offset back. */
  lemma PositionThenOffsetKeepsOffset(t: TransitionConnection)
    ensures UpdateEventNodeOffset(UpdateEventNodePosition(t)) == UpdateEventNodePosition(t)
  {
    var u := UpdateEventNodePosition(t);
    assert Diff(u.eventNodePosition, Midpoint(u.sourceRect, u.targetRect)) == t.eventNodeOffset;
  }

  /** The saved editor data of one state machine: its node layout and its transition labels. */
  class StateMachinePersistentData {
    var nodes: map<Entity, NodeType>
    var visualTransitions: seq<TransitionConnection>

    constructor()
      ensures nodes == map[] && visualTransitions == []
    {
      nodes, visualTransitions := map[], [];
    }
  }

  /** `namespaces` with `path` added when it was missing and removed when it was present. */
  function Toggled(namespaces: set<string>, path: string): (r: set<string>)
    ensures path in r <==> path !in namespaces
    ensures forall q :: q != path ==> (q in r <==> q in namespaces)
  {
    if path in namespaces then namespaces - {path} else namespaces + {path}
  }

  lemma ToggleTwiceIsIdentity(namespaces: set<string>, path: string)
    ensures Toggled(Toggled(namespaces, path), path) == namespaces
  {
    var r := Toggled(Toggled(namespaces, path), path);
    forall q
      ensures q in r <==> q in namespaces
    {
      if q != path {
        assert q in Toggled(namespaces, path) <==> q in namespaces;
      }
    }
  }

  /** The component picker: search text, dropdown and which namespaces are expanded. */
  class ComponentAdditionState {
    var searchText: string
    var dropdownOpen: bool
    var expandedNamespaces: set<string>

    constructor()
      ensures searchText == [] && !dropdownOpen && expandedNamespaces == {}
    {
      searchText, dropdownOpen, expandedNamespaces := [], false, {};
    }

    predicate IsNamespaceExpanded(path: string)
      reads this
    {
      path in expandedNamespaces
    }

    /** Expands `path` when collapsed and collapses it when expanded; no other namespace and
        no other field changes. */
    method ToggleNamespace(path: string)
      modifies this
      ensures expandedNamespaces == Toggled(old(expandedNamespaces), path)
      ensures IsNamespaceExpanded(path) <==> !old(IsNamespaceExpanded(path))
      ensures searchText == old(searchText) && dropdownOpen == old(dropdownOpen)
    {
      if path in expandedNamespaces {
        expandedNamespaces := expandedNamespaces - {path};
      } else {
        expandedNamespaces := expandedNamespaces + {path};
      }
    }
  }

  /** The state hierarchy as a child-to-parent map, with a rank that falls from child to
      parent: the hierarchy has no cycles. */
  ghost predicate RankedHierarchy(parentOf: map<Entity, Entity>, rank: map<Entity, nat>)
  {
    forall e :: e in parentOf ==> e in rank && parentOf[e] in rank && rank[parentOf[e]] < rank[e]
  }

  /** `a` lies on the parent chain above `e`. */
  ghost predicate IsAncestor(parentOf: map<Entity, Entity>, rank: map<Entity, nat>, a: Entity, e: Entity)
    requires RankedHierarchy(parentOf, rank)
    decreases if e in rank then rank[e] else 0
  {
    e in parentOf && (parentOf[e] == a || IsAncestor(parentOf, rank, a, parentOf[e]))
  }

  /** The ancestor relation is transitive. */
  lemma {:induction false} AncestorTransitive(parentOf: map<Entity, Entity>, rank: map<Entity, nat>, a: Entity, b: Entity, e: Entity)
    requires RankedHierarchy(parentOf, rank)
    requires IsAncestor(parentOf, rank, a, b) && IsAncestor(parentOf, rank, b, e)
    ensures IsAncestor(parentOf, rank, a, e)
    decreases if e in rank then rank[e] else 0
  {
    if parentOf[e] != b {
      AncestorTransitive(parentOf, rank, a, b, parentOf[e]);
    }
  }

  /** No node is its own ancestor. */
  lemma {:induction false} AncestorRankIsHigher(parentOf: map<Entity, Entity>, rank: map<Entity, nat>, a: Entity, e: Entity)
    requires RankedHierarchy(parentOf, rank)
    requires IsAncestor(parentOf, rank, a, e)
    ensures a in rank && e in rank && rank[a] < rank[e]
    decreases if e in rank then rank[e] else 0
  {
    if parentOf[e] != a {
      AncestorRankIsHigher(parentOf, rank, a, parentOf[e]);
    }
  }

  /** A node is drawn above its siblings when it is the selected node or an ancestor of it:
      walks up the parent chain from the selected node. */
  method ShouldGetSelectionBoost(entity: Entity, selected: Option<Entity>, parentOf: map<Entity, Entity>,
                                 ghost rank: map<Entity, nat>)
    returns (boost: bool)
    requires RankedHierarchy(parentOf, rank)
    ensures boost <==> selected.Some? && (entity == selected.value || IsAncestor(parentOf, rank, entity, selected.value))
  {
    if selected.None? {
      return false;
    }
    var s := selected.value;
    if entity == s {
      return true;
    }
    var current := s;
    while current in parentOf
      invariant IsAncestor(parentOf, rank, entity, s) <==> IsAncestor(parentOf, rank, entity, current)
      decreases if current in rank then rank[current] else 0
    {
      if parentOf[current] == entity {
        return true;
      }
      current := parentOf[current];
    }
    return false;
  }
}
