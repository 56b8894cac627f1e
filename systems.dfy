/** Systems that derive graph data from the state entities: the event name of a transition
    listener type, the pins of a node, the connection from a parent to its initial state,
    and the rule that puts orphaned states under the root. */
module Systems {
  import opened Geometry
  import opened Strings
  import opened Seqs
  import opened Components

  /** Marks the type path of a transition listener component. */
  const ListenerMarker: string := "TransitionListener<"
  const UnknownEvent: string := "Unknown"
  const InitialStateLabel: string := "InitialState"

  /** "Unknown" has no path separator in it. */
  lemma UnknownHasNoSep()
    ensures !Contains(UnknownEvent, PathSep)
  {
    forall j | 0 <= j
      ensures !IsMatchAt(UnknownEvent, PathSep, j)
    {
      if j + 2 <= |UnknownEvent| {
        assert UnknownEvent[j..j + 2][0] == UnknownEvent[j];
      }
    }
  }

  /** The event name in a transition listener's type path: the text between the first '<'
      and the last '>', after its last "::". "Unknown" when either bracket is missing; a
      panic when the last '>' comes before the first '<'. */
  function ExtractTransitionEventType(path: string): (r: Result<string>)
    ensures Find(path, "<").None? || RFind(path, ">").None? ==> r == Ok(UnknownEvent)
    ensures r == Panic <==>
      Find(path, "<").Some? && RFind(path, ">").Some? && RFind(path, ">").value < Find(path, "<").value + 1
    ensures r.Ok? && Find(path, "<").Some? && RFind(path, ">").Some? ==>
      r.value == AfterLastSep(path[Find(path, "<").value + 1..RFind(path, ">").value])
    ensures r.Ok? ==> !Contains(r.value, PathSep)
  {
    match Find(path, "<")
    case None => UnknownHasNoSep(); Ok(UnknownEvent)
    case Some(start) =>
      match RFind(path, ">")
      case None => UnknownHasNoSep(); Ok(UnknownEvent)
      case Some(end) =>
        if end < start + 1 then Panic
        else
          var inner := path[start + 1..end];
          AfterLastSepHasNoSep(inner);
          Ok(AfterLastSep(inner))
  }

  predicate HasInputPin(pins: seq<NodePin>)
  {
    exists k :: 0 <= k < |pins| && pins[k].pinType == Input
  }

  predicate HasOutputPin(pins: seq<NodePin>, eventName: string)
  {
    exists k :: 0 <= k < |pins| && pins[k].pinType == Output && pins[k].pinLabel == eventName
  }

  /** The pin list after the fixed pins: an input pin when there is none, and for parents and
      roots the initial-state output pin (index `usize::MAX`) when there is none. */
  function FixedPins(existing: seq<NodePin>, isParentOrRoot: bool): (pins: seq<NodePin>)
    ensures HasInputPin(pins)
    ensures isParentOrRoot ==> HasOutputPin(pins, InitialStateLabel)
    ensures !isParentOrRoot ==> pins == existing || pins == existing + [NodePin(Input, 0, "Input")]
    ensures |existing| <= |pins| <= |existing| + 2 && pins[..|existing|] == existing
    ensures HasInputPin(existing) && (isParentOrRoot ==> HasOutputPin(existing, InitialStateLabel)) ==>
      pins == existing
    ensures forall k :: |existing| <= k < |pins| && pins[k].pinType == Output ==>
      pins[k] == NodePin(Output, UsizeMax, InitialStateLabel)
  {
    var withInput := if HasInputPin(existing) then existing else existing + [NodePin(Input, 0, "Input")];
    assert HasInputPin(existing + [NodePin(Input, 0, "Input")]) by {
      assert (existing + [NodePin(Input, 0, "Input")])[|existing|].pinType == Input;
    }
    if isParentOrRoot && !HasOutputPin(withInput, InitialStateLabel) then
      var pins := withInput + [NodePin(Output, UsizeMax, InitialStateLabel)];
      assert pins[|withInput|].pinType == Output && pins[|withInput|].pinLabel == InitialStateLabel;
      assert HasInputPin(pins) by {
        var k :| 0 <= k < |withInput| && withInput[k].pinType == Input;
        assert pins[k] == withInput[k];
      }
      pins
    else withInput
  }

  /** Adding the output pin for one event type: only when no output pin carries that name,
      at the next output index, which then advances. */
  function AddOutputPin(pins: seq<NodePin>, next: nat, eventName: string): (r: (seq<NodePin>, nat))
    ensures HasOutputPin(r.0, eventName)
    ensures HasOutputPin(pins, eventName) ==> r == (pins, next)
    ensures !HasOutputPin(pins, eventName) ==> r == (pins + [NodePin(Output, next, eventName)], next + 1)
  {
    if HasOutputPin(pins, eventName) then (pins, next)
    else
      var r := pins + [NodePin(Output, next, eventName)];
      assert r[|pins|].pinType == Output && r[|pins|].pinLabel == eventName;
      (r, next + 1)
  }

  /** The pins after visiting the component type paths in order, with the next output
      index; a panic when a listener's event name cannot be extracted. */
  function PinsAfter(fixed: seq<NodePin>, paths: seq<string>): (r: Result<(seq<NodePin>, nat)>)
  {
    if |paths| == 0 then Ok((fixed, 0))
    else
      match PinsAfter(fixed, paths[..|paths| - 1])
      case Panic => Panic
      case Ok((pins, next)) => PinStep(pins, next, paths[|paths| - 1])
  }

  /** Visiting one component type path: a listener adds the output pin of its event name,
      or panics when the name cannot be extracted; any other component changes nothing. */
  function PinStep(pins: seq<NodePin>, next: nat, path: string): Result<(seq<NodePin>, nat)>
  {
    if !Contains(path, ListenerMarker) then Ok((pins, next))
    else
      match ExtractTransitionEventType(path)
      case Panic => Panic
      case Ok(eventName) => Ok(AddOutputPin(pins, next, eventName))
  }

  /** The output pins added after `fixed` are numbered 0, 1, 2, ... in order, and `next`
      is their number. */
  ghost predicate NumberedFrom(pins: seq<NodePin>, fixed: seq<NodePin>, next: nat)
  {
    |fixed| <= |pins| && pins[..|fixed|] == fixed && |pins| == |fixed| + next &&
    forall k :: |fixed| <= k < |pins| ==> pins[k].pinType == Output && pins[k].pinIndex == k - |fixed|
  }

  /** No two output pins share a label. */
  ghost predicate OutputLabelsDistinct(pins: seq<NodePin>)
  {
    forall i, j :: 0 <= i < j < |pins| && pins[i].pinType == Output && pins[j].pinType == Output ==>
      pins[i].pinLabel != pins[j].pinLabel
  }

  /** Visiting paths only appends output pins with fresh labels at consecutive indices, so
      when the fixed pins had distinct output labels the result has too. */
  lemma {:induction false} PinsAfterProperties(fixed: seq<NodePin>, paths: seq<string>)
    requires OutputLabelsDistinct(fixed)
    ensures PinsAfter(fixed, paths).Ok? ==>
      NumberedFrom(PinsAfter(fixed, paths).value.0, fixed, PinsAfter(fixed, paths).value.1) &&
      OutputLabelsDistinct(PinsAfter(fixed, paths).value.0)
  {
    if |paths| > 0 {
      var prefix := paths[..|paths| - 1];
      PinsAfterProperties(fixed, prefix);
      var r := PinsAfter(fixed, paths);
      if r.Ok? {
        var (pins, next) := PinsAfter(fixed, prefix).value;
        var path := paths[|paths| - 1];
        if Contains(path, ListenerMarker) {
          var eventName := ExtractTransitionEventType(path).value;
          if !HasOutputPin(pins, eventName) {
            var out := pins + [NodePin(Output, next, eventName)];
            assert r.value.0 == out;
            forall i, j | 0 <= i < j < |out| && out[i].pinType == Output && out[j].pinType == Output
              ensures out[i].pinLabel != out[j].pinLabel
            {
              if j == |pins| {
                assert out[i] == pins[i];
              }
            }
            assert out[..|fixed|] == pins[..|fixed|];
          }
        }
      }
    }
  }

  /** Every listener whose event name can be extracted ends up with an output pin carrying
      that name, whether it was added for this listener, an earlier one, or was already there. */
  lemma {:induction false} ListenersGetPins(fixed: seq<NodePin>, paths: seq<string>)
    ensures PinsAfter(fixed, paths).Ok? ==>
      forall k ::
        0 <= k < |paths| && Contains(paths[k], ListenerMarker) && ExtractTransitionEventType(paths[k]).Ok? ==>
        HasOutputPin(PinsAfter(fixed, paths).value.0, ExtractTransitionEventType(paths[k]).value)
  {
    var r := PinsAfter(fixed, paths);
    if |paths| > 0 && r.Ok? {
      var prefix := paths[..|paths| - 1];
      ListenersGetPins(fixed, prefix);
      var (pins, next) := PinsAfter(fixed, prefix).value;
      var last := paths[|paths| - 1];
      var out := r.value.0;
      assert |pins| <= |out| && out[..|pins|] == pins;
      forall k | 0 <= k < |paths| && Contains(paths[k], ListenerMarker) && ExtractTransitionEventType(paths[k]).Ok?
        ensures HasOutputPin(out, ExtractTransitionEventType(paths[k]).value)
      {
        var eventName := ExtractTransitionEventType(paths[k]).value;
        if k < |paths| - 1 {
          assert paths[k] == prefix[k];
          var j :| 0 <= j < |pins| && pins[j].pinType == Output && pins[j].pinLabel == eventName;
          assert out[j] == pins[j];
        }
      }
    }
  }

  /** A panic while visiting a prefix of the paths is a panic of the whole visit. */
  lemma {:induction false} PanicPersists(fixed: seq<NodePin>, paths: seq<string>, n: nat)
    requires n <= |paths| && PinsAfter(fixed, paths[..n]) == Panic
    ensures PinsAfter(fixed, paths) == Panic
    decreases |paths| - n
  {
    if n < |paths| {
      assert paths[..n + 1][..n] == paths[..n];
      PanicPersists(fixed, paths, n + 1);
    } else {
      assert paths[..n] == paths;
    }
  }

  /** One step of the pin scan, as `PinStep` states it. */
  method VisitPinPath(pins: seq<NodePin>, next: nat, path: string) returns (r: Result<(seq<NodePin>, nat)>)
    ensures r == PinStep(pins, next, path)
  {
    r := Ok((pins, next));
    if Contains(path, ListenerMarker) {
      var eventType := ExtractTransitionEventType(path);
      if eventType.Panic? {
        return Panic;
      }
      if !(exists k :: 0 <= k < |pins| && pins[k].pinType == Output && pins[k].pinLabel == eventType.value) {
        r := Ok((pins + [NodePin(Output, next, eventType.value)], next + 1));
      }
    }
  }

  /** The pin list of a node: the existing pins, the fixed pins, then one output pin per new
      listener event type, in component order. */
  method BuildNodePins(existing: seq<NodePin>, isParentOrRoot: bool, componentPaths: seq<string>)
    returns (r: Result<seq<NodePin>>)
    ensures r == (match PinsAfter(FixedPins(existing, isParentOrRoot), componentPaths)
                  case Panic => Panic
                  case Ok((pins, _)) => Ok(pins))
  {
    var pins := existing;
    if !(exists k :: 0 <= k < |pins| && pins[k].pinType == Input) {
      pins := pins + [NodePin(Input, 0, "Input")];
    }
    if isParentOrRoot {
      if !(exists k :: 0 <= k < |pins| && pins[k].pinType == Output && pins[k].pinLabel == InitialStateLabel) {
        pins := pins + [NodePin(Output, UsizeMax, InitialStateLabel)];
      }
    }
    ghost var fixed := pins;
    assert fixed == FixedPins(existing, isParentOrRoot);
    var outputPinIndex := 0;
    var i := 0;
    while i < |componentPaths|
      invariant 0 <= i <= |componentPaths|
      invariant PinsAfter(fixed, componentPaths[..i]) == Ok((pins, outputPinIndex))
    {
      assert componentPaths[..i + 1][..i] == componentPaths[..i];
      var step := VisitPinPath(pins, outputPinIndex, componentPaths[i]);
      if step.Panic? {
        PanicPersists(fixed, componentPaths, i + 1);
        return Panic;
      }
      pins, outputPinIndex := step.value.0, step.value.1;
      i := i + 1;
    }
    assert componentPaths[..i] == componentPaths;
    r := Ok(pins);
  }

  /** The initial-state connection to spawn for an entity: only for parents and roots with an
      initial state, and only when no connection with the same ends and the "InitialState"
      type exists yet. */
  function InitialStateConnection(entity: Entity, hasChildren: bool, isRoot: bool, initialState: Option<Entity>,
                                  existing: seq<Connection>): (r: Option<Connection>)
    ensures r.Some? <==>
      (hasChildren || isRoot) && initialState.Some? &&
      !(exists c :: c in existing && c.fromEntity == entity && c.toEntity == initialState.value && c.connectionType == InitialStateLabel)
    ensures r.Some? ==> r.value == Connection(entity, UsizeMax, initialState.value, 0, InitialStateLabel)
  {
    if !hasChildren && !isRoot then None
    else match initialState
      case None => None
      case Some(target) =>
        if exists c :: c in existing && c.fromEntity == entity && c.toEntity == target && c.connectionType == InitialStateLabel
        then None
        else Some(Connection(entity, UsizeMax, target, 0, InitialStateLabel))
  }

  /** Once the connection was spawned, running the system again spawns nothing. */
  lemma InitialStateConnectionIsSpawnedOnce(entity: Entity, hasChildren: bool, isRoot: bool,
                                            initialState: Option<Entity>, existing: seq<Connection>)
    requires InitialStateConnection(entity, hasChildren, isRoot, initialState, existing).Some?
    ensures InitialStateConnection(entity, hasChildren, isRoot, initialState,
              existing + [InitialStateConnection(entity, hasChildren, isRoot, initialState, existing).value]).None?
  {
    var c := InitialStateConnection(entity, hasChildren, isRoot, initialState, existing).value;
    assert c in existing + [c];
  }

  /** A state entity other than the root must be moved under the root when it has no parent,
      its parent no longer exists, or its parent is neither the root nor a state entity. */
  predicate NeedsRootParent(entity: Entity, root: Entity, childOf: map<Entity, Entity>, alive: set<Entity>,
                            stateEntities: set<Entity>)
  {
    entity != root &&
    (entity !in childOf || childOf[entity] !in alive ||
     (childOf[entity] != root && childOf[entity] !in stateEntities))
  }

  /** The checks `enforce_root_hierarchy` makes for one state entity, in the order it makes them. */
  method CheckRootParent(entity: Entity, root: Entity, childOf: map<Entity, Entity>, alive: set<Entity>,
                         stateEntities: set<Entity>)
    returns (needsRootParent: bool)
    ensures needsRootParent <==> NeedsRootParent(entity, root, childOf, alive, stateEntities)
  {
    needsRootParent := false;
    if entity != root {
      if entity in childOf {
        var parentEntity := childOf[entity];
        if parentEntity in alive {
          if parentEntity == root {
            needsRootParent := false;
          } else if parentEntity in stateEntities {
            needsRootParent := false;
          } else {
            needsRootParent := true;
          }
        } else {
          needsRootParent := true;
        }
      } else {
        needsRootParent := true;
      }
    }
  }

  /** The entities `enforce_root_hierarchy` puts under the root, in query order: none when
      there is no root, otherwise exactly the state entities that need a root parent. */
  method EnforceRootHierarchy(roots: seq<Entity>, stateNodes: seq<Entity>, childOf: map<Entity, Entity>,
                              alive: set<Entity>, stateEntities: set<Entity>)
    returns (reparented: seq<Entity>)
    ensures |roots| == 0 ==> reparented == []
    ensures |roots| > 0 ==>
      reparented == Filter(stateNodes, e => NeedsRootParent(e, roots[0], childOf, alive, stateEntities))
  {
    reparented := [];
    if |roots| == 0 {
      return;
    }
    var root := roots[0];
    ghost var keep := e => NeedsRootParent(e, root, childOf, alive, stateEntities);
    var i := 0;
    while i < |stateNodes|
      invariant 0 <= i <= |stateNodes|
      invariant reparented == Filter(stateNodes[..i], keep)
    {
      var entity := stateNodes[i];
      FilterPrefixStep(stateNodes, i, keep);
      var needsRootParent := CheckRootParent(entity, root, childOf, alive, stateEntities);
      if needsRootParent {
        reparented := reparented + [entity];
      }
      i := i + 1;
    }
    assert stateNodes[..i] == stateNodes;
  }

  /** Reparenting is stable: once the chosen entities point at a live root, none of the
      state entities needs reparenting any more. */
  lemma EnforceRootIsStable(root: Entity, stateNodes: seq<Entity>, childOf: map<Entity, Entity>,
                            alive: set<Entity>, stateEntities: set<Entity>)
    requires root in alive
    ensures var moved := Filter(stateNodes, e => NeedsRootParent(e, root, childOf, alive, stateEntities));
      var after := map e | e in childOf.Keys + (set m | m in moved) :: if e in moved then root else childOf[e];
      forall e :: e in stateNodes ==> !NeedsRootParent(e, root, after, alive, stateEntities)
  {
  }
}
