/** The two modal dialogs: adding a component to an entity, and picking the event type of a
    new transition before its target. */
module Dialogs {
  import opened Geometry
  import opened Strings
  import opened Seqs
  import opened Systems

  /** The add-component dialog: the entity it is open for and the chosen component. */
  class ComponentDialogState {
    var openForEntity: Option<Entity>
    var selectedComponent: Option<string>

    constructor()
      ensures openForEntity.None? && selectedComponent.None?
    {
      openForEntity, selectedComponent := None, None;
    }

    /** Closes the dialog and forgets the choice. */
    method CloseDialog()
      modifies this
      ensures openForEntity.None? && selectedComponent.None?
    {
      openForEntity := None;
      selectedComponent := None;
    }

    /** The "Add" button of an open dialog: with a component chosen, returns the component to
        add to the entity and closes the dialog; without one, nothing happens. A closed
        dialog shows no button. */
    method PressAdd() returns (added: Option<(Entity, string)>)
      modifies this
      ensures old(openForEntity).Some? && old(selectedComponent).Some? ==>
        added == Some((old(openForEntity).value, old(selectedComponent).value)) &&
        openForEntity.None? && selectedComponent.None?
      ensures old(openForEntity).None? || old(selectedComponent).None? ==> added.None? && unchanged(this)
    {
      added := None;
      if openForEntity.None? {
        return;
      }
      var entity := openForEntity.value;
      if selectedComponent.Some? {
        added := Some((entity, selectedComponent.value));
        CloseDialog();
      }
    }
  }

  /** The transition dialog: the source state, the chosen event type, and whether the user is
      now picking the target. */
  class TransitionDialogState {
    var sourceEntity: Option<Entity>
    var selectedEventType: Option<string>
    var selectingTarget: bool

    constructor()
      ensures sourceEntity.None? && selectedEventType.None? && !selectingTarget
    {
      sourceEntity, selectedEventType, selectingTarget := None, None, false;
    }

    /** Closes the dialog: no source, no event type, not picking a target. */
    method CloseDialog()
      modifies this
      ensures sourceEntity.None? && selectedEventType.None? && !selectingTarget
    {
      sourceEntity := None;
      selectedEventType := None;
      selectingTarget := false;
    }

    /** "Next: Select Target": moves on to picking the target only once an event type is
        chosen; nothing else changes. */
    method PressNext()
      modifies this
      ensures selectingTarget == (old(selectingTarget) || old(selectedEventType).Some?)
      ensures sourceEntity == old(sourceEntity) && selectedEventType == old(selectedEventType)
    {
      if selectedEventType.Some? {
        selectingTarget := true;
      }
    }
  }

  /** What one registered type path contributes to the event list: nothing unless it is a
      transition listener with a closing '>', otherwise the event name `Systems` extracts
      from it (text between the first '<' and the last '>', after its last "::"), which
      panics when that '>' comes before the '<'. */
  function ListenerEventName(path: string): (r: Result<Option<string>>)
    ensures !Contains(path, ListenerMarker) || RFind(path, ">").None? ==> r == Ok(None)
    ensures r.Ok? && r.value.Some? ==> !Contains(r.value.value, PathSep)
  {
    if !Contains(path, ListenerMarker) then Ok(None)
    else match Find(path, "<")
      case None => Ok(None)
      case Some(start) =>
        match RFind(path, ">")
        case None => Ok(None)
        case Some(end) =>
          match ExtractTransitionEventType(path)
          case Panic => Panic
          case Ok(name) => Ok(Some(name))
  }

  /** The names collected from the paths in order, each kept once; a panic when any path
      panics. */
  function CollectedNames(paths: seq<string>): (r: Result<seq<string>>)
  {
    if |paths| == 0 then Ok([])
    else
      match CollectedNames(paths[..|paths| - 1])
      case Panic => Panic
      case Ok(names) =>
        match ListenerEventName(paths[|paths| - 1])
        case Panic => Panic
        case Ok(None) => Ok(names)
        case Ok(Some(name)) => Ok(PushNew(names, name))
  }

  /** The name a path contributes, if it contributes one without panicking. */
  function ContributedName(path: string): Option<string>
  {
    match ListenerEventName(path)
    case Ok(Some(name)) => Some(name)
    case _ => None
  }

  /** Collected names are distinct, and they are exactly the names of the contributing paths. */
  lemma {:induction false} CollectedNamesProperties(paths: seq<string>)
    ensures CollectedNames(paths).Ok? ==>
      Distinct(CollectedNames(paths).value) &&
      forall x :: x in CollectedNames(paths).value <==> Produces(paths, ContributedName, x)
  {
    if |paths| > 0 {
      CollectedNamesProperties(paths[..|paths| - 1]);
      if CollectedNames(paths).Ok? {
        forall x
          ensures x in CollectedNames(paths).value <==> Produces(paths, ContributedName, x)
        {
          ProducesStep(paths, ContributedName, x);
        }
      }
    }
  }

  /** A panic while collecting from a prefix of the paths is a panic of the whole collection. */
  lemma {:induction false} CollectPanicPersists(paths: seq<string>, n: nat)
    requires n <= |paths| && CollectedNames(paths[..n]) == Panic
    ensures CollectedNames(paths) == Panic
    decreases |paths| - n
  {
    if n < |paths| {
      assert paths[..n + 1][..n] == paths[..n];
      CollectPanicPersists(paths, n + 1);
    } else {
      assert paths[..n] == paths;
    }
  }

  /** The event types offered by the transition dialog: the collected names, sorted. The
      list is sorted, has no duplicates and holds exactly the names of the listener types. */
  method CollectAvailableEventTypes(paths: seq<string>) returns (r: Result<seq<string>>)
    ensures r == (match CollectedNames(paths) case Panic => Panic case Ok(names) => Ok(SortBy(names, LexLe)))
    ensures r.Ok? ==> SortedBy(r.value, LexLe) && Distinct(r.value)
    ensures r.Ok? ==> forall x :: x in r.value <==> Produces(paths, ContributedName, x)
  {
    var types: seq<string> := [];
    var i := 0;
    while i < |paths|
      invariant 0 <= i <= |paths|
      invariant CollectedNames(paths[..i]) == Ok(types)
    {
      assert paths[..i + 1][..i] == paths[..i];
      var contribution := ReadListener(paths[i]);
      if contribution.Panic? {
        assert CollectedNames(paths[..i + 1]) == Panic;
        CollectPanicPersists(paths, i + 1);
        return Panic;
      }
      if contribution.value.Some? && contribution.value.value !in types {
        types := types + [contribution.value.value];
      }
      i := i + 1;
    }
    assert paths[..i] == paths;
    CollectedNamesProperties(paths);
    SortNamesKeepsThem(types);
    r := Ok(SortBy(types, LexLe));
  }

  /** The body of the registry scan for one type path: a listener type with both brackets
      gives the text between the first '<' and the last '>' after its last "::". */
  method ReadListener(typePath: string) returns (r: Result<Option<string>>)
    ensures r == ListenerEventName(typePath)
  {
    r := Ok(None);
    if Contains(typePath, ListenerMarker) {
      var start := Find(typePath, "<");
      if start.Some? {
        var end := RFind(typePath, ">");
        if end.Some? {
          if end.value < start.value + 1 {
            return Panic;
          }
          var eventType := typePath[start.value + 1..end.value];
          var eventName := match RFind(eventType, PathSep)
            case Some(lastColon) => eventType[lastColon + 2..]
            case None => eventType;
          r := Ok(Some(eventName));
        }
      }
    }
  }
}
