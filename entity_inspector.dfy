/** The component picker of the entity inspector: registered component type paths arranged
    as a tree of "::" namespaces, the components that must never be removed, and the search
    over the tree. */
module EntityInspector {
  import opened Geometry
  import opened Strings

  /** A tree entry: a component (by its full type path) or a namespace of further entries. */
  datatype ComponentNode = Component(fullPath: string) | Namespace(children: map<string, ComponentNode>)

  /** Inserts the component `typePath` along the namespace chain `parts`: missing namespaces
      are created, existing ones are reused, and the last part names the component. A
      component met where a namespace is needed stops the insertion. */
  function InsertParts(m: map<string, ComponentNode>, parts: seq<string>, typePath: string): (r: map<string, ComponentNode>)
    requires |parts| >= 1
    ensures r.Keys <= m.Keys + {parts[0]}
    ensures forall k :: k in m && k != parts[0] ==> k in r && r[k] == m[k]
    decreases |parts|
  {
    if |parts| == 1 then m[parts[0] := Component(typePath)]
    else
      var entry := if parts[0] in m then m[parts[0]] else Namespace(map[]);
      match entry
      case Component(_) => m
      case Namespace(nested) => m[parts[0] := Namespace(InsertParts(nested, parts[1..], typePath))]
  }

  /** Inserts a registered component type path into the tree, split at "::". */
  function InsertComponentIntoHierarchy(m: map<string, ComponentNode>, typePath: string): map<string, ComponentNode>
  {
    InsertParts(m, Split(typePath), typePath)
  }

  /** The entry reached by following `parts` through namespaces, if any. */
  function Lookup(m: map<string, ComponentNode>, parts: seq<string>): Option<ComponentNode>
    requires |parts| >= 1
    decreases |parts|
  {
    if parts[0] !in m then None
    else if |parts| == 1 then Some(m[parts[0]])
    else match m[parts[0]]
      case Component(_) => None
      case Namespace(c) => Lookup(c, parts[1..])
  }

  /** Some namespace position of `parts` is already taken by a component. */
  predicate Blocked(m: map<string, ComponentNode>, parts: seq<string>)
    requires |parts| >= 1
    decreases |parts|
  {
    |parts| > 1 && parts[0] in m &&
    match m[parts[0]]
    case Component(_) => true
    case Namespace(c) => Blocked(c, parts[1..])
  }

  /** When no component stands in the way, the inserted path leads to the new component. */
  lemma {:induction false} InsertPlacesComponent(m: map<string, ComponentNode>, parts: seq<string>, typePath: string)
    requires |parts| >= 1 && !Blocked(m, parts)
    ensures Lookup(InsertParts(m, parts, typePath), parts) == Some(Component(typePath))
    decreases |parts|
  {
    if |parts| > 1 {
      var nested := if parts[0] in m then m[parts[0]].children else map[];
      InsertPlacesComponent(nested, parts[1..], typePath);
    }
  }

  /** A component in the way stops the insertion and leaves the tree as it was. */
  lemma {:induction false} InsertBlockedIsNoOp(m: map<string, ComponentNode>, parts: seq<string>, typePath: string)
    requires |parts| >= 1 && Blocked(m, parts)
    ensures InsertParts(m, parts, typePath) == m
    decreases |parts|
  {
    match m[parts[0]]
    case Component(_) =>
    case Namespace(c) =>
      InsertBlockedIsNoOp(c, parts[1..], typePath);
      assert m[parts[0] := Namespace(c)] == m;
  }

  /** The paths `q` and `parts` part ways at some position both have. */
  predicate Diverges(q: seq<string>, parts: seq<string>)
  {
    exists i :: 0 <= i < |q| && i < |parts| && q[i] != parts[i]
  }

  /** Every entry off the inserted path is kept: what any path that parts ways with the
      inserted one leads to is unchanged. */
  lemma {:induction false} InsertKeepsOtherEntries(m: map<string, ComponentNode>, parts: seq<string>, typePath: string,
                                                   q: seq<string>)
    requires |parts| >= 1 && |q| >= 1 && Diverges(q, parts)
    ensures Lookup(InsertParts(m, parts, typePath), q) == Lookup(m, q)
    decreases |parts|
  {
    var r := InsertParts(m, parts, typePath);
    if q[0] != parts[0] {
      if q[0] in m {
        assert r[q[0]] == m[q[0]];
      }
    } else {
      var i :| 0 <= i < |q| && i < |parts| && q[i] != parts[i];
      assert i > 0;
      assert q[1..][i - 1] != parts[1..][i - 1];
      if |parts| > 1 && |q| > 1 {
        var entry := if parts[0] in m then m[parts[0]] else Namespace(map[]);
        if entry.Namespace? {
          InsertKeepsOtherEntries(entry.children, parts[1..], typePath, q[1..]);
        }
      }
    }
  }

  /** A type path without "::" is inserted at the top level as a component. */
  lemma TopLevelInsert(m: map<string, ComponentNode>, typePath: string)
    requires !Contains(typePath, PathSep)
    ensures InsertComponentIntoHierarchy(m, typePath) == m[typePath := Component(typePath)]
  {
    assert Split(typePath) == [typePath];
  }

  /** A namespaced type path p1::...::pn ends up, when no component is in the way, under the
      namespaces p1 ... p(n-1) as the component pn with its full path. */
  lemma NamespacedInsert(m: map<string, ComponentNode>, typePath: string)
    requires !Blocked(m, Split(typePath))
    ensures Lookup(InsertComponentIntoHierarchy(m, typePath), Split(typePath)) == Some(Component(typePath))
  {
    InsertPlacesComponent(m, Split(typePath), typePath);
  }

  /** Components that stay on an entity however the user asks. */
  const EssentialComponents: set<string> :=
    {"Entity", "Transform", "GlobalTransform", "Parent", "Children", "ChildOf", "Name",
     "StateMachine", "StateMachinePersistentData", "StateMachineTransientData"}

  /** The removal list skips exactly the ten essential components. */
  function IsEssentialComponent(componentName: string): (r: bool)
    ensures r <==> componentName in EssentialComponents
  {
    match componentName
    case "Entity" => true
    case "Transform" => true
    case "GlobalTransform" => true
    case "Parent" => true
    case "Children" => true
    case "ChildOf" => true
    case "Name" => true
    case "StateMachine" => true
    case "StateMachinePersistentData" => true
    case "StateMachineTransientData" => true
    case _ => false
  }

  /** Every component of the tree, as (key, full path), at any depth. */
  function Leaves(m: map<string, ComponentNode>): set<(string, string)>
    decreases Namespace(m), 0
  {
    set k, l | k in m && l in LeavesOf(k, m[k]) :: l
  }

  function LeavesOf(k: string, n: ComponentNode): set<(string, string)>
    decreases n, 1
  {
    match n
    case Component(p) => {(k, p)}
    case Namespace(c) => Leaves(c)
  }

  /** The components the search lists: walks every namespace and keeps a component when its
      lower-cased key contains the lower-cased search text. */
  function CollectMatchingComponents(m: map<string, ComponentNode>, searchLower: string): set<(string, string)>
    decreases Namespace(m), 0
  {
    set k, l | k in m && l in MatchingOf(k, m[k], searchLower) :: l
  }

  function MatchingOf(k: string, n: ComponentNode, searchLower: string): set<(string, string)>
    decreases n, 1
  {
    match n
    case Component(p) => if Contains(ToLower(k), searchLower) then {(k, p)} else {}
    case Namespace(c) => CollectMatchingComponents(c, searchLower)
  }

  /** The components listed for a search text, and whether any was found. */
  function FilteredComponents(m: map<string, ComponentNode>, searchText: string): (r: (set<(string, string)>, bool))
    ensures r.1 <==> r.0 != {}
  {
    var found := CollectMatchingComponents(m, ToLower(searchText));
    (found, found != {})
  }

  /** The search lists exactly the components of the tree whose lower-cased key contains the
      lower-cased search text. */
  lemma {:induction false} MatchingAreFilteredLeaves(m: map<string, ComponentNode>, searchLower: string)
    ensures forall l :: l in CollectMatchingComponents(m, searchLower) <==>
      l in Leaves(m) && Contains(ToLower(l.0), searchLower)
    decreases Namespace(m), 0
  {
    forall k | k in m
      ensures forall l :: l in MatchingOf(k, m[k], searchLower) <==>
        l in LeavesOf(k, m[k]) && Contains(ToLower(l.0), searchLower)
    {
      MatchingOfAreFilteredLeaves(k, m[k], searchLower);
    }
  }

  lemma {:induction false} MatchingOfAreFilteredLeaves(k: string, n: ComponentNode, searchLower: string)
    ensures forall l :: l in MatchingOf(k, n, searchLower) <==>
      l in LeavesOf(k, n) && Contains(ToLower(l.0), searchLower)
    decreases n, 1
  {
    match n
    case Component(p) =>
    case Namespace(c) => MatchingAreFilteredLeaves(c, searchLower);
  }
}
