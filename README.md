# A verified model of the bevy_gearbox_editor core

bevy_gearbox_editor is a node-graph editor for bevy_gearbox state machines. Each state is drawn as a
node: a leaf, or a parent container that holds its child states. Transitions are drawn as
connections between node sides, with a draggable event label. This project models, in Dafny, the
parts of the editor that decide things, and proves what they promise:

- **Connection ports and routing** (`Connections`): evenly spaced ports on a node side and the
  choice of the opposite side pair. Per-(entity, side) port pools sized by the connection ends.
  The most-constrained-first greedy assignment: each connection takes the first lowest-score
  (from-port, to-port) pair, and the ports near it leave their pools. The pin cache written back
  sorted and de-duplicated. The routing shape, stagger offset and arrow head.
- **Pins and animation** (`Resources`): the four side pins of a rectangle, the closest and the
  "optimal" pin pairs, and the connection highlight timers.
- **Node geometry** (`EntityNodes`, `LeafNodes`, `ParentNodes`, `Components`): node construction,
  leaf sizing with its clamp, the title bar/content split of a parent, and parent growth to cover
  its children.
- **The hierarchy systems** (`Hierarchy`): keeping children inside their parent, moving children
  with a dragged parent, default initial states, and the bottom-up parent resize worklist.
- **The node editor** (`NodeEditor`): leaf/parent retyping of nodes after the hierarchy, and the
  z-ordered render queue with the selection lift.
- **Editor workflows** (`EditorStates`, `Dialogs`, `Editor`): rename editing, transition creation,
  the namespace toggle, the selection lift, and the dialogs. Also the editor-level observers
  (`Editor`, from the crate root): event-type discovery, the canvas offset, transition and node
  deletion, keeping transition labels in step with the edge entities, and the background menu.
- **The node-kind machines** (`NodeKinds`): the editor's own leaf/parent/parallel machine per
  state. Its transition table, the registry that creates the machines, and the component changes
  on entering each kind.
- **Type-path parsing and trees** (`Systems`, `Strings`, `EntityInspector`): event names from
  Rust type paths, the pin list and initial-state connection of a node, the root-parent rule, the
  `::` namespace tree of components and its search.
- **Persistence** (`Reflectable`): the saved form of a machine's layout, and the round trip
  between it and the live data.

Coordinates are reals. Bevy queries appear as maps, sets and sequences. The effects sent through
`Commands` (spawning, triggering, despawning) appear as returned values: the new entity, the
events triggered, or the entity despawned. State held
in a resource or component and changed in place is a `class` with `modifies` clauses. Nodes are
owned values inside hash maps, so they are datatypes, and their `&mut self` methods return the
updated node. `Seqs` and `Strings` hold the shared sequence and string library the source relies
on: a stable sort, `dedup`, `retain`, `find`/`rfind`, `split("::")` and lower-casing.

## Model

| member | source | states |
|---|---|---|
| Components.NodeType.NodeRect | src/components/mod.rs:18-23 | both variants report the rectangle of their shared node part, whose top-left corner is the node position |
| EntityNodes.New | src/components/entity_node.rs:34-49 | a new node sits at the given position with size = minimum size (80, 40), maximum (300, 200), padding (12, 8), not selected, not dragged; its size lies within its bounds |
| EntityNodes.SubscriptFontSize | src/components/entity_node.rs:57-59 | the subscript font is 7/10 of the main font, hence smaller than it when that is positive |
| EntityNodes.CurrentBgColor | src/components/entity_node.rs:62-68 | the background colour is the selected colour exactly when the node is selected |
| EntityNodes.CurrentRect | src/components/entity_node.rs:71-73 | the rectangle starts at the position and has the current size as width and height |
| EntityNodes.HandleInteraction | src/components/leaf_node.rs:64-88 | the drag flag is set by a primary drag start and cleared by a drag stop; the node moves by the drag delta, and reports that delta, exactly when dragged with the flag set; clicks and hover are passed through; no other field changes |
| LeafNodes.NewLeaf | src/components/leaf_node.rs:13-17 | a leaf wraps a default node at the position |
| LeafNodes.Clamp | src/components/leaf_node.rs:48-51 | the clamped value lies in [lo, hi] and equals the input when already inside |
| LeafNodes.ContentSize | src/components/leaf_node.rs:36-41 | the label block is exactly as wide as the wider of the two lines (at least both widths and equal to one of them) and as high as both lines plus the 2.0 gap; a missing id counts as zero size |
| LeafNodes.Show | src/components/leaf_node.rs:20-93 | the new size is content plus twice the padding, clamped into the size bounds (so within them); the interaction rectangle starts at the old position with that size; the node moves by the drag delta and reports it exactly when dragged with the flag set, otherwise it stays and reports a zero delta; clicks and hover are passed through, no "+" button; no other field of the node changes |
| ParentNodes.NewParent | src/components/parent_node.rs:20-30 | a new parent is a default node resized to (200, 120), with title bar 30, minimum content (150, 80) and child margin (10, 10) |
| ParentNodes.ParentRect | src/components/parent_node.rs:33-35 | the parent's rectangle is its node's current rectangle |
| ParentNodes.TitleBarRect | src/components/parent_node.rs:38-43 | the title bar starts at the position, as wide as the node and as high as the title bar height |
| ParentNodes.ContentRect | src/components/parent_node.rs:46-50 | title bar and content tile the node: same horizontal extent, content starts where the title bar ends and shares the node's bottom-right corner, heights add up |
| ParentNodes.MaxRight | src/components/parent_node.rs:69-75 | the running maximum is at least its start and every rectangle's right edge, and equals the start or one of those edges |
| ParentNodes.MaxBottom | src/components/parent_node.rs:69-75 | the same for the bottom edges |
| ParentNodes.FarthestEdges | src/components/parent_node.rs:69-75 | the loop computes exactly `MaxRight` and `MaxBottom` of the child rectangles from the minimum-content start |
| ParentNodes.SizedForChildren | src/components/parent_node.rs:54-93 | only the size changes; no children gives the minimum size; the size is never below the minimum content size (plus the title bar) |
| ParentNodes.SizeForChildrenCovers | src/components/parent_node.rs:77-92 | for every child, the sized parent's right and bottom edges lie at least 30 past the child's, whatever the margins |
| ParentNodes.CalculateSizeForChildren | src/components/parent_node.rs:54-93 | the parent becomes exactly `SizedForChildren`: only the size changes, to the minimum without children and otherwise to the farthest child edge (or the minimum content extent) less the content start, plus child margin and 30, at least the minimum content size, plus the title bar; the rectangle then reaches 30 past every child's bottom-right corner |
| ParentNodes.UpdateSizeForChildren | src/components/parent_node.rs:433-451 | only the size changes; no bounds gives the minimum; otherwise the size covers the bounds plus twice the margin (and the title bar), never below the minimum |
| ParentNodes.Show | src/components/parent_node.rs:96-157 | the "+" button exists exactly on a selected non-root node and reports a click only there; drag rules as for leaves: the flag, the move by the drag delta and the reported delta (zero when not dragged); clicks and hover are passed through; only the position and the drag flag of the node change |
| Hierarchy.ConstrainedPosition | src/hierarchy.rs:110-120 | the constrained position never moves left or up, lies at least 10 inside the content area's top-left corner, and on each axis is either the old coordinate or that limit |
| Hierarchy.ConstrainedNodes | src/hierarchy.rs:106-133 | only the child's entry can change, and only when child and parent nodes exist and the parent is a parent node; then the child is moved to the constrained position |
| Hierarchy.ConstrainChildToParent | src/hierarchy.rs:101-138 | the node map becomes the constrained map; the visual transitions are unchanged |
| Hierarchy.ConstrainIsIdempotent | src/hierarchy.rs:116-133 | constraining a child twice is constraining it once, when the child is not its own parent |
| Hierarchy.HandleParentChildMovement | src/hierarchy.rs:26-63 | exactly the direct children that have nodes move by the drag delta; nothing else changes; one NodeDragged event per moved child, with the same delta and no repeats |
| Hierarchy.EnsureInitialStates | src/hierarchy.rs:68-77 | existing initial states are kept; each entity with children and no initial state gets its first child; nothing else gets one |
| Hierarchy.KidRects | src/hierarchy.rs:172-175 | at most one rectangle per child; every child with a node contributes its rectangle, and every rectangle is some child's |
| Hierarchy.ChildRects | src/hierarchy.rs:172-175 | the loop collects exactly `KidRects` |
| Hierarchy.ResizedIsCovered | src/hierarchy.rs:172-180 | a parent resized for its children's rectangles covers each of them by 30 on both axes |
| Hierarchy.ResizeKeepsCovered | src/hierarchy.rs:159-185 | resizing a parent that is not yet processed keeps every processed parent covering its children, since none of them has it as a child |
| Hierarchy.KidRectsUnchanged | src/hierarchy.rs:172-175 | changing the node of an entity that is not among the children leaves their rectangles as they were |
| Hierarchy.SizedStep | src/hierarchy.rs:159-185 | marking a ready entity processed, after resizing it when it is a parent node, keeps every processed parent at exactly its children's size and every other entry as before |
| Hierarchy.MarkStep | src/hierarchy.rs:159-185 | marking a ready entity processed keeps the sweep invariant: children-first log, cover and exact sizes |
| Hierarchy.ExactSizesOnly | src/hierarchy.rs:176-180 | exact sizes change nothing but sizes: the same entities, at the same positions, with the same variants, and leaves untouched |
| Hierarchy.ProcessEntity | src/hierarchy.rs:159-189 | an entity is marked exactly when it has no children or all its children are processed or childless; a marked parent node is resized to exactly `SizedForChildren` of its children's rectangles and nothing else changes; every processed parent keeps covering its children |
| Hierarchy.Sweep | src/hierarchy.rs:153-190 | one pass visits every node once; it makes progress exactly when it marks something; after a pass without progress every unprocessed node is a parent with an unready child; throughout, unprocessed, childless and leaf entries are as before the sweeps and every processed parent has exactly `SizedForChildren` of its children's rectangles |
| Hierarchy.RecalculateParentSizes | src/hierarchy.rs:144-192 | the loop ends; each entity is processed at most once, after every child that has children; at the end no unprocessed node is ready; every entity that is unprocessed, childless or a leaf keeps its node, and every processed parent node has exactly `SizedForChildren` of its children's final rectangles, so it reaches 30 past each of them |
| EditorStates.TextEditingState.StartEditing | src/editor_state.rs:26-31 | afterwards the entity is being edited, the text is its current name and both focus flags are set |
| EditorStates.TextEditingState.StopEditing | src/editor_state.rs:34-45 | while editing: returns the entity with the edited text and becomes idle (no entity, empty text, flags clear); otherwise returns nothing and changes nothing |
| EditorStates.TextEditingState.CancelEditing | src/editor_state.rs:48-53 | afterwards nothing is being edited, the text is empty and both flags are clear |
| EditorStates.TransitionCreationState.StartTransition | src/editor_state.rs:126-132 | afterwards a transition is active from the source, waiting for a target, with no target, no dropdown and no dropdown position; the known event types are kept |
| EditorStates.TransitionCreationState.SetTarget | src/editor_state.rs:135-140 | records the target, stops waiting for one, shows the dropdown at the given position; the source is kept |
| EditorStates.TransitionCreationState.Cancel | src/editor_state.rs:143-145 | resets every field to its default, so no transition is active |
| EditorStates.TransitionCreationState.Complete | src/editor_state.rs:148-150 | resets every field to its default, so no transition is active |
| EditorStates.UpdateEventNodePosition | src/editor_state.rs:106-112 | only the label position changes, and it lies at the stored offset from the midpoint of the two node centres |
| EditorStates.UpdateEventNodeOffset | src/editor_state.rs:115-121 | only the offset changes, and placing the label from the new offset puts it back where it was |
| EditorStates.PositionThenOffsetKeepsOffset | src/editor_state.rs:106-121 | storing the offset of a label just placed from an offset gives back that offset |
| EditorStates.Toggled | src/editor_state.rs:242-248 | the path is in the result exactly when it was not before; every other path is unchanged |
| EditorStates.ToggleTwiceIsIdentity | src/editor_state.rs:242-248 | toggling the same path twice gives back the original set |
| EditorStates.ComponentAdditionState.ToggleNamespace | src/editor_state.rs:242-253 | the expanded set is toggled at the path, so its expansion flips; search text and dropdown are unchanged |
| EditorStates.ShouldGetSelectionBoost | src/editor_state.rs:592-612 | true exactly when a node is selected and the entity is that node or one of its ancestors |
| EditorStates.AncestorTransitive | src/editor_state.rs:604-610 | an ancestor of an ancestor is an ancestor |
| EditorStates.AncestorRankIsHigher | src/editor_state.rs:604-610 | an ancestor ranks strictly above its descendant, so no entity is its own ancestor and the walk up the chain ends |
| Resources.FromRect | src/resources.rs:32-40 | each pin lies on its side of the rectangle, equally far from both ends of that side |
| Resources.GetClosestPins | src/resources.rs:42-71 | the returned pins are the pair at least distance over the 4 x 4 pairs, the first such pair in top/right/bottom/left order |
| Resources.ApproachFace | src/resources.rs:108-127 | horizontal-first routing exactly when the horizontal distance strictly dominates; then the left face when moving right, else the right face; otherwise the top face when moving down, else the bottom face |
| Resources.ApproachFaceLooksTowardSource | src/resources.rs:108-127 | for pins laid out on a rectangle, the chosen face lies on the half of the target that faces the source along the dominant axis |
| Resources.GetOptimalConnectionPins | src/resources.rs:74-130 | when the centres are less than 1 apart on both axes: the closest pair with horizontal-first routing; otherwise the first source pin closest to the target centre, and the target face and routing of ApproachFace |
| Resources.ConnectionAnimations.StartAnimation | src/resources.rs:208-211 | the timer of the pair is set to 0.25, replacing any earlier one, and the pair is animated |
| Resources.ConnectionAnimations.Update | src/resources.rs:214-229 | every timer drops by the delta; exactly the timers at or below zero are removed and reported, once each; all remaining timers are positive; with a non-negative delta every timer stays within (0, 0.25] |
| Resources.ConnectionAnimations.GetAnimationProgress | src/resources.rs:232-243 | a value exactly when the pair is animated, namely 1 - remaining/0.25, which lies in [0, 1) for running timers |
| Connections.Opposite | src/ui/connections.rs:253-261 | the opposite side is opposite to the side, differs from it, and is the only side opposite to it |
| Connections.DetermineConnectionEdges | src/ui/connections.rs:58-81 | the two sides are always opposite; left/right exactly when the horizontal centre offset is strictly larger, top/bottom on ties and coincident centres; the from side faces the target |
| Connections.DetermineEdgesReversed | src/ui/connections.rs:58-81 | swapping the two nodes swaps the sides, except for coincident centres, which give (Top, Bottom) both ways |
| Connections.PortOnSide | src/ui/connections.rs:406-427 | every generated port lies on its side of the rectangle, strictly between the two corners when the side has positive length |
| Connections.PortsOrdered | src/ui/connections.rs:406-427 | along a side of positive length the ports strictly increase, so no two coincide |
| Connections.SideMidpoint | src/ui/connections.rs:396-404 | the single port is the midpoint of the side: the same point as the general formula for one port and as the side pin of the four-pin layout |
| Connections.GeneratePortsForEdge | src/ui/connections.rs:391-431 | exactly `count` ports, none for zero, port i at fraction (i + 1)/(count + 1) along the side |
| Connections.CountEdgeEnds | src/ui/connections.rs:366-377 | a count exists exactly for the (entity, side) pairs some connection end lands on, and equals the number of such ends |
| Connections.InitializeAvailablePorts | src/ui/connections.rs:362-388 | a pool exists exactly for the pairs some connection end lands on; it has exactly that many evenly spaced ports on that side of the entity's rectangle |
| Connections.InitialPools | src/ui/connections.rs:362-388 | the initial pools: one per (entity, side) some connection end lands on, with exactly that many evenly spaced ports on that side |
| Connections.CalculatePortConstraint | src/ui/connections.rs:434-453 | zero without routing pins; otherwise 1/(options + 1) plus a thousandth of the centre distance, where options is the product of the two pool sizes (a missing pool counts as 0) |
| Connections.ConstraintFallsWithOptions | src/ui/connections.rs:446-447 | more port combinations never make a connection more constrained |
| Connections.MostConstrainedFirstIsTotalPreorder | src/ui/connections.rs:329-334 | the descending-constraint comparison is a total preorder, so the stable sort is well defined |
| Connections.CountPairCrossings | src/ui/connections.rs:555-562 | the crossings with one existing assignment are the fewer of the two bend orders of the candidate, each checked against both bend orders of the existing route (at most 2) |
| Connections.CrossingSumRemove | src/ui/connections.rs:529-563 | the crossing sum over the existing assignments does not depend on the order the map is visited in |
| Connections.CrossingSumBounds | src/ui/connections.rs:529-563 | the crossings lie between 0 and 2 per existing assignment |
| Connections.ConnectionImpact | src/ui/connections.rs:608-640 | the impact on one later connection is a share between 0 and 1; zero when it has no routing pins, a pool is missing or a pool is empty |
| Connections.FutureImpact | src/ui/connections.rs:583-645 | the lookahead over n later connections lies between 0 and n |
| Connections.EstimateFutureImpact | src/ui/connections.rs:583-645 | the nested loops compute the summed share of each later connection's port pairs that the horizontal-first trial route crosses |
| Connections.ScoreBounds | src/ui/connections.rs:503-580 | without the length penalty, the score lies between 0 and 2 per existing assignment plus 0.5 per later connection |
| Connections.ScorePortAssignment | src/ui/connections.rs:503-580 | the score is the crossing sum plus half the lookahead impact plus a ten-thousandth of the pair's length |
| Connections.ConsiderPair | src/ui/connections.rs:480-493 | after trying pair (i, j) the kept pair is the first of lowest score among all pairs tried so far |
| Connections.ScanRow | src/ui/connections.rs:479-494 | after one row the kept pair is the first of lowest score among all pairs tried so far |
| Connections.BestPortPair | src/ui/connections.rs:474-496 | nothing exactly when a pool is empty; otherwise the pair of lowest score, the first such pair in nested-loop order (a later pair wins only when strictly better) |
| Connections.FindBestPortAssignment | src/ui/connections.rs:456-500 | a pair exactly when both entities have routing pins and both pools exist and are non-empty; then the first pair of lowest score from the from-pool x to-pool |
| Connections.FarIsSymmetricAndIrreflexive | src/ui/connections.rs:660-666 | the "kept" test is symmetric and never keeps the committed port itself |
| Connections.RetainFar | src/ui/connections.rs:660-666 | keeps, in order, exactly the ports more than 1 away from the committed port on some axis, so the committed port is gone |
| Connections.RetainInPool | src/ui/connections.rs:659-666 | filters only the named pool; no pool is added or dropped and pools never gain ports |
| Connections.RemoveUsedPorts | src/ui/connections.rs:648-669 | without routing pins nothing changes; otherwise the from-pool drops the ports near the from-port and the to-pool those near the to-port, in order; every other pool is untouched and no pool grows |
| Connections.BestCommit | src/ui/connections.rs:456-500 | the commit for a connection with free ports in both pools is for that connection, on its from and to pools, with the first lowest-score pair drawn from them |
| Connections.AssignedPairs | src/ui/connections.rs:348 | an entity pair has an assignment exactly when some commit was for that pair |
| Connections.LastCommitWins | src/ui/connections.rs:348 | the assignment of a pair is its last commit: an earlier commit between the same two entities is overwritten |
| Connections.CommitKeepsInvariants | src/ui/connections.rs:346-351 | committing a pair drawn from the current pools and removing its neighbourhood keeps: no port reused within a pool, pools clear of taken ports, pools within the initial ones |
| Connections.AssignStep | src/ui/connections.rs:337-351 | one commit keeps the whole loop invariant, with the map updated at the connection's entity pair |
| Connections.AssignOne | src/ui/connections.rs:337-352 | one round keeps the loop invariant; without free ports in both pools nothing changes; otherwise it makes exactly the fold step `BestCommit`: the first lowest-score pair is recorded under the entity pair and its neighbourhood leaves the pools as in `UsedPortsRemoved` |
| Connections.AssignPorts | src/ui/connections.rs:324-357 | the pools are `InitialPools`; connections sorted most constrained first (stably); the assignments and commits are exactly `Lookahead`, the greedy fold over that order; each commit is for a routable connection with ports from its own initial pools, and no port is reused within a pool |
| Connections.AssignInOrder | src/ui/connections.rs:337-352 | the loop over the sorted connections yields exactly the greedy fold `Greedy` from the initial pools, keeping the loop invariant |
| Connections.GreedyAdvance | src/ui/connections.rs:337-352 | one round of the loop moves the fold one connection on: the rest of the fold from there, after the commits made so far, is still the whole result |
| Connections.GroupedPortsAreAssigned | src/ui/connections.rs:680-693 | every grouped port is the assigned from-port of a connection leaving by that pool or the assigned to-port of one entering by it |
| Connections.GroupAssignedPorts | src/ui/connections.rs:680-693 | the loop groups the assigned ports per pool, connection by connection, in order |
| Connections.AlongSideLeIsTotalPreorder | src/ui/connections.rs:699-704 | ordering ports along a side is a total preorder |
| Connections.NormalizeProperties | src/ui/connections.rs:699-705 | a stored side is sorted along the side, has no equal neighbours, holds exactly the grouped ports, and is no longer than them |
| Connections.StoreGrouped | src/ui/connections.rs:696-714 | every grouped (node, side) of a node with pins gets its normalized ports; other sides, rects and the node set stay |
| Connections.PinPositionCache.UpdatePinCacheWithAssignments | src/ui/connections.rs:672-715 | the cache's grouped sides are replaced by their normalized ports; other sides, rects and the node set stay |
| Connections.PinPositionCache.AssignPortsWithLookahead | src/ui/connections.rs:324-357 | the assignments and commits are exactly `Lookahead` over the cache's rectangles, with no port reused within a pool; the cache's grouped sides are replaced by their normalized ports, the rest stays |
| Connections.PinPositionCache.DistributePortsForConnections | src/ui/connections.rs:43-55 | connections from the initial-state pin take no part; with regular connections the result is exactly `Lookahead` over them and the cache holds their grouped, normalized ports; with none, nothing is assigned and the cache is unchanged |
| Connections.DetermineRoutingStrategy | src/ui/connections.rs:176-245 | never an L-shape; straight exactly when the pins are within 20 on one axis and the sides are opposite, an S-shape otherwise |
| Connections.CalculateStaggerOffset | src/ui/connections.rs:264-284 | 15 per similar existing route, so between 0 and 15 per route, and 0 exactly when no route is similar |
| Connections.StaggerOffsetAppend | src/ui/connections.rs:264-284 | one more existing route raises the offset by 15 when it is similar and leaves it otherwise |
| Connections.ArrowHead | src/ui/connections.rs:920-960 | three points: the tip at the target pin, a base of length 8 perpendicular to the side's normal, centred 8 outside the side |
| Connections.ArrowBaseOutsideNode | src/ui/connections.rs:920-960 | for a pin on the target's side, both base corners lie strictly outside the node on that side, so the arrow points into it |
| NodeEditor.RetypedNode | src/node_editor.rs:40-75 | the node has the wanted variant; a node of the right variant is kept, one of the other variant is replaced by a fresh node at the same position, a missing one is created at (200, 100) for a parent and (100, 100) for a leaf |
| NodeEditor.RetypeIsIdempotent | src/node_editor.rs:40-75 | retyping a node that was just retyped changes nothing |
| NodeEditor.RetypeOne | src/node_editor.rs:41-74 | the match on the current node gives exactly the retyped node and leaves every other entry |
| NodeEditor.RetypeStep | src/node_editor.rs:40-76 | one more loop step keeps: the visited entities are retyped from the starting nodes, the others unchanged (a repeated entity stays retyped) |
| NodeEditor.RetypeAll | src/node_editor.rs:34-80 | the node map holds exactly the hierarchy's entities, each with its retyped node |
| NodeEditor.NodeEditorState.UpdateNodeTypes | src/node_editor.rs:21-82 | nothing changes without an open machine or when it is not a root; otherwise the nodes are exactly those of the hierarchy, each retyped from the old map by whether the state has an initial state |
| NodeEditor.QueueIsSorted | src/node_editor.rs:122-134 | heights at increasing hierarchy positions are sorted, because the selection lift (5) is below the step (10) |
| NodeEditor.QueueStep | src/node_editor.rs:122-135 | visiting one more hierarchy entity keeps the queue equal to the entities with nodes so far, each at its height |
| NodeEditor.PushOne | src/node_editor.rs:123-135 | one iteration pushes the entity at ten times its index plus the boost exactly when it has a node |
| NodeEditor.PushNodes | src/node_editor.rs:114-136 | the pushed queue is the entities with nodes in hierarchy order, each at its height |
| NodeEditor.BuildRenderQueue | src/node_editor.rs:113-139 | the render queue is sorted by height and lists exactly the hierarchy entities that have nodes, in hierarchy order, each at ten times its index plus 5 when it is the selected node or an ancestor of it |
| NodeKinds.FindEdge | src/node_kind.rs:112-126 | finds a target exactly when some edge leaves the kind on the event, and the target found is that of such an edge |
| NodeKinds.NextTable | src/node_kind.rs:112-126 | the transition table row by row: a leaf becomes a parent on a new child; every kind goes to parallel, parent or leaf on the matching request; parent and parallel fall back to a leaf when all children are removed; nothing else moves |
| NodeKinds.EdgesAreDeterministic | src/node_kind.rs:112-126 | no two edges leave the same kind on the same event |
| NodeKinds.RunEndsInLastRequest | src/node_kind.rs:115-126 | after any run of events ending in a "make" request or the loss of all children, the kind is that event's kind, whatever came before |
| NodeKinds.Synced | src/node_kind.rs:85-129 | after the sync every listed state has a machine and the machines of the states that had one are kept |
| NodeKinds.SyncStep | src/node_kind.rs:85-128 | a state with a machine is skipped; otherwise it gets a machine, so the registered states grow by exactly this one |
| NodeKinds.SyncStepKeepsValid | src/node_kind.rs:95-128 | one step keeps: every registered machine has an active kind and an id already handed out, and no two states share a machine |
| NodeKinds.SyncedNewMachines | src/node_kind.rs:95-128 | every new machine has its own fresh id and starts as a leaf; the active kind of every older machine is kept |
| NodeKinds.SyncIsIdempotent | src/node_kind.rs:86-88 | syncing again with the same states creates no machine and changes no entry |
| NodeKinds.NodeKindRegistry.SyncNodeKind | src/node_kind.rs:77-130 | the loop keeps the registry valid and ends in the synced registry |
| NodeKinds.NodeKindRegistry.OnDeleteNodeCleanup | src/node_kind.rs:133-161 | the deleted state's machine is forgotten and its root reported for despawning exactly when it had one; the registry stays valid |
| NodeKinds.NodeKindRegistry.Trigger | src/node_kind.rs:112-126 | when an edge leaves the machine's active kind on the event, the machine enters the edge's target (the table's next kind); otherwise nothing changes |
| NodeKinds.NodeKindRegistry.OnRemoveStateChildren | src/node_kind.rs:285-297 | a state without a machine changes nothing; otherwise its machine ends as a leaf, entered anew when it was a parent or parallel |
| NodeKinds.StateComponents.OnEnterLeaf | src/node_kind.rs:238-249 | the state loses its parallel marker, initial state and children, and nothing else changes |
| NodeKinds.StateComponents.OnEnterParallel | src/node_kind.rs:164-198 | the state becomes parallel without an initial state and has a child: its own, or a spawned one with a leaf node 50 right and below the state's node when it has one |
| NodeKinds.StateComponents.OnEnterParent | src/node_kind.rs:201-282 | the state loses its parallel marker and has a child; the initial-state request names the first child, or else the spawned child, with or without a node for the state (the leaf for the child is placed only when the state has one) |
| NodeKinds.StateComponents.SpawnChild | src/node_kind.rs:186-194 | the state's children become the new child; a leaf node 50 right and below the state's node is added when the state has a node |
| Editor.EdgeEventArg | src/lib.rs:311-313 | no argument when the path holds no "EventEdge<"; otherwise the text between the marker and the first '>' after the marker's start, and that slice is always in bounds |
| Editor.CloseAfterMarker | src/lib.rs:312-313 | the first '>' after the marker's start lies past the marker, so `start + 10 <= start + end` |
| Editor.DiscoveredNames | src/lib.rs:305-323 | the collected names hold no duplicates |
| Editor.DiscoveredNamesAreEdgeNames | src/lib.rs:307-323 | a name is collected exactly when some registered type path is an event edge with that last path segment |
| Editor.WithAlways | src/lib.rs:326-329 | the list holds "Always"; it is put in front exactly when missing, and otherwise the list is unchanged; no duplicate is introduced |
| Editor.ScanEdgeNames | src/lib.rs:305-323 | the registry loop computes the collected names |
| Editor.DiscoverTransitionEdgeListenerEventTypes | src/lib.rs:300-331 | the offered event types hold "Always" and no duplicates, are exactly "Always" plus the discovered edge names, sorted after a leading "Always"; nothing else in the workflow changes |
| Editor.OffsetNodes | src/lib.rs:733-743 | every node keeps its variant and moves by the offset; no node is added or lost |
| Editor.OffsetLabels | src/lib.rs:745-748 | every label moves by the offset and nothing else about it changes |
| Editor.ShiftNodes | src/lib.rs:734-743 | the loop over the nodes moves each by the offset |
| Editor.ShiftLabels | src/lib.rs:746-748 | the loop over the labels moves each by the offset |
| Editor.ApplyCanvasOffset | src/lib.rs:733-749 | nodes and labels are moved by the offset |
| Editor.RemoveCanvasOffset | src/lib.rs:752-768 | nodes and labels are moved back by the offset |
| Editor.CanvasOffsetRoundTrip | src/lib.rs:733-768 | removing the offset after applying it puts every node and label back where it was |
| Editor.HandleDeleteTransition | src/lib.rs:427-442 | the labels matching the request's source, target and event type are dropped and the others kept in order; nodes stay |
| Editor.DeleteTransitionIsExactAndIdempotent | src/lib.rs:438-442 | a label is kept exactly when it does not match, and deleting twice equals deleting once |
| Editor.RequestFor | src/lib.rs:579-583 | the request made for a label matches that label |
| Editor.HandleDeleteNode | src/lib.rs:548-591 | deleting the root changes nothing, triggers nothing and despawns nothing; otherwise exactly that node is removed, labels stay, one deletion is triggered per label targeting it, in order, and the node's entity is returned as despawned |
| Editor.TriggerDeletions | src/lib.rs:570-584 | one deletion request per label targeting the node, with its source, target and event type, in label order |
| Editor.AfterDeletionsKeepsOnlyUnmatched | src/lib.rs:438-442 | a label survives a run of deletions only when it was there and no request matches it |
| Editor.DeletedNodeHasNoIncomingLabels | src/lib.rs:570-584 | once the triggered deletions are handled, no label targets the deleted node |
| Editor.FindLabel | src/lib.rs:630 | finds the first label drawn for the edge, and nothing exactly when no label is |
| Editor.FindLabelIndex | src/lib.rs:630 | the scan returns the first label of the edge |
| Editor.Refreshed | src/lib.rs:631-638 | new ends, rectangles and text; the offset and dragging flag are kept; the label sits at the midpoint plus its offset unless it is being dragged |
| Editor.SyncOne | src/lib.rs:620-655 | one edge adds at most one label, keeps the other labels' edges in place, and has a label afterwards when both its ends have nodes |
| Editor.SyncEdge | src/lib.rs:629-655 | refreshes the edge's first label in place, or appends a new one at the midpoint with offset zero |
| Editor.NodeRects | src/lib.rs:610-613 | a rectangle for exactly the entities with nodes |
| Editor.SyncEdgeVisualsFromEcs | src/lib.rs:594-661 | the labels are the in-order visit of the machine's edges followed by dropping labels of edges that are not the machine's; nodes stay |
| Editor.SyncCoversEdges | src/lib.rs:615-656 | after the visit every edge of the machine whose two ends have nodes has a label |
| Editor.SyncedLabelsOfSeenEdgesSurvive | src/lib.rs:658-659 | after the sync every label belongs to an edge of the machine, and every such edge with both ends drawn still has a label |
| Editor.EditorMenus.HandleBackgroundContextMenuRequest | src/lib.rs:895-911 | a pending suppression is consumed and nothing else changes; otherwise the node, transition and machine menus close and the background menu opens at the position |
| Editor.EditorMenus.HandleBackgroundInteractions | src/lib.rs:697-721 | a pending suppression is consumed and nothing else happens; a right click closes the other menus and requests the background menu at the cursor, or the origin when it is unknown |
| EntityInspector.InsertParts | src/entity_inspector.rs:129-159 | only the first path part's top-level entry can change; every other entry is kept |
| EntityInspector.InsertPlacesComponent | src/entity_inspector.rs:137-159 | when no component stands where a namespace is needed, following the path leads to the new component with its full type path |
| EntityInspector.InsertBlockedIsNoOp | src/entity_inspector.rs:153-156 | a component where a namespace is needed stops the insertion and leaves the tree unchanged |
| EntityInspector.InsertKeepsOtherEntries | src/entity_inspector.rs:137-159 | what every path that parts ways with the inserted one leads to is unchanged |
| EntityInspector.TopLevelInsert | src/entity_inspector.rs:131-135 | a type path without "::" becomes a top-level component keyed by itself |
| EntityInspector.NamespacedInsert | src/entity_inspector.rs:125-160 | a namespaced type path, when unblocked, ends up under its namespaces as a component with the full path |
| EntityInspector.IsEssentialComponent | src/entity_inspector.rs:460-472 | essential exactly for the ten listed component names |
| EntityInspector.FilteredComponents | src/entity_inspector.rs:353-369 | "found any" holds exactly when some component matched |
| EntityInspector.MatchingAreFilteredLeaves | src/entity_inspector.rs:372-398 | the search lists exactly the components of the tree, at any depth, whose lower-cased key contains the lower-cased search text |
| Systems.ExtractTransitionEventType | src/systems.rs:117-129 | "Unknown" when the first '<' or the last '>' is missing; a panic exactly when the last '>' comes before the first '<'; otherwise the text between them after its last "::", which holds no "::" |
| Systems.FixedPins | src/systems.rs:28-58 | the pins start with the existing ones, then hold an input pin and, for parents and roots, an "InitialState" output pin; a leaf gets at most the input pin; when both required pins already exist nothing is added; the only output pin it can add is "InitialState" at index usize::MAX |
| Systems.AddOutputPin | src/systems.rs:76-86 | afterwards an output pin carries the event name; it is added at the next output index, which advances, exactly when none carried it |
| Systems.PinsAfterProperties | src/systems.rs:62-88 | the listener pins are appended at output indices 0, 1, 2, ... in order, and no two output pins share a label |
| Systems.PanicPersists | src/systems.rs:64-88 | a failed extraction on some component stops the whole pin scan |
| Systems.VisitPinPath | src/systems.rs:69-87 | one component: a listener adds the output pin of its event name unless already there; any other component changes nothing |
| Systems.ListenersGetPins | src/systems.rs:65-87 | after a scan without panic, every transition listener whose event name can be extracted has an output pin labelled with that name |
| Systems.BuildNodePins | src/systems.rs:24-91 | the node's pins are the fixed pins followed by one output pin per new listener event type, in component order, or a panic when an event name cannot be extracted |
| Systems.InitialStateConnection | src/systems.rs:197-236 | a connection is spawned exactly for a parent or root with an initial state and no "InitialState" connection between the two yet; it runs from pin `usize::MAX` to pin 0 |
| Systems.InitialStateConnectionIsSpawnedOnce | src/systems.rs:216-235 | once the connection exists, running the system again spawns nothing |
| Systems.CheckRootParent | src/systems.rs:279-307 | the nested checks decide: the entity needs the root as parent exactly when it is not the root and has no parent, a parent that no longer exists, or a parent that is neither the root nor a state entity |
| Systems.EnforceRootHierarchy | src/systems.rs:267-314 | nothing without a root; otherwise exactly the state entities needing a root parent are reparented, in query order |
| Systems.EnforceRootIsStable | src/systems.rs:267-314 | after the reparenting, with a live root, no state entity needs reparenting |
| Dialogs.ComponentDialogState.CloseDialog | src/ui/dialogs.rs:99-102 | the dialog is closed and the choice forgotten |
| Dialogs.ComponentDialogState.PressAdd | src/ui/dialogs.rs:85-90 | an open dialog with a chosen component returns (entity, component) and closes; otherwise nothing is added and nothing changes |
| Dialogs.TransitionDialogState.CloseDialog | src/ui/dialogs.rs:244-248 | no source, no event type, not picking a target |
| Dialogs.TransitionDialogState.PressNext | src/ui/dialogs.rs:231-235 | target picking starts exactly when an event type is chosen, and the rest is unchanged |
| Dialogs.ListenerEventName | src/ui/dialogs.rs:180-195 | a type path that is not a transition listener, or has no closing '>', contributes nothing; a contributed name holds no "::" |
| Dialogs.ReadListener | src/ui/dialogs.rs:178-195 | the loop body reads the name of one type path as stated above, panicking where its slice would |
| Dialogs.CollectedNamesProperties | src/ui/dialogs.rs:176-196 | the collected names are distinct and exactly the names of the contributing type paths |
| Dialogs.CollectPanicPersists | src/ui/dialogs.rs:177-196 | a panic on one type path is a panic of the whole collection |
| Dialogs.CollectAvailableEventTypes | src/ui/dialogs.rs:172-199 | the offered event types are sorted, distinct and exactly the listener event names, or a panic |
| Reflectable.DetermineNodeType | src/reflectable.rs:127-134 | a state is saved as a parent exactly when it has children |
| Reflectable.SavedNodes | src/reflectable.rs:61-67 | every node, and no other entity, is saved at its position |
| Reflectable.SavedTransitions | src/reflectable.rs:70-78 | one saved label per label, in order, with its ends, event type, position and offset |
| Reflectable.RestoredNode | src/reflectable.rs:92-101 | the rebuilt node sits at the saved position and is a parent exactly when saved as one |
| Reflectable.RestoredNodes | src/reflectable.rs:92-103 | exactly the saved entities get nodes |
| Reflectable.RestoredTransitions | src/reflectable.rs:106-117 | one label per saved label, in order, rebuilt with placeholder rectangles and edge, not being dragged |
| Reflectable.SaveNodes | src/reflectable.rs:61-67 | the loop over the nodes builds the saved nodes |
| Reflectable.SaveTransitions | src/reflectable.rs:70-78 | the loop over the labels builds the saved labels |
| Reflectable.FromPersistentData | src/reflectable.rs:53-84 | the saved form holds the saved nodes and the saved labels |
| Reflectable.RestoreNodes | src/reflectable.rs:92-103 | the loop over the saved nodes rebuilds the nodes |
| Reflectable.RestoreTransitions | src/reflectable.rs:106-117 | the loop over the saved labels rebuilds the labels |
| Reflectable.ToPersistentData | src/reflectable.rs:87-123 | fresh live data with the rebuilt nodes and labels |
| Reflectable.SaveRestoreKeepsLayout | src/reflectable.rs:53-123 | saving then restoring keeps every node at its place, as a parent exactly when it has children, and every label in order with its ends, event, position and offset |
| Reflectable.RestoreSaveIsIdentity | src/reflectable.rs:53-123 | restoring then saving gives back the saved form when the saved kinds agree with which states have children |
| Seqs.SortBy | src/ui/connections.rs:329-334 | the sort returns a permutation of its input: same length, same elements with the same multiplicities |
| Seqs.SortBySorted | src/node_editor.rs:139 | under a total preorder the sort's result is sorted |
| Seqs.SortByKeepsSorted | src/node_editor.rs:139 | an already sorted input comes back unchanged, as a stable sort leaves it |
| Seqs.FirstMinPairOf | src/ui/connections.rs:479-494 | for non-empty pools, the pair the nested loops keep: of lowest score, and first in loop order among those |
| Seqs.FirstMinPairUnique | src/ui/connections.rs:479-494 | there is only one such pair, so the choice is determined |
| Seqs.DedupNoAdjacentRepeats | src/ui/connections.rs:705 | after `dedup` no two neighbours are equal |
| Seqs.DedupKeepsSorted | src/ui/connections.rs:699-705 | `dedup` keeps a sorted list sorted |
| Strings.LexLeIsTotalPreorder | src/lib.rs:326 | the ordering of strings is a total preorder |
| Strings.SortNamesKeepsThem | src/lib.rs:326 | sorting distinct names gives a sorted, distinct list of the same names |
| Strings.SplitJoin | src/entity_inspector.rs:129 | joining the pieces of `split("::")` with "::" gives back the path |
| Strings.SplitPartsHaveNoSep | src/entity_inspector.rs:129 | no piece of `split("::")` contains "::" |
| Strings.LastSegmentHasNoSep | src/lib.rs:316 | the last piece of `split("::")` contains no "::" |
| Strings.AfterLastSepHasNoSep | src/systems.rs:122-125 | the text after the last "::" found by `rfind` contains no "::" |
| Strings.LastSegmentDiffersFromAfterLastSep | src/lib.rs:316 | on "a:::b" the last `split("::")` piece is ":b" while the text after `rfind("::")` is "b", so the two name extractions used by the editor can disagree |

## Left out

- All egui painting, layout and widget code is not modelled. This covers the `draw_*` functions,
  the corner radius, colours, text colour and pulse intensities, and the windows and menus'
  rendering. It also covers main.rs, the UI modules, the machine list, the context menus and the
  window management.
- `f32` is modelled as `real`. Rounding, NaN and the `partial_cmp(..).unwrap_or(Equal)` fallback
  are not modelled. The canvas-offset round trip is exact only over the reals.
- Euclidean distance (a square root) is a function parameter `dist`, used where its value enters
  a score. Where only comparisons matter, the model compares squared distances.
- The routed-connection crossing test, `RoutedConnection::crosses`, is a function parameter
  `crosses`.
- `Connections.RouteSketch` leaves out the `Connection` that `RoutedConnection::new` stores in
  each route, so `crosses` cannot see which connection a route belongs to; only the pins and
  bend order reach it.
- The routed-connection record, the side type and the vector-valued pin cache are declared in
  the model, because the crate's files modelled here do not define them. The single-point pins of the
  resources file are modelled separately.
- Route construction is not modelled: `route_connections_with_crossing_avoidance`,
  `route_connection_with_crossing_avoidance` and `route_initial_state_connection`. They build
  routes from external types; their decision parts (routing strategy and stagger offset) are
  modelled.
- `calculate_connection_constraint` is not modelled. The sort uses the port-based constraint.
- `closest_point_on_rect_edge` in the editor state is not modelled, since nothing in the core
  calls it.
- `auto_discover_connections` is modelled only for the pin list and the initial-state
  connection:
  - the listener connections it creates are not modelled;
  - neither is the `manage_parent_zones` system;
  - components whose type cannot be resolved are skipped by the source, so the model takes the
    resolvable type paths as its input.
- Hash-map iteration order is arbitrary in the source. The model visits such maps in a given
  order or an arbitrary `:|` choice. Results that depend on it are stated for every order, for
  example `Connections.CrossingSumRemove`.
- Ancestry (`root_ancestor`, `StateChildOf`, `Children`, `InitialState`) appears as maps and sets
  given to each operation. The bevy_gearbox runtime is not modelled: event dispatch and the order
  of `EnterState` observers.
- `NodeKinds.NodeKindRegistry.Trigger` delivers one event to one machine. The per-kind entry
  methods are separate and not chained to it.
- NodeKinds: each node-kind machine's sub-entities are not spawned. These are the three kind
  states and the ten edges; a machine is its root id and its active kind. Despawning them is
  reported as the root to despawn.
- NodeKinds: the source has two observers for entering the parent kind (the generic one and the
  "via make parent" one, src/lib.rs:89-90). Their queued commands together always request the
  first child, or the new child when there was none. The request comes twice when the state has a
  child or a node, and once when it has neither: the first command then spawns the child and
  returns, and the second finds it. `NodeKinds.StateComponents.OnEnterParent` makes the request
  once and does not model how often it is made.
- Newly spawned entities are parameters (`newChild`) or come from a counter (`nextEntity`). The
  counter stands for Bevy's entity allocator.
- `Reflectable.ToPersistentData`: `Rect::NOTHING` and the restored labels' edge entity are
  parameters. `to_persistent_data` (src/reflectable.rs:107-116) builds a label without an
  `edge_entity` field.
- Scene saving, the reflection utilities (`utils.rs`), component insertion and removal through
  reflection, and `create_transition_edge_entity` are not modelled. They change the Bevy world
  through APIs outside the core.
- `EntityInspector.InsertParts`: insertion is modelled on values, returning the new tree, rather
  than by walking a mutable reference into nested maps.
- `EntityInspector.FilteredComponents`: the search result is the set of matching components, not
  the key-ordered list of buttons the source draws.
- `EntityInspector.FilteredComponents`: matching lower-cases with `Strings.ToLower`, which folds
  ASCII letters only, while Rust's `to_lowercase` folds all of Unicode; on non-ASCII component
  names or search text the two can disagree.
- `EditorStates.ShouldGetSelectionBoost` requires a parent chain without cycles, ranked by
  `RankedHierarchy`. On a cyclic chain the source's walk would not end.
- `NodeEditor.BuildRenderQueue`: the `i32` z-order, `index * 10 + 5`, is an unbounded integer.
  Overflow needs more than 200 million hierarchy entries.
- `Editor.SyncEdgeVisualsFromEcs` handles one open machine. The source repeats it for every open
  machine, and machines without saved data are skipped.
- `Editor.HandleDeleteTransition` and `Editor.HandleDeleteNode` act on the machine's saved data.
  The branch where the root has no saved data only logs a warning, and is not modelled.
- Text measurement (galley sizes) and mouse input are parameters of the node `Show` methods.
