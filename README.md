# State-diagram parser and simulation store, in Dafny

This project models the two pieces of logic behind the state-machine
playground.

- **The parser.** `parseStateDiagram` turns `stateDiagram-v2` text into a
  graph of nodes and edges.
  - Lines count only after a line that trims to `stateDiagram-v2`.
  - Each `A --> B` line adds one edge.
  - `[*]` stands for the `start` node as a source and for the `end` node
    as a target.
  - Any other label's id is the label in lower case, with each whitespace
    run turned into `-`.
  - A post-pass adds a missing `start` or `end` node with its edge.
  - A cascade layout then places the nodes in one row.
- **The simulation store.** `useStateMachineStore` walks the installed
  graph one node at a time. It tracks a current node, a set of visited
  nodes, node statuses (`pending`, `active`, `done`, `error`) and edge
  animation flags.

Modules:

- `Text` (`text.dfy`): the JavaScript string operations the parser
  relies on. These are `trim`, `split`, `startsWith`, `toLowerCase` and
  `replace(/\s+/g, '-')`, over Unicode characters with ASCII case mapping.
- `Lookup` (`lookup.dfy`): `Array.prototype.find` as `FirstIndex` and
  `Array.prototype.filter` as `Filter`.
- `Diagram` (`diagram.dfy`):
  - the node and edge types and `generateId`;
  - the parser's insertion-ordered `Map` as a sequence of nodes with
    distinct ids, where `Put` is `Map.prototype.set`.
- `Transitions` (`transitions.dfy`): the pattern
  `/^(.+?)\s*-->\s*(.+?)$/`, with the regular-expression engine's order of
  trying splits written out.
- `Parser` (`parser.dfy`):
  - the function `StateDiagram` specifies the result;
  - the method `ParseStateDiagram` follows the source's loops step by step
    and is proved to return `StateDiagram(code)`.

  Its helper methods match parts of the source:
  - `ScanLines` is the line loop, with its `continue`s and its
    `hasStartNode`/`hasEndNode` flags;
  - `AddMissingEnds` is the post-pass;
  - `CascadeLayout` and `CascadeMiddle` are the layout pass.
- `ParserProperties` (`parser_properties.dfy`): what the parser
  guarantees, as lemmas about `StateDiagram`.
- `Store` (`store.dfy`):
  - the value `Simulation` and the functions `Reset`, `Next`, `Previous`
    and `Stop` specify the commands;
  - the class `StateMachineStore` holds the store's fields and performs
    each command in place. Each method is proved to leave
    `State() == Spec(old(State()))`.
  - The queries are functions of the class that read its fields.
- `StoreProperties` (`store_properties.dfy`):
  - what each command does, branch by branch;
  - the single-active-node invariant over any sequence of commands;
  - how the queries relate to the commands.
- `Editor` (`editor.dfy`): `generateDiagram`, which is the parser composed
  with `setDiagram` and `resetSimulation`, and what holds for the
  simulation it installs.

The code behaves as follows where one might expect otherwise; the model follows the code:

- `resetSimulation` leaves the edges' `animated` flags as they are.
- `previousState` works while the simulation is stopped. Only the
  Previous button is disabled while stopped, and that lives in the UI.
- Input such as `Start --> B` yields an untyped node with id `start`, so
  the node `nextState` starts from need not be of type `input`.
- `generateId("StateOne")` is `stateone`: case changes add no hyphen.
- `previousState` does not retrace the walk. It goes back along the
  current node's first incoming edge in stored order, which need not be
  the edge the walk arrived by. So the new current node may never have
  been visited, and "back" does not undo "forward"
  (`StoreProperties.PreviousLeavesWalk`). For this reason the invariant
  the store keeps says only that there is a current node exactly when
  some node has been visited, not that the current node is among them.

## Model

| member | source | states |
|---|---|---|
| Text.Trim | src/lib/parseStateDiagram.ts:74 | The result is empty exactly when the input is all whitespace. Otherwise it starts and ends with a non-whitespace character. |
| Text.TrimInfix | src/lib/parseStateDiagram.ts:65 | `trim` removes whitespace only, and only at the two ends: its result is an infix of the input with whitespace on both sides. |
| Text.TrimIdempotent | src/lib/parseStateDiagram.ts:74 | Trimming twice is the same as trimming once. |
| Text.ToLower | src/lib/parseStateDiagram.ts:44 | The result has the same length and no ASCII capitals. Each character is that input character lower-cased. Whitespace stays at the same positions. |
| Text.ToLowerIdempotent | src/lib/parseStateDiagram.ts:44 | Lower-casing twice is the same as lower-casing once. |
| Text.CollapseWhitespace | src/lib/parseStateDiagram.ts:44 | `replace(/\s+/g, '-')` leaves no whitespace and never lengthens the string. It is empty exactly when the input is. |
| Text.CollapseNoWhitespace | src/lib/parseStateDiagram.ts:44 | A string without whitespace is left unchanged. |
| Text.CollapseIdempotent | src/lib/parseStateDiagram.ts:44 | Replacing twice is the same as replacing once. |
| Text.CollapseRun | src/lib/parseStateDiagram.ts:44 | A whitespace run of any length between two non-space parts becomes exactly one `-`, and the parts are replaced independently. |
| Text.StartsWith | src/lib/parseStateDiagram.ts:85 | `startsWith` holds exactly when the string is the prefix followed by the rest of the string. |
| Text.Split | src/lib/parseStateDiagram.ts:70 | `split('\n')` gives at least one piece. No piece holds a newline, and joining the pieces with newlines gives back the input. |
| Text.SplitJoin | src/lib/parseStateDiagram.ts:70 | Splitting undoes joining pieces that hold no separator. |
| Text.SplitOfWhitespace | src/lib/parseStateDiagram.ts:65-73 | Every line of whitespace-only input is whitespace-only. |
| Lookup.FirstIndex | src/stores/stateMachineStore.ts:65 | `find` gives the first index whose element satisfies the predicate. It gives none exactly when no element does. |
| Lookup.Filter | src/stores/stateMachineStore.ts:84 | `filter` keeps exactly the satisfying elements. It is empty exactly when `find` finds nothing, and its head is the element `find` finds. |
| Diagram.GenerateId | src/lib/parseStateDiagram.ts:37-45 | `[*]` gives `start`. Any other label gives an id with no whitespace and no capitals, which is empty exactly when the label is. |
| Diagram.GenerateIdRun | src/lib/parseStateDiagram.ts:44 | The id of `a + w + b`, where `w` is a whitespace run, is the id of `a`, then `-`, then the id of `b`. |
| Diagram.ToLowerConcat | src/lib/parseStateDiagram.ts:44 | Lower-casing distributes over concatenation. |
| Diagram.SourceId | src/lib/parseStateDiagram.ts:95 | `[*]` as a source gives `start`; any other label gives its `generateId`. |
| Diagram.TargetId | src/lib/parseStateDiagram.ts:96 | `[*]` as a target gives `end`; any other label gives its `generateId`. |
| Diagram.EdgeId | src/lib/parseStateDiagram.ts:142-182 | The id `e-<source>-<target>`: `e-`, the source, `-`, the target, so with the source's length known the id gives back both ids. |
| Diagram.MakeEdge | src/lib/parseStateDiagram.ts:141-145 | A parsed edge runs from the given source to the given target and has no `animated` flag. |
| Diagram.IndexOfId | src/lib/parseStateDiagram.ts:99 | `Map.has`/`get`: the first position holding the id. There is none exactly when the id is absent. |
| Diagram.Put | src/lib/parseStateDiagram.ts:58 | `Map.set` keeps ids distinct and makes the key present. A present key keeps its place and takes the new value, everything else unchanged. A new key is appended. |
| Transitions.MatchTarget | src/lib/parseStateDiagram.ts:90 | `\s*(.+?)$` captures a non-empty suffix free of line terminators, preceded only by whitespace. |
| Transitions.MatchAt | src/lib/parseStateDiagram.ts:90 | When the source group is `t[..i]`, a match captures exactly that source. |
| Transitions.MatchFrom | src/lib/parseStateDiagram.ts:90 | The lazy source group tried with `i`, `i + 1`, ... characters: a match splits the line as the pattern does, with a source of at least `i` characters. |
| Transitions.MatchTransition | src/lib/parseStateDiagram.ts:90 | A match splits the line into a non-empty source, optional whitespace, `-->`, optional whitespace and a non-empty target. |
| Transitions.MatchComplete | src/lib/parseStateDiagram.ts:90 | Every line of that shape matches. The match takes the shortest source, and for it the shortest target. |
| Parser.LineTransition | src/lib/parseStateDiagram.ts:85-92 | Comment and blank lines hold no transition. Any transition found splits the trimmed line as the pattern does. |
| Parser.LineMatches | src/lib/parseStateDiagram.ts:77-92 | A line read after the header contributes at most one transition, and a repeated header contributes none. |
| Parser.ScanStep | src/lib/parseStateDiagram.ts:74-92 | One pass of the line loop. `validDiagram` becomes set exactly at a header line and then stays set. Before it is set, nothing is collected. A line adds at most one transition at the end and never removes one. |
| Parser.Scan | src/lib/parseStateDiagram.ts:73-93 | The line loop over all lines, in order. Without `validDiagram` set, no transition is collected. |
| Parser.TransitionsOf | src/lib/parseStateDiagram.ts:65-93 | The transitions `parseStateDiagram` collects. Whitespace-only input yields none, because of the early return. |
| Parser.AddSource | src/lib/parseStateDiagram.ts:99-117 | Adding a source node keeps ids distinct, makes the source id present and adds at most one node. |
| Parser.AddTarget | src/lib/parseStateDiagram.ts:120-138 | Adding a target node keeps ids distinct, makes the target id present and adds at most one node. |
| Parser.BuildNodes | src/lib/parseStateDiagram.ts:58-138 | The node map built by the loop has distinct ids and at most two nodes per transition. |
| Parser.RawEdges | src/lib/parseStateDiagram.ts:141-145 | The loop produces one edge per transition, in order. |
| Parser.SynthesizeStart | src/lib/parseStateDiagram.ts:151-168 | When no `[*]` start node was read and the first edge's source is not `start`, the edge from `start` to that source is put first and an `input` node `start` is in the map. Otherwise nothing changes. Ids stay distinct and at most one node is added. |
| Parser.SynthesizeEnd | src/lib/parseStateDiagram.ts:170-187 | When no `[*]` end node was read and the last edge's target is not `end`, the edge from that target to `end` is put last and an `output` node `end` is in the map. Otherwise nothing changes. Ids stay distinct and at most one node is added. |
| Parser.Synthesize | src/lib/parseStateDiagram.ts:150-188 | The whole post-pass keeps ids distinct. It adds at most two nodes and at most two edges, and removes no edge. |
| Parser.Layout | src/lib/parseStateDiagram.ts:190-216 | Only positions change, and every y is 50. `start` is at x = 50. The k-th middle node is at 250 + 200·k in map order. `end` is at 250 + 200·(number of middle nodes). |
| Parser.PutKind | src/lib/parseStateDiagram.ts:101-122 | Setting a node changes whether an id is present with a given type only at that node's own id. |
| Parser.AddSourceNode | src/lib/parseStateDiagram.ts:99-117 | The source step computes `AddSource`. Its `hasStartNode`/`hasEndNode` flags say whether `start` of type `input` and `end` of type `output` are in the map. |
| Parser.AddTargetNode | src/lib/parseStateDiagram.ts:120-138 | The target step computes `AddTarget`, and its flags say the same. |
| Parser.ScanPrefix | src/lib/parseStateDiagram.ts:73-147 | One more line of the loop is one more `ScanStep`. |
| Parser.BuildPrefix | src/lib/parseStateDiagram.ts:99-145 | One more transition is one more source step, one more target step and one more edge. |
| Parser.ScanLines | src/lib/parseStateDiagram.ts:61-147 | The line loop leaves the node map and the edges of `Scan(lines)`. It also leaves flags that say whether `start` and `end` of the right types are in the map. |
| Parser.AddMissingEnds | src/lib/parseStateDiagram.ts:150-188 | The imperative post-pass computes `Synthesize`. |
| Parser.ParseStateDiagram | src/lib/parseStateDiagram.ts:50-222 | The imperative parser returns exactly `StateDiagram(code)`. |
| Parser.LayoutFirst | src/lib/parseStateDiagram.ts:196-200 | Before the cascade, only `start` is placed. |
| Parser.LayoutNext | src/lib/parseStateDiagram.ts:206-209 | Each cascade step places one more middle node. |
| Parser.LayoutLast | src/lib/parseStateDiagram.ts:212-216 | Placing `end` after the cascade completes the layout. |
| Parser.CascadeMiddle | src/lib/parseStateDiagram.ts:203-209 | The forward loop over the middle nodes places each of them and leaves `x` at 50 + 200·(number of middle nodes). |
| Parser.CascadeLayout | src/lib/parseStateDiagram.ts:190-216 | The imperative layout pass computes `Layout`. |
| ParserProperties.ScanWithoutHeader | src/lib/parseStateDiagram.ts:77-82 | Without a header line, the loop never becomes valid and collects nothing. |
| ParserProperties.EmptyDiagram | src/lib/parseStateDiagram.ts:150-219 | No transitions means no nodes and no edges. |
| ParserProperties.BlankInputIsEmpty | src/lib/parseStateDiagram.ts:65-67 | Whitespace-only input gives zero nodes and zero edges. |
| ParserProperties.NoHeaderIsEmpty | src/lib/parseStateDiagram.ts:77-82 | Input with no line that trims to `stateDiagram-v2` gives zero nodes and zero edges. |
| ParserProperties.MatchesAppend | src/lib/parseStateDiagram.ts:73 | The transitions of concatenated lines are the concatenated transitions. |
| ParserProperties.ScanStepMatches | src/lib/parseStateDiagram.ts:77-92 | A loop step becomes valid exactly at a header. Once valid, it appends the line's contribution. |
| ParserProperties.StepAfterHeader | src/lib/parseStateDiagram.ts:82-146 | After the header, each further line appends its contribution. |
| ParserProperties.StepBeforeHeader | src/lib/parseStateDiagram.ts:77-82 | Before the header, a line either is the header or changes nothing. |
| ParserProperties.TransitionsFollowHeader | src/lib/parseStateDiagram.ts:73-147 | After the first header the loop is valid. Its transitions are those of the later lines, in order. |
| ParserProperties.TransitionsOfLines | src/lib/parseStateDiagram.ts:65-147 | The input's transitions are those of the lines after the first header line, in order. |
| ParserProperties.IgnoredLine | src/lib/parseStateDiagram.ts:77-91 | Deleting a header, comment, blank or non-matching line changes no transition. |
| ParserProperties.AddKeepsPrefix | src/lib/parseStateDiagram.ts:99-138 | Adding nodes only appends, so every earlier node keeps its label, type and status. |
| ParserProperties.ReusedId | src/lib/parseStateDiagram.ts:99-120 | A source or target whose id is already in the map creates no node and changes nothing. |
| ParserProperties.BuildNodesGrows | src/lib/parseStateDiagram.ts:99-138 | Later lines never change or remove the nodes of earlier lines. |
| ParserProperties.PostPassOverwritesStart | src/lib/parseStateDiagram.ts:151-160 | The post-pass replaces an existing untyped `start` node, in place, with the `input` node. |
| ParserProperties.PostPassOverwritesEnd | src/lib/parseStateDiagram.ts:170-179 | The post-pass replaces an existing untyped `end` node, in place, with the `output` node. |
| ParserProperties.PutKeepsId | src/lib/parseStateDiagram.ts:154-173 | `Map.set` keeps every id already present. |
| ParserProperties.AddKeepsEndpoints | src/lib/parseStateDiagram.ts:99-145 | After each transition, every edge's endpoints are ids in the map. |
| ParserProperties.BuildNodesEndpoints | src/lib/parseStateDiagram.ts:73-147 | After the loop, every edge's endpoints are ids in the map. |
| ParserProperties.PutKeepsEndpoints | src/lib/parseStateDiagram.ts:154-173 | Setting a node keeps every edge's endpoints present. |
| ParserProperties.SynthesizeStartEndpoints | src/lib/parseStateDiagram.ts:151-168 | The start half keeps every edge's endpoints present, including those of its own edge. |
| ParserProperties.SynthesizeEndEndpoints | src/lib/parseStateDiagram.ts:170-187 | The end half keeps every edge's endpoints present, including those of its own edge. |
| ParserProperties.SynthesizeKeepsEndpoints | src/lib/parseStateDiagram.ts:150-188 | The whole post-pass keeps every edge's endpoints present. |
| ParserProperties.LayoutKeepsNodes | src/lib/parseStateDiagram.ts:190-219 | The layout keeps each node's id, type, label and status, which ids are present, and their distinctness. |
| ParserProperties.LayoutKeepsEndpoints | src/lib/parseStateDiagram.ts:190-219 | The layout keeps every edge's endpoints present. |
| ParserProperties.UnplacedIsResult | src/lib/parseStateDiagram.ts:150-219 | The result is the post-pass's graph with its nodes laid out. |
| ParserProperties.UnplacedEndpoints | src/lib/parseStateDiagram.ts:58-188 | Before the layout, every edge's endpoints are nodes. |
| ParserProperties.NodeIdsUnique | src/lib/parseStateDiagram.ts:58-219 | Output node ids are pairwise distinct. |
| ParserProperties.EdgeEndpointsExist | src/lib/parseStateDiagram.ts:99-219 | Every output edge's `source` and `target` is the id of an output node. |
| ParserProperties.StartEdges | src/lib/parseStateDiagram.ts:151-167 | The edge the post-pass puts first exists exactly when no `[*]` start node was read and the first edge's source is not `start`. It runs from `start` to that source. |
| ParserProperties.EndEdges | src/lib/parseStateDiagram.ts:170-186 | The edge the post-pass puts last exists exactly when no `[*]` end node was read and the last edge's target is not `end`. It runs from that target to `end`. |
| ParserProperties.SynthesizeBrackets | src/lib/parseStateDiagram.ts:150-188 | Without edges the post-pass changes nothing. With edges, the result's edges are `StartEdges`, then the given edges, then `EndEdges`. When the `start` edge is added, an `input` node `start` is present; when the `end` edge is added, an `output` node `end` is present. |
| ParserProperties.SynthesizeFirstEdge | src/lib/parseStateDiagram.ts:150-168 | After the post-pass there is an `input` node `start`, or the first edge leaves `start`. |
| ParserProperties.LayoutKeepsKind | src/lib/parseStateDiagram.ts:190-216 | The layout keeps which ids have which type. |
| ParserProperties.EdgesFollowTransitions | src/lib/parseStateDiagram.ts:90-188 | Without matched transitions there are no edges. Otherwise the output edges are one edge per matched transition, in line order and duplicates included. They are preceded by the `start` edge exactly when the loop read no `[*]` start node and the first edge does not leave `start`. They are followed by the `end` edge exactly when the loop read no `[*]` end node and the last edge does not enter `end`. Each added edge comes with its typed node in the output. |
| ParserProperties.FirstEdgeFromStart | src/lib/parseStateDiagram.ts:150-168 | When a transition matched, the output has an `input` node `start`, or its first edge leaves a `start` node read from a label. |
| Parser.StateDiagram | src/lib/parseStateDiagram.ts:50-222 | The result of `parseStateDiagram`: at least one edge per matched transition and at most two more, and at most two nodes per transition plus two. |
| ParserProperties.SynthesizeParsedEdges | src/lib/parseStateDiagram.ts:162-185 | Synthesized edges are named `e-<source>-<target>`, like the rest. |
| ParserProperties.EdgeIdsFormat | src/lib/parseStateDiagram.ts:141-185 | Every output edge has the id `e-<sourceId>-<targetId>` and no `animated` flag. |
| ParserProperties.SynthesizeHasEnds | src/lib/parseStateDiagram.ts:150-188 | After the post-pass on a non-empty edge list, `start` and `end` are both present. |
| ParserProperties.StartAndEndPresent | src/lib/parseStateDiagram.ts:150-219 | There are nodes exactly when there are edges, and exactly when a transition matched. A non-empty result contains `start` and `end`. |
| ParserProperties.PutWellTyped | src/lib/parseStateDiagram.ts:102-136 | Setting a well-formed node keeps every node well-formed: pending, and either untyped with its label's id, or `start`/`input`/`Start` or `end`/`output`/`End`. |
| ParserProperties.AddWellTyped | src/lib/parseStateDiagram.ts:99-138 | Each transition's nodes are well-formed. |
| ParserProperties.BuildNodesWellTyped | src/lib/parseStateDiagram.ts:73-147 | Every node made by the loop is well-formed. |
| ParserProperties.SynthesizeWellTyped | src/lib/parseStateDiagram.ts:150-188 | The post-pass adds only well-formed nodes. |
| ParserProperties.NodesWellTyped | src/lib/parseStateDiagram.ts:100-178 | Every output node is `pending`. An untyped node's id is its label's id. A typed node is `start` (type `input`, label `Start`) or `end` (type `output`, label `End`). |
| ParserProperties.MiddleCountGrows | src/lib/parseStateDiagram.ts:206-209 | The count of middle nodes grows along the map, by one past each middle node. |
| ParserProperties.MiddleCountSettles | src/lib/parseStateDiagram.ts:206-209 | Past the last middle node, the count stays the same. |
| ParserProperties.LayoutOrder | src/lib/parseStateDiagram.ts:190-216 | Middle nodes are at least 200 apart, in map order. `start` is left of every other node. `end` is right of every other node, and exactly 200 right of the last middle node. |
| Store.Outgoing | src/stores/stateMachineStore.ts:84 | The outgoing edges are exactly the edges from the node, and the first of them is the first such edge in stored order. |
| Store.Incoming | src/stores/stateMachineStore.ts:133 | The incoming edges are exactly the edges into the node, and the first of them is the first such edge in stored order. |
| Store.AllPending | src/stores/stateMachineStore.ts:51-54 | Changes statuses only. |
| Store.Started | src/stores/stateMachineStore.ts:69-72 | Changes statuses only. |
| Store.Advanced | src/stores/stateMachineStore.ts:96-104 | Changes statuses only. |
| Store.Retreated | src/stores/stateMachineStore.ts:145-153 | Changes statuses only. |
| Store.Errored | src/stores/stateMachineStore.ts:178-183 | Changes statuses only. |
| Store.Animated | src/stores/stateMachineStore.ts:107-161 | Changes `animated` flags only. |
| Store.Installed | src/stores/stateMachineStore.ts:32-40 | The state `setDiagram` leaves: exactly the given nodes and edges, no current node, no visited node and not stopped. |
| Store.Reset | src/stores/stateMachineStore.ts:46-56 | `resetSimulation` makes every node `pending`, leaves no current node, no visited node and not stopped. It changes nothing else, edges included. |
| Store.Next | src/stores/stateMachineStore.ts:58-121 | `nextState` changes only statuses, animation flags, the current node and the visited set. It keeps `stopped`, and does nothing when stopped. |
| Store.Previous | src/stores/stateMachineStore.ts:123-170 | `previousState` changes only statuses and animation flags, besides the cursor fields. |
| Store.Stop | src/stores/stateMachineStore.ts:172-190 | `stopSimulation` changes only statuses and `stopped`. |
| Store.StateMachineStore.constructor | src/stores/stateMachineStore.ts:24-30 | The store starts empty: no nodes, no edges, no current node, nothing visited, not stopped, no code. |
| Store.StateMachineStore.SetDiagram | src/stores/stateMachineStore.ts:32-40 | Installs exactly the given nodes and edges, with no current node, nothing visited and not stopped. The code is left alone. |
| Store.StateMachineStore.SetDiagramCode | src/stores/stateMachineStore.ts:42-44 | Replaces the code and nothing else. |
| Store.StateMachineStore.ResetSimulation | src/stores/stateMachineStore.ts:46-56 | The fields become `Reset` of what they were. |
| Store.StateMachineStore.NextState | src/stores/stateMachineStore.ts:58-121 | The fields become `Next` of what they were. |
| Store.StateMachineStore.PreviousState | src/stores/stateMachineStore.ts:123-170 | The fields become `Previous` of what they were. |
| Store.StateMachineStore.StepBack | src/stores/stateMachineStore.ts:141-169 | The backward update: old current node `pending`, predecessor `active`, only the predecessor-to-current edges animated; the predecessor becomes current, and the old current node leaves the visited set. |
| Store.StateMachineStore.StopSimulation | src/stores/stateMachineStore.ts:172-190 | The fields become `Stop` of what they were. |
| Store.StateMachineStore.GetNodeStatus | src/stores/stateMachineStore.ts:192-196 | Gives the status of the first node with the id, or `pending` when there is none. |
| Store.StateMachineStore.GetNodeById | src/stores/stateMachineStore.ts:198-201 | Gives the first node with the id, or nothing exactly when no node has it. |
| Store.StateMachineStore.CanGoForward | src/stores/stateMachineStore.ts:203-222 | False when stopped. With no current node, true exactly when there are nodes. Otherwise true exactly when the current node is not `end` or of type `output` and has an outgoing edge. |
| Store.StateMachineStore.CanGoBackward | src/stores/stateMachineStore.ts:224-227 | True exactly when there is a non-empty current id and more than one visited node. |
| StoreProperties.InstalledConsistent | src/stores/stateMachineStore.ts:32-40 | Installing nodes none of which is `active` gives a consistent state: every `active` node is current, and there is a current node exactly when something has been visited. |
| StoreProperties.ResetConsistent | src/stores/stateMachineStore.ts:46-56 | `resetSimulation` always leaves a consistent state. |
| StoreProperties.NextConsistent | src/stores/stateMachineStore.ts:68-104 | `nextState` keeps the state consistent. |
| StoreProperties.PreviousConsistent | src/stores/stateMachineStore.ts:126-153 | `previousState` keeps the state consistent. |
| StoreProperties.StopConsistent | src/stores/stateMachineStore.ts:178-183 | `stopSimulation` keeps the state consistent. |
| StoreProperties.StatusOnlyKeepsIds | src/stores/stateMachineStore.ts:51-183 | Status rewrites keep every node's id, so they keep ids distinct. |
| StoreProperties.StatusOnlyTransitive | src/stores/stateMachineStore.ts:51-104 | Two status-only rewrites in a row are one. |
| StoreProperties.AtMostOneActive | src/stores/stateMachineStore.ts:68-183 | With distinct ids, a consistent state has at most one `active` node. |
| StoreProperties.ApplyKeeps | src/stores/stateMachineStore.ts:46-190 | Each command keeps the state consistent and changes statuses only. |
| StoreProperties.RunKeeps | src/stores/stateMachineStore.ts:46-190 | Any sequence of commands keeps the state consistent and changes statuses only. |
| StoreProperties.SingleActiveNode | src/stores/stateMachineStore.ts:32-183 | Start from `setDiagram` with distinct ids and no `active` node. After any sequence of commands at most one node is `active`, and an `active` node is the current node. |
| StoreProperties.NextFromNoCurrent | src/stores/stateMachineStore.ts:64-81 | With no current node, `nextState` makes the first `start`-or-`input` node `active` and every other node `pending`. That node becomes current and the only visited node, and the edges stay as they were. |
| StoreProperties.NextIdleWithoutStart | src/stores/stateMachineStore.ts:61-66 | `nextState` does nothing when stopped, or when there is no current node and no start candidate. |
| StoreProperties.FirstOutgoingIs | src/stores/stateMachineStore.ts:84-87 | The first outgoing edge is the first edge in stored order whose source is the node. |
| StoreProperties.FirstIncomingIs | src/stores/stateMachineStore.ts:133-136 | The first incoming edge is the first edge in stored order whose target is the node. |
| StoreProperties.NextAlongFirstEdge | src/stores/stateMachineStore.ts:84-120 | With a current node, `nextState` follows the first outgoing edge. The node becomes `done` and the target `active`; other nodes are unchanged. An edge is animated exactly when it runs from the node to the target. The target joins the visited set and becomes current. |
| StoreProperties.NextIdleAtDeadEnd | src/stores/stateMachineStore.ts:84-89 | With no outgoing edge, or a target that is no node, `nextState` does nothing. |
| StoreProperties.CycleKeepsVisited | src/stores/stateMachineStore.ts:93-94 | Moving to an already visited node does not grow the visited set. |
| StoreProperties.PreviousAtStartResets | src/stores/stateMachineStore.ts:126-130 | With no current node, or at most one visited node, `previousState` is `resetSimulation`, whether stopped or not. |
| StoreProperties.PreviousAlongFirstEdge | src/stores/stateMachineStore.ts:133-169 | Otherwise `previousState` follows the first incoming edge back to its source. The current node becomes `pending` and the source `active`, and only source-to-current edges are animated. The current node leaves the visited set and the source becomes current. `stopped` is neither consulted nor changed. |
| StoreProperties.PreviousIdleAtSource | src/stores/stateMachineStore.ts:133-138 | With no incoming edge, or a source that is no node, `previousState` does nothing. |
| StoreProperties.PreviousLeavesWalk | src/stores/stateMachineStore.ts:123-170 | On nodes `start`, `b`, `c` with edges `c -> b` and `start -> b`: next, next, previous makes `c` current, though it was never visited, and leaves only `start` visited, so going back is then disabled. |
| StoreProperties.StopMarksCurrent | src/stores/stateMachineStore.ts:177-189 | With a current node, `stopSimulation` marks exactly that node's id `error` and stops. |
| StoreProperties.StopIdleWithoutCurrent | src/stores/stateMachineStore.ts:175 | Without a current node, `stopSimulation` does nothing. |
| StoreProperties.BackwardDisabledResets | src/stores/stateMachineStore.ts:224-227 | When `canGoBackward` is false, `previousState` resets. |
| StoreProperties.ForwardEnabledMoves | src/stores/stateMachineStore.ts:203-222 | Suppose `canGoForward` holds at a current node and every edge ends at a node. Then `nextState` moves along the first outgoing edge. |
| StoreProperties.ForwardEnabledStarts | src/stores/stateMachineStore.ts:203-211 | When `canGoForward` holds with no current node and some node is a start candidate, `nextState` picks a current node. |
| Editor.GenerateDiagram | src/components/Editor.tsx:14-30 | Parses the stored code. With no nodes, it reports the error and leaves the simulation alone. Otherwise it installs the diagram and resets. |
| Editor.Install | src/components/Editor.tsx:24-25 | `setDiagram` followed by `resetSimulation` leaves the reset installed state, and the code unchanged. |
| Editor.Generated | src/components/Editor.tsx:24-25 | The installed simulation has the parsed edges and the parsed nodes, all `pending`. |
| Editor.FirstStepOf | src/stores/stateMachineStore.ts:64-81 | From a reset graph of well-formed nodes that contains `start`, the first step makes `start` current and its only visited node. |
| Editor.FirstStepAtStart | src/components/Editor.tsx:16-25 | For code with a transition, the first step after `generateDiagram` makes `start` current and the only visited node. |
| Editor.GeneratedSingleActive | src/components/Editor.tsx:24-25 | For any code and any commands after `generateDiagram`, at most one node is `active`, and it is the current node. |

## Left out

- React components, the ReactFlow canvas, edge styling, and
  theme tables are presentation, not logic: everything under
  `components/`, `app/_layout.tsx`, `constants/theme.ts`,
  `hooks/useTheme.ts`, `FlowControls.tsx`, `FlowCanvas.tsx`,
  `StateNode.tsx` and `App.tsx`. The Previous button's "disabled while
  stopped" rule is part of that UI.
- zustand's `create`/`set`/`get` and its subscriptions are replaced by an
  explicit class. Each command's `set` becomes an in-place update of that
  class's fields.
- Text.ToLower: only ASCII letters are mapped; full Unicode case mapping
  (for example of accented capitals) is not modelled.
- Whitespace is the fixed set that JavaScript's `trim` and `\s` use.
  Strings are sequences of Unicode scalar values rather than UTF-16 code
  units, so lone surrogates are not modelled.
- Transitions.MatchTransition models only this one pattern; no general
  regular-expression engine is modelled.
- `skipCount` (src/lib/parseStateDiagram.ts:193,199) is written but never
  read, so it has no counterpart.
- The layout changes node objects in place through the array that
  `filter` returns, which shares elements with the map. The model updates
  values at map positions instead. The positions are the same, but object
  identity and aliasing are not modelled.
- Editor.GenerateDiagram: the `try`/`catch` around the parser and
  `console.error` are left out. The parser never throws on a string, and
  the error text is returned instead of being kept in component state.
