/**
 * `parseStateDiagram`: multi-line text to a node/edge graph. The function
 * `StateDiagram` specifies the result; the method `ParseStateDiagram` is the
 * source's imperative algorithm, proved to compute it.
 */
module Parser {
  import opened Wrappers
  import opened Text
  import opened Diagram
  import opened Transitions

  /** The declaration line that opens a diagram. */
  const Header: string := "stateDiagram-v2"
  const CommentMarker: string := "//"
  /** The layout's first coordinate on both axes, and its horizontal step. */
  const Origin: int := 50
  const Step: int := 200

  predicate IsHeader(line: string) {
    Trim(line) == Header
  }

  /**
   * What a trimmed line read after the header holds: comments and blank
   * lines hold no transition, any other line holds one if it matches.
   */
  function LineTransition(trimmed: string): (r: Option<Transition>)
    ensures (StartsWith(trimmed, CommentMarker) || trimmed == "") ==> r == None
    ensures r.Some? ==> Splits(trimmed, r.value.source, r.value.target)
  {
    if StartsWith(trimmed, CommentMarker) || trimmed == "" then None
    else MatchTransition(trimmed)
  }

  /** The parser's loop state: `validDiagram`, and the transitions matched so far. */
  datatype ScanState = ScanState(valid: bool, transitions: seq<Transition>)

  /** One iteration of the line loop, on the transitions it yields. */
  function ScanStep(st: ScanState, line: string): (r: ScanState)
    ensures r.valid <==> st.valid || IsHeader(line)
    ensures !st.valid ==> r.transitions == st.transitions
    ensures st.transitions <= r.transitions && |r.transitions| <= |st.transitions| + 1
  {
    var trimmedLine := Trim(line);
    if trimmedLine == Header then st.(valid := true)
    else if !st.valid then st
    else
      match LineTransition(trimmedLine)
      case None => st
      case Some(tr) => st.(transitions := st.transitions + [tr])
  }

  /** The line loop over `lines`, in order. */
  function Scan(lines: seq<string>): (r: ScanState)
    ensures !r.valid ==> r.transitions == []
    decreases |lines|
  {
    if lines == [] then ScanState(false, [])
    else ScanStep(Scan(lines[..|lines| - 1]), lines[|lines| - 1])
  }

  /** The transitions a line read after the header contributes: none for a repeated header. */
  function LineMatches(line: string): (r: seq<Transition>)
    ensures |r| <= 1
    ensures IsHeader(line) ==> r == []
  {
    if IsHeader(line) then []
    else match LineTransition(Trim(line))
      case None => []
      case Some(tr) => [tr]
  }

  /** The transitions of lines read once the header has been seen, in order. */
  function Matches(lines: seq<string>): seq<Transition>
    decreases |lines|
  {
    if lines == [] then [] else LineMatches(lines[0]) + Matches(lines[1..])
  }

  /** The transitions of the whole input: none for blank input, else those of the line loop. */
  function TransitionsOf(code: string): (r: seq<Transition>)
    ensures r != [] ==> Trim(code) != ""
  {
    if Trim(code) == "" then [] else Scan(Split(code, '\n')).transitions
  }

  /** Adding the source node of a transition unless its id is in the map already. */
  function AddSource(m: seq<DiagramNode>, tr: Transition): (r: seq<DiagramNode>)
    requires UniqueIds(m)
    ensures UniqueIds(r) && HasId(r, SourceId(tr.source))
    ensures |m| <= |r| <= |m| + 1
  {
    var id := SourceId(tr.source);
    if HasId(m, id) then m
    else if tr.source == Star then Put(m, StartNode())
    else Put(m, PlainNode(id, tr.source))
  }

  /** Adding the target node of a transition unless its id is in the map already. */
  function AddTarget(m: seq<DiagramNode>, tr: Transition): (r: seq<DiagramNode>)
    requires UniqueIds(m)
    ensures UniqueIds(r) && HasId(r, TargetId(tr.target))
    ensures |m| <= |r| <= |m| + 1
  {
    var id := TargetId(tr.target);
    if HasId(m, id) then m
    else if tr.target == Star then Put(m, EndNode())
    else Put(m, PlainNode(id, tr.target))
  }

  /** The node map after the line loop has handled `trs`, in insertion order. */
  function BuildNodes(trs: seq<Transition>): (m: seq<DiagramNode>)
    ensures UniqueIds(m) && |m| <= 2 * |trs|
    decreases |trs|
  {
    if trs == [] then []
    else
      var last := trs[|trs| - 1];
      AddTarget(AddSource(BuildNodes(trs[..|trs| - 1]), last), last)
  }

  /** The edge the line loop pushes for a transition. */
  function TransitionEdge(tr: Transition): DiagramEdge {
    MakeEdge(SourceId(tr.source), TargetId(tr.target))
  }

  /** One edge per transition, in order. */
  function RawEdges(trs: seq<Transition>): (es: seq<DiagramEdge>)
    ensures |es| == |trs|
    ensures forall k :: 0 <= k < |trs| ==> es[k] == TransitionEdge(trs[k])
  {
    seq(|trs|, k requires 0 <= k < |trs| => TransitionEdge(trs[k]))
  }

  /** The node `id` is in the map with type `kind`. */
  predicate HasKind(m: seq<DiagramNode>, id: string, kind: string) {
    exists k :: 0 <= k < |m| && m[k].id == id && m[k].kind == Some(kind)
  }

  /**
   * The first half of the post-pass: without a `[*]` start node, a `start`
   * node is set and an edge from it to the first edge's source is put
   * first, unless that source is `start` already.
   */
  function SynthesizeStart(m: seq<DiagramNode>, es: seq<DiagramEdge>, hasStart: bool): (d: ParsedDiagram)
    requires UniqueIds(m) && es != []
    ensures UniqueIds(d.nodes) && d.edges != [] && |m| <= |d.nodes| <= |m| + 1
    ensures !hasStart && es[0].source != StartId ==>
      d.edges == [MakeEdge(StartId, es[0].source)] + es && HasKind(d.nodes, StartId, InputKind)
    ensures hasStart || es[0].source == StartId ==> d == ParsedDiagram(m, es)
  {
    var firstNode := es[0].source;
    if !hasStart && firstNode != StartId
    then
      PutKind(m, StartNode(), StartId, InputKind);
      ParsedDiagram(Put(m, StartNode()), [MakeEdge(StartId, firstNode)] + es)
    else ParsedDiagram(m, es)
  }

  /** The second half: symmetrically for `end` after the last edge's target. */
  function SynthesizeEnd(s: ParsedDiagram, hasEnd: bool): (d: ParsedDiagram)
    requires UniqueIds(s.nodes) && s.edges != []
    ensures UniqueIds(d.nodes) && |s.nodes| <= |d.nodes| <= |s.nodes| + 1
    ensures !hasEnd && s.edges[|s.edges| - 1].target != EndId ==>
      d.edges == s.edges + [MakeEdge(s.edges[|s.edges| - 1].target, EndId)] && HasKind(d.nodes, EndId, OutputKind)
    ensures hasEnd || s.edges[|s.edges| - 1].target == EndId ==> d == s
  {
    var lastNode := s.edges[|s.edges| - 1].target;
    if !hasEnd && lastNode != EndId
    then
      PutKind(s.nodes, EndNode(), EndId, OutputKind);
      ParsedDiagram(Put(s.nodes, EndNode()), s.edges + [MakeEdge(lastNode, EndId)])
    else s
  }

  /** The post-pass, which applies only when there is at least one edge. */
  function Synthesize(m: seq<DiagramNode>, es: seq<DiagramEdge>, hasStart: bool, hasEnd: bool): (d: ParsedDiagram)
    requires UniqueIds(m)
    ensures UniqueIds(d.nodes) && |d.nodes| <= |m| + 2
    ensures |es| <= |d.edges| <= |es| + 2
  {
    if es == [] then ParsedDiagram(m, es)
    else SynthesizeEnd(SynthesizeStart(m, es, hasStart), hasEnd)
  }

  /** Nodes other than `start` and `end`, which the cascade places one step apart. */
  predicate IsMiddle(n: DiagramNode) {
    n.id != StartId && n.id != EndId
  }

  /** The number of middle nodes in `m`. */
  function MiddleCount(m: seq<DiagramNode>): (c: nat)
    ensures c <= |m|
    decreases |m|
  {
    if m == [] then 0
    else MiddleCount(m[..|m| - 1]) + (if IsMiddle(m[|m| - 1]) then 1 else 0)
  }

  /** The x coordinate the cascade gives the node at index `k`. */
  function LayoutX(m: seq<DiagramNode>, k: nat): int
    requires k < |m|
  {
    if m[k].id == StartId then Origin
    else if m[k].id == EndId then Origin + Step * (MiddleCount(m) + 1)
    else Origin + Step * (MiddleCount(m[..k]) + 1)
  }

  /** The node at index `k` at its cascade position. */
  function Placed(m: seq<DiagramNode>, k: nat): DiagramNode
    requires k < |m|
  {
    m[k].(position := Position(LayoutX(m, k), Origin))
  }

  /**
   * The cascade layout: one row at y = 50, `start` at x = 50, the middle
   * nodes at 250, 450, ... in map order, and `end` one step after the last
   * of them. Nothing but the positions changes.
   */
  function Layout(m: seq<DiagramNode>): (r: seq<DiagramNode>)
    ensures |r| == |m|
    ensures forall k :: 0 <= k < |m| ==> r[k].(position := m[k].position) == m[k]
    ensures forall k :: 0 <= k < |m| ==> r[k].position.y == 50
    ensures forall k :: 0 <= k < |m| && m[k].id == StartId ==> r[k].position.x == 50
    ensures forall k :: 0 <= k < |m| && IsMiddle(m[k]) ==> r[k].position.x == 250 + 200 * MiddleCount(m[..k])
    ensures forall k :: 0 <= k < |m| && m[k].id == EndId ==> r[k].position.x == 250 + 200 * MiddleCount(m)
  {
    seq(|m|, k requires 0 <= k < |m| => Placed(m, k))
  }

  /** The result of `parseStateDiagram(code)`. */
  function StateDiagram(code: string): (d: ParsedDiagram)
    ensures |TransitionsOf(code)| <= |d.edges| <= |TransitionsOf(code)| + 2
    ensures |d.nodes| <= 2 * |TransitionsOf(code)| + 2
  {
    var trs := TransitionsOf(code);
    var m := BuildNodes(trs);
    var s := Synthesize(m, RawEdges(trs), HasKind(m, StartId, InputKind), HasKind(m, EndId, OutputKind));
    ParsedDiagram(Layout(s.nodes), s.edges)
  }

  /** Setting a node changes which ids carry which type only at that node's id. */
  lemma PutKind(m: seq<DiagramNode>, n: DiagramNode, id: string, kind: string)
    requires UniqueIds(m)
    ensures HasKind(Put(m, n), id, kind) <==>
      if n.id == id then n.kind == Some(kind) else HasKind(m, id, kind)
  {
    var r := Put(m, n);
    if n.id == id {
      if n.kind == Some(kind) {
        var k :| 0 <= k < |r| && r[k].id == n.id;
        assert r[k] == n;
      }
    } else if HasKind(m, id, kind) {
      var k :| 0 <= k < |m| && m[k].id == id && m[k].kind == Some(kind);
      assert r[k] == m[k];
    }
  }

  /** The source-node step of the line loop, with the `hasStartNode`/`hasEndNode` flags. */
  method AddSourceNode(nodeMap: seq<DiagramNode>, hasStartNode: bool, hasEndNode: bool, tr: Transition)
    returns (m: seq<DiagramNode>, hasStart: bool, hasEnd: bool)
    requires UniqueIds(nodeMap)
    requires hasStartNode == HasKind(nodeMap, StartId, InputKind)
    requires hasEndNode == HasKind(nodeMap, EndId, OutputKind)
    ensures m == AddSource(nodeMap, tr)
    ensures hasStart == HasKind(m, StartId, InputKind)
    ensures hasEnd == HasKind(m, EndId, OutputKind)
  {
    m, hasStart, hasEnd := nodeMap, hasStartNode, hasEndNode;
    var sourceId := SourceId(tr.source);
    if IndexOfId(nodeMap, sourceId).None? {
      var n := if tr.source == Star then StartNode() else PlainNode(sourceId, tr.source);
      if tr.source == Star {
        hasStart := true;
      }
      m := Put(nodeMap, n);
      PutKind(nodeMap, n, StartId, InputKind);
      PutKind(nodeMap, n, EndId, OutputKind);
    }
  }

  /** The target-node step of the line loop, with the `hasStartNode`/`hasEndNode` flags. */
  method AddTargetNode(nodeMap: seq<DiagramNode>, hasStartNode: bool, hasEndNode: bool, tr: Transition)
    returns (m: seq<DiagramNode>, hasStart: bool, hasEnd: bool)
    requires UniqueIds(nodeMap)
    requires hasStartNode == HasKind(nodeMap, StartId, InputKind)
    requires hasEndNode == HasKind(nodeMap, EndId, OutputKind)
    ensures m == AddTarget(nodeMap, tr)
    ensures hasStart == HasKind(m, StartId, InputKind)
    ensures hasEnd == HasKind(m, EndId, OutputKind)
  {
    m, hasStart, hasEnd := nodeMap, hasStartNode, hasEndNode;
    var targetId := TargetId(tr.target);
    if IndexOfId(nodeMap, targetId).None? {
      var n := if tr.target == Star then EndNode() else PlainNode(targetId, tr.target);
      if tr.target == Star {
        hasEnd := true;
      }
      m := Put(nodeMap, n);
      PutKind(nodeMap, n, StartId, InputKind);
      PutKind(nodeMap, n, EndId, OutputKind);
    }
  }

  /** The loop state after one more line is the step applied to the state before it. */
  lemma ScanPrefix(lines: seq<string>, i: nat)
    requires i < |lines|
    ensures Scan(lines[..i + 1]) == ScanStep(Scan(lines[..i]), lines[i])
  {
    assert lines[..i + 1][..i] == lines[..i];
  }

  /** Handling one more transition is one more step of the node map and one more edge. */
  lemma BuildPrefix(trs: seq<Transition>, tr: Transition)
    ensures BuildNodes(trs + [tr]) == AddTarget(AddSource(BuildNodes(trs), tr), tr)
    ensures RawEdges(trs + [tr]) == RawEdges(trs) + [TransitionEdge(tr)]
  {
    BuildNodesSnoc(trs, tr);
    RawEdgesSnoc(trs, tr);
  }

  lemma BuildNodesSnoc(trs: seq<Transition>, tr: Transition)
    ensures BuildNodes(trs + [tr]) == AddTarget(AddSource(BuildNodes(trs), tr), tr)
  {
    assert (trs + [tr])[..|trs|] == trs;
  }

  lemma RawEdgesSnoc(trs: seq<Transition>, tr: Transition)
    ensures RawEdges(trs + [tr]) == RawEdges(trs) + [TransitionEdge(tr)]
  {
    assert (trs + [tr])[..|trs|] == trs;
  }

  /** The line loop of `parseStateDiagram`: the node map, the edges and both flags it leaves. */
  method ScanLines(lines: seq<string>) returns (nodeMap: seq<DiagramNode>, edges: seq<DiagramEdge>,
                                                 hasStartNode: bool, hasEndNode: bool)
    ensures nodeMap == BuildNodes(Scan(lines).transitions)
    ensures edges == RawEdges(Scan(lines).transitions)
    ensures hasStartNode == HasKind(nodeMap, StartId, InputKind)
    ensures hasEndNode == HasKind(nodeMap, EndId, OutputKind)
  {
    nodeMap, edges := [], [];
    hasStartNode, hasEndNode := false, false;
    var validDiagram := false;
    ghost var trs: seq<Transition> := [];

    for i := 0 to |lines|
      invariant Scan(lines[..i]) == ScanState(validDiagram, trs)
      invariant nodeMap == BuildNodes(trs)
      invariant edges == RawEdges(trs)
      invariant hasStartNode == HasKind(nodeMap, StartId, InputKind)
      invariant hasEndNode == HasKind(nodeMap, EndId, OutputKind)
    {
      ScanPrefix(lines, i);
      var trimmedLine := Trim(lines[i]);

      if trimmedLine == Header {
        validDiagram := true;
        continue;
      }

      if !validDiagram {
        continue;
      }

      if StartsWith(trimmedLine, CommentMarker) || trimmedLine == "" {
        continue;
      }

      var transitionMatch := MatchTransition(trimmedLine);
      if transitionMatch.Some? {
        var tr := transitionMatch.value;
        nodeMap, hasStartNode, hasEndNode := AddSourceNode(nodeMap, hasStartNode, hasEndNode, tr);
        nodeMap, hasStartNode, hasEndNode := AddTargetNode(nodeMap, hasStartNode, hasEndNode, tr);
        edges := edges + [TransitionEdge(tr)];
        BuildPrefix(trs, tr);
        trs := trs + [tr];
      }
    }
    assert lines[..|lines|] == lines;
  }

  /** The post-pass that adds a missing `start` or `end` node with its edge. */
  method AddMissingEnds(nodeMap: seq<DiagramNode>, edges: seq<DiagramEdge>, hasStartNode: bool, hasEndNode: bool)
    returns (d: ParsedDiagram)
    requires UniqueIds(nodeMap)
    ensures d == Synthesize(nodeMap, edges, hasStartNode, hasEndNode)
  {
    d := ParsedDiagram(nodeMap, edges);
    if |d.edges| > 0 {
      if !hasStartNode {
        var firstNode := d.edges[0].source;
        if firstNode != StartId {
          d := ParsedDiagram(Put(d.nodes, StartNode()), [MakeEdge(StartId, firstNode)] + d.edges);
        }
      }
      if !hasEndNode {
        var lastNode := d.edges[|d.edges| - 1].target;
        if lastNode != EndId {
          d := ParsedDiagram(Put(d.nodes, EndNode()), d.edges + [MakeEdge(lastNode, EndId)]);
        }
      }
    }
  }

  /** `parseStateDiagram`: empty for blank input, else the line loop, the post-pass and the layout. */
  method ParseStateDiagram(code: string) returns (result: ParsedDiagram)
    ensures result == StateDiagram(code)
  {
    result := ParsedDiagram([], []);
    if Trim(code) == "" {
      return;
    }
    var lines := Split(code, '\n');
    var nodeMap, edges, hasStartNode, hasEndNode := ScanLines(lines);
    result := AddMissingEnds(nodeMap, edges, hasStartNode, hasEndNode);
    var laid := CascadeLayout(result.nodes);
    result := result.(nodes := laid);
  }

  /** The layout after `start` and the middle nodes before index `k` have been placed. */
  function PartialLayout(m: seq<DiagramNode>, k: nat): (r: seq<DiagramNode>)
    ensures |r| == |m|
  {
    seq(|m|, j requires 0 <= j < |m| =>
      if m[j].id == StartId || (j < k && IsMiddle(m[j])) then Placed(m, j) else m[j])
  }

  /** Before the cascade only `start` is placed. */
  lemma LayoutFirst(m: seq<DiagramNode>)
    requires UniqueIds(m)
    ensures IndexOfId(m, StartId).Some? ==>
      PartialLayout(m, 0) == m[IndexOfId(m, StartId).value := Placed(m, IndexOfId(m, StartId).value)]
    ensures IndexOfId(m, StartId).None? ==> PartialLayout(m, 0) == m
  {
  }

  /** Each cascade step places one more middle node. */
  lemma LayoutNext(m: seq<DiagramNode>, k: nat)
    requires k < |m|
    ensures IsMiddle(m[k]) ==> PartialLayout(m, k + 1) == PartialLayout(m, k)[k := Placed(m, k)]
    ensures !IsMiddle(m[k]) ==> PartialLayout(m, k + 1) == PartialLayout(m, k)
  {
  }

  /** After the cascade, placing `end` completes the layout. */
  lemma LayoutLast(m: seq<DiagramNode>)
    requires UniqueIds(m)
    ensures IndexOfId(m, EndId).Some? ==>
      Layout(m) == PartialLayout(m, |m|)[IndexOfId(m, EndId).value := Placed(m, IndexOfId(m, EndId).value)]
    ensures IndexOfId(m, EndId).None? ==> Layout(m) == PartialLayout(m, |m|)
  {
  }

  /** The cascade over the middle nodes in map order, each one step right of the one before. */
  method CascadeMiddle(nodeMap: seq<DiagramNode>, placed: seq<DiagramNode>) returns (laid: seq<DiagramNode>, x: int)
    requires placed == PartialLayout(nodeMap, 0)
    ensures laid == PartialLayout(nodeMap, |nodeMap|)
    ensures x == Origin + Step * MiddleCount(nodeMap)
  {
    x := Origin;
    laid := placed;
    for k := 0 to |laid|
      invariant |laid| == |nodeMap|
      invariant x == Origin + Step * MiddleCount(nodeMap[..k])
      invariant laid == PartialLayout(nodeMap, k)
    {
      assert nodeMap[..k + 1][..k] == nodeMap[..k];
      LayoutNext(nodeMap, k);
      if IsMiddle(laid[k]) {
        x := x + Step;
        laid := laid[k := laid[k].(position := Position(x, Origin))];
      }
    }
    assert nodeMap[..|nodeMap|] == nodeMap;
  }

  /** The layout pass: `start` first, then each middle node one step further, then `end`. */
  method CascadeLayout(nodeMap: seq<DiagramNode>) returns (laid: seq<DiagramNode>)
    requires UniqueIds(nodeMap)
    ensures laid == Layout(nodeMap)
  {
    var x, y := Origin, Origin;
    laid := nodeMap;
    var startIndex := IndexOfId(nodeMap, StartId);
    if startIndex.Some? {
      laid := laid[startIndex.value := laid[startIndex.value].(position := Position(x, y))];
    }
    LayoutFirst(nodeMap);
    laid, x := CascadeMiddle(nodeMap, laid);
    var endIndex := IndexOfId(nodeMap, EndId);
    LayoutLast(nodeMap);
    if endIndex.Some? {
      assert laid[endIndex.value] == nodeMap[endIndex.value];
      x := x + Step;
      assert Placed(nodeMap, endIndex.value) == laid[endIndex.value].(position := Position(x, y));
      laid := laid[endIndex.value := laid[endIndex.value].(position := Position(x, y))];
    }
  }
}
