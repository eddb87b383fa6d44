/**
 * The diagram entities of `parseStateDiagram.ts`: nodes, edges, their ids,
 * and the insertion-ordered node map the parser builds.
 */
module Diagram {
  import opened Wrappers
  import opened Text
  import opened Lookup

  /** `NodeStatus`. */
  datatype NodeStatus = Pending | Active | Done | Error

  datatype Position = Position(x: int, y: int)

  /**
   * `DiagramNode`. `kind` is the optional `type` field (`input` for the start
   * node, `output` for the end node, absent otherwise); `caption` is `data.label`.
   */
  datatype DiagramNode = DiagramNode(id: string, kind: Option<string>, caption: string,
                                     position: Position, status: NodeStatus)

  /** `DiagramEdge`; `animated` is absent until the store sets it. */
  datatype DiagramEdge = DiagramEdge(id: string, source: string, target: string, animated: Option<bool>)

  /** `ParsedDiagram`. */
  datatype ParsedDiagram = ParsedDiagram(nodes: seq<DiagramNode>, edges: seq<DiagramEdge>)

  const StartId: string := "start"
  const EndId: string := "end"
  const InputKind: string := "input"
  const OutputKind: string := "output"
  /** The pseudo-state label that stands for the start as a source and the end as a target. */
  const Star: string := "[*]"

  /** `generateId`: `[*]` becomes `start`; any other label is lower-cased with each whitespace run turned into `-`. */
  function GenerateId(name: string): (r: string)
    ensures name == Star ==> r == StartId
    ensures name != Star ==> NoWhitespace(r) && forall k :: 0 <= k < |r| ==> !IsUpper(r[k])
    ensures name != Star ==> (r == [] <==> name == [])
  {
    if name == Star then StartId
    else
      var r := CollapseWhitespace(ToLower(name));
      LowerCollapsed(ToLower(name));
      r
  }

  /** Collapsing whitespace keeps a string free of capitals. */
  lemma {:induction false} LowerCollapsed(s: string)
    requires forall k :: 0 <= k < |s| ==> !IsUpper(s[k])
    ensures forall k :: 0 <= k < |CollapseWhitespace(s)| ==> !IsUpper(CollapseWhitespace(s)[k])
    decreases |s|
  {
    if s != [] {
      if IsWhitespace(s[0]) {
        LowerCollapsed(s[SkipWhitespace(s, 0)..]);
      } else {
        LowerCollapsed(s[1..]);
      }
    }
  }

  /** Lower-casing distributes over concatenation. */
  lemma {:induction false} ToLowerConcat(a: string, b: string)
    ensures ToLower(a + b) == ToLower(a) + ToLower(b)
  {
    var l, r := ToLower(a + b), ToLower(a) + ToLower(b);
    forall k | 0 <= k < |l| ensures l[k] == r[k] {
      if k < |a| {
        assert (a + b)[k] == a[k];
      } else {
        assert (a + b)[k] == b[k - |a|];
      }
    }
  }

  /** A label holding whitespace is not `[*]`. */
  lemma WhitespaceNotStar(s: string, i: nat)
    requires i < |s| && IsWhitespace(s[i])
    ensures s != Star
  {
    assert NoWhitespace(Star);
  }

  /** Lower-casing a run split keeps the split: each part keeps its whitespace at the same places. */
  lemma ToLowerRun(a: string, w: string, b: string)
    requires w != [] && AllWhitespace(w)
    requires a == [] || !IsWhitespace(a[|a| - 1])
    requires b == [] || !IsWhitespace(b[0])
    ensures ToLower(a + w + b) == ToLower(a) + ToLower(w) + ToLower(b)
    ensures AllWhitespace(ToLower(w))
    ensures ToLower(a) == [] || !IsWhitespace(ToLower(a)[|a| - 1])
    ensures ToLower(b) == [] || !IsWhitespace(ToLower(b)[0])
  {
    ToLowerConcat(a + w, b);
    ToLowerConcat(a, w);
  }

  /**
   * Ids ignore case and the length of whitespace runs: a run between two
   * non-space parts becomes one `-`.
   */
  lemma GenerateIdRun(a: string, w: string, b: string)
    requires a != [] && b != [] && w != [] && AllWhitespace(w)
    requires !IsWhitespace(a[|a| - 1]) && !IsWhitespace(b[0])
    requires a != Star && b != Star
    ensures GenerateId(a + w + b) == GenerateId(a) + "-" + GenerateId(b)
  {
    WhitespaceNotStar(a + w + b, |a|);
    ToLowerRun(a, w, b);
    CollapseRun(ToLower(a), ToLower(w), ToLower(b));
  }

  /** `sourceLabel === '[*]' ? 'start' : generateId(sourceLabel)`. */
  function SourceId(name: string): (r: string)
    ensures name == Star ==> r == StartId
    ensures name != Star ==> r == GenerateId(name)
  {
    if name == Star then StartId else GenerateId(name)
  }

  /** `targetLabel === '[*]' ? 'end' : generateId(targetLabel)`. */
  function TargetId(name: string): (r: string)
    ensures name == Star ==> r == EndId
    ensures name != Star ==> r == GenerateId(name)
  {
    if name == Star then EndId else GenerateId(name)
  }

  /** The edge id `e-<source>-<target>`. */
  function EdgeId(source: string, target: string): (r: string)
    ensures |r| == |source| + |target| + 3 && r[..2] == "e-" && r[2 + |source|] == '-'
    ensures r[2..2 + |source|] == source && r[3 + |source|..] == target
  {
    "e-" + source + "-" + target
  }

  /** An edge as the parser creates it: no `animated` flag yet. */
  function MakeEdge(source: string, target: string): (e: DiagramEdge)
    ensures e.source == source && e.target == target && e.animated == None
  {
    DiagramEdge(EdgeId(source, target), source, target, None)
  }

  /** The `start` node the parser creates for `[*]` and in its post-pass. */
  function StartNode(): DiagramNode {
    DiagramNode(StartId, Some(InputKind), "Start", Position(0, 0), Pending)
  }

  /** The `end` node the parser creates for `[*]` and in its post-pass. */
  function EndNode(): DiagramNode {
    DiagramNode(EndId, Some(OutputKind), "End", Position(0, 0), Pending)
  }

  /** A node for an ordinary label. */
  function PlainNode(id: string, name: string): DiagramNode {
    DiagramNode(id, None, name, Position(0, 0), Pending)
  }

  predicate UniqueIds(m: seq<DiagramNode>) {
    forall i, j :: 0 <= i < j < |m| ==> m[i].id != m[j].id
  }

  predicate HasId(m: seq<DiagramNode>, id: string) {
    exists k :: 0 <= k < |m| && m[k].id == id
  }

  /** Where `id` sits in the node map (`Map.prototype.has`/`get`). */
  function IndexOfId(m: seq<DiagramNode>, id: string): (r: Option<nat>)
    ensures r.Some? ==> r.value < |m| && m[r.value].id == id
    ensures r.Some? ==> forall j :: 0 <= j < r.value ==> m[j].id != id
    ensures r.None? <==> !HasId(m, id)
  {
    FirstIndex(m, (n: DiagramNode) => n.id == id)
  }

  /**
   * `nodeMap.set(node.id, node)`: a key already present keeps its place in
   * the insertion order and gets the new value; a new key goes last.
   */
  function Put(m: seq<DiagramNode>, n: DiagramNode): (r: seq<DiagramNode>)
    requires UniqueIds(m)
    ensures UniqueIds(r) && HasId(r, n.id)
    ensures HasId(m, n.id) ==> |r| == |m|
    ensures HasId(m, n.id) ==> forall k :: 0 <= k < |m| ==> r[k] == if m[k].id == n.id then n else m[k]
    ensures !HasId(m, n.id) ==> r == m + [n]
  {
    match IndexOfId(m, n.id)
    case Some(k) =>
      assert m[k := n][k] == n;
      m[k := n]
    case None =>
      assert (m + [n])[|m|] == n;
      m + [n]
  }
}
