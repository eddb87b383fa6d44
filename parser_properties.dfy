/** What `parseStateDiagram` guarantees, proved about its specification `Parser.StateDiagram`. */
module ParserProperties {
  import opened Wrappers
  import opened Text
  import opened Lookup
  import opened Diagram
  import opened Transitions
  import opened Parser

  // ----- Input that yields an empty diagram -----

  /** Without a header line the loop never becomes valid and collects nothing. */
  lemma {:induction false} ScanWithoutHeader(lines: seq<string>)
    requires forall k :: 0 <= k < |lines| ==> !IsHeader(lines[k])
    ensures Scan(lines) == ScanState(false, [])
    decreases |lines|
  {
    if lines != [] {
      ScanWithoutHeader(lines[..|lines| - 1]);
    }
  }

  /** No transitions, no nodes and no edges. */
  lemma EmptyDiagram(code: string)
    requires TransitionsOf(code) == []
    ensures StateDiagram(code) == ParsedDiagram([], [])
  {
  }

  /** Empty or whitespace-only input yields zero nodes and zero edges. */
  lemma BlankInputIsEmpty(code: string)
    requires AllWhitespace(code)
    ensures StateDiagram(code) == ParsedDiagram([], [])
  {
  }

  /** Input with no line trimming to the header yields zero nodes and zero edges. */
  lemma NoHeaderIsEmpty(code: string)
    requires forall k :: 0 <= k < |Split(code, '\n')| ==> !IsHeader(Split(code, '\n')[k])
    ensures StateDiagram(code) == ParsedDiagram([], [])
  {
    ScanWithoutHeader(Split(code, '\n'));
  }

  // ----- Which lines yield transitions -----

  lemma {:induction false} MatchesAppend(a: seq<string>, b: seq<string>)
    ensures Matches(a + b) == Matches(a) + Matches(b)
    decreases |a|
  {
    if a == [] {
      assert a + b == b;
    } else {
      assert (a + b)[0] == a[0];
      assert (a + b)[1..] == a[1..] + b;
      MatchesAppend(a[1..], b);
      Assoc(LineMatches(a[0]), Matches(a[1..]), Matches(b));
    }
  }

  /** One loop step in terms of the line's contribution. */
  lemma ScanStepMatches(st: ScanState, line: string)
    ensures ScanStep(st, line).valid == (st.valid || IsHeader(line))
    ensures ScanStep(st, line).transitions == st.transitions + (if st.valid then LineMatches(line) else [])
  {
    if IsHeader(line) || !st.valid {
      assert st.transitions + [] == st.transitions;
    }
  }

  lemma ScanAppend(init: seq<string>, last: string)
    ensures Scan(init + [last]) == ScanStep(Scan(init), last)
  {
    assert (init + [last])[..|init|] == init;
  }

  lemma MatchesSnoc(lines: seq<string>, last: string)
    ensures Matches(lines + [last]) == Matches(lines) + LineMatches(last)
  {
    MatchesAppend(lines, [last]);
    assert Matches([last]) == LineMatches(last) + Matches([]);
  }

  /** A line read after the header adds its contribution to the transitions. */
  lemma StepAfterHeader(init: seq<string>, last: string, h: nat)
    requires h < |init| && Scan(init).valid && Scan(init).transitions == Matches(init[h + 1..])
    ensures Scan(init + [last]).valid
    ensures Scan(init + [last]).transitions == Matches((init + [last])[h + 1..])
  {
    ScanAppend(init, last);
    ScanStepMatches(Scan(init), last);
    SliceSnoc(init, last, h + 1);
    MatchesSnoc(init[h + 1..], last);
  }

  /** Before the header, a line either is the header or changes nothing. */
  lemma StepBeforeHeader(init: seq<string>, last: string)
    requires Scan(init) == ScanState(false, [])
    ensures IsHeader(last) ==> Scan(init + [last]) == ScanState(true, [])
    ensures !IsHeader(last) ==> Scan(init + [last]) == ScanState(false, [])
  {
    ScanAppend(init, last);
    ScanStepMatches(Scan(init), last);
  }

  /**
   * The loop's result depends only on the lines after the first header `h`:
   * it is valid, and its transitions are those of the later lines, in
   * order, each header, comment, blank or non-matching line contributing
   * none. (Without a header, `ScanWithoutHeader`.)
   */
  lemma {:induction false} TransitionsFollowHeader(lines: seq<string>, h: nat)
    requires h < |lines| && IsHeader(lines[h])
    requires forall j :: 0 <= j < h ==> !IsHeader(lines[j])
    ensures Scan(lines).valid
    ensures Scan(lines).transitions == Matches(lines[h + 1..])
    decreases |lines|
  {
    var init, last := lines[..|lines| - 1], lines[|lines| - 1];
    assert lines == init + [last];
    if h == |init| {
      ScanWithoutHeader(init);
      StepBeforeHeader(init, last);
      assert lines[h + 1..] == [];
    } else {
      TransitionsFollowHeader(init, h);
      StepAfterHeader(init, last, h);
    }
  }

  /** Removing a header, comment, blank or non-matching line changes no transition. */
  lemma IgnoredLine(before: seq<string>, line: string, after: seq<string>)
    requires IsHeader(line) || LineTransition(Trim(line)).None?
    ensures Matches(before + [line] + after) == Matches(before + after)
  {
    assert LineMatches(line) == [];
    assert Matches([line]) == LineMatches(line) + Matches([]);
    MatchesAppend(before + [line], after);
    MatchesAppend(before, [line]);
    assert Matches(before) + [] == Matches(before);
    MatchesAppend(before, after);
  }

  /**
   * The transitions of the whole input are those of the lines after the
   * first header, in order.
   */
  lemma TransitionsOfLines(code: string, h: nat)
    requires h < |Split(code, '\n')| && IsHeader(Split(code, '\n')[h])
    requires forall j :: 0 <= j < h ==> !IsHeader(Split(code, '\n')[j])
    ensures TransitionsOf(code) == Matches(Split(code, '\n')[h + 1..])
  {
    var lines := Split(code, '\n');
    if AllWhitespace(code) {
      SplitOfWhitespace(code, '\n');
    }
    assert !AllWhitespace(lines[h]);
    TransitionsFollowHeader(lines, h);
  }

  // ----- The node map of the line loop -----

  /** The node-adding steps only ever append, so earlier nodes are kept as they are. */
  lemma AddKeepsPrefix(m: seq<DiagramNode>, tr: Transition)
    requires UniqueIds(m)
    ensures |m| <= |AddSource(m, tr)| && AddSource(m, tr)[..|m|] == m
    ensures |AddSource(m, tr)| <= |AddTarget(AddSource(m, tr), tr)|
    ensures AddTarget(AddSource(m, tr), tr)[..|AddSource(m, tr)|] == AddSource(m, tr)
    ensures AddTarget(AddSource(m, tr), tr)[..|m|] == m
  {
    var s := AddSource(m, tr);
    var t := AddTarget(s, tr);
    assert s[..|m|] == m;
    assert t[..|s|] == s;
    assert t[..|m|] == s[..|s|][..|m|];
  }

  /**
   * An id already in the map is reused: nodes created for earlier lines are
   * never replaced during the loop, so each keeps its label, type and status.
   */
  lemma {:induction false} BuildNodesGrows(before: seq<Transition>, after: seq<Transition>)
    ensures |BuildNodes(before)| <= |BuildNodes(before + after)|
    ensures BuildNodes(before + after)[..|BuildNodes(before)|] == BuildNodes(before)
    decreases |after|
  {
    if after == [] {
      assert before + after == before;
    } else {
      var init, last := after[..|after| - 1], after[|after| - 1];
      assert before + after == (before + init) + [last];
      BuildNodesSnoc(before + init, last);
      BuildNodesGrows(before, init);
      AddKeepsPrefix(BuildNodes(before + init), last);
      PrefixOfPrefix(BuildNodes(before), BuildNodes(before + init), BuildNodes(before + after));
    }
  }

  lemma PrefixOfPrefix(m0: seq<DiagramNode>, m1: seq<DiagramNode>, m2: seq<DiagramNode>)
    requires |m0| <= |m1| <= |m2| && m1[..|m0|] == m0 && m2[..|m1|] == m1
    ensures m2[..|m0|] == m0
  {
    assert m2[..|m0|] == m2[..|m1|][..|m0|];
  }

  /** A source or target whose id is in the map already reuses that node: the map is unchanged. */
  lemma ReusedId(m: seq<DiagramNode>, tr: Transition)
    requires UniqueIds(m)
    ensures HasId(m, SourceId(tr.source)) ==> AddSource(m, tr) == m
    ensures HasId(m, TargetId(tr.target)) ==> AddTarget(m, tr) == m
  {
  }

  /**
   * The post-pass sets `start` even over a node of that id which is not of
   * type `input` (one read from a label such as `Start`): it keeps its place
   * and becomes the `input` node.
   */
  lemma PostPassOverwritesStart(m: seq<DiagramNode>, es: seq<DiagramEdge>, k: nat)
    requires UniqueIds(m) && es != [] && es[0].source != StartId
    requires k < |m| && m[k].id == StartId
    ensures |SynthesizeStart(m, es, false).nodes| == |m|
    ensures SynthesizeStart(m, es, false).nodes[k] == StartNode()
  {
  }

  /** Symmetrically for `end`. */
  lemma PostPassOverwritesEnd(s: ParsedDiagram, k: nat)
    requires UniqueIds(s.nodes) && s.edges != [] && s.edges[|s.edges| - 1].target != EndId
    requires k < |s.nodes| && s.nodes[k].id == EndId
    ensures |SynthesizeEnd(s, false).nodes| == |s.nodes|
    ensures SynthesizeEnd(s, false).nodes[k] == EndNode()
  {
  }

  // ----- Ids and endpoints -----

  /** Setting a node keeps every id already present. */
  lemma PutKeepsId(m: seq<DiagramNode>, n: DiagramNode, id: string)
    requires UniqueIds(m) && HasId(m, id)
    ensures HasId(Put(m, n), id)
  {
    var k :| 0 <= k < |m| && m[k].id == id;
    assert Put(m, n)[k].id == id;
  }

  /** Every edge's source and target is the id of a node. */
  predicate EndpointsExist(m: seq<DiagramNode>, es: seq<DiagramEdge>) {
    forall k :: 0 <= k < |es| ==> HasId(m, es[k].source) && HasId(m, es[k].target)
  }

  lemma AddKeepsEndpoints(m: seq<DiagramNode>, es: seq<DiagramEdge>, tr: Transition)
    requires UniqueIds(m) && EndpointsExist(m, es)
    ensures EndpointsExist(AddTarget(AddSource(m, tr), tr), es + [TransitionEdge(tr)])
  {
    var s := AddSource(m, tr);
    var t := AddTarget(s, tr);
    AddKeepsPrefix(m, tr);
    PrefixKeepsIds(m, t);
    PrefixKeepsIds(s, t);
  }

  /** Extending a node sequence keeps every id it held. */
  lemma PrefixKeepsIds(m: seq<DiagramNode>, t: seq<DiagramNode>)
    requires |m| <= |t| && t[..|m|] == m
    ensures forall id :: HasId(m, id) ==> HasId(t, id)
  {
    forall id | HasId(m, id) ensures HasId(t, id) {
      var k :| 0 <= k < |m| && m[k].id == id;
      assert t[..|m|][k] == t[k];
    }
  }

  lemma {:induction false} BuildNodesEndpoints(trs: seq<Transition>)
    ensures EndpointsExist(BuildNodes(trs), RawEdges(trs))
    decreases |trs|
  {
    if trs != [] {
      var init, last := trs[..|trs| - 1], trs[|trs| - 1];
      assert trs == init + [last];
      BuildNodesEndpoints(init);
      BuildPrefix(init, last);
      AddKeepsEndpoints(BuildNodes(init), RawEdges(init), last);
    }
  }

  lemma PutKeepsEndpoints(m: seq<DiagramNode>, es: seq<DiagramEdge>, n: DiagramNode)
    requires UniqueIds(m) && EndpointsExist(m, es)
    ensures EndpointsExist(Put(m, n), es)
  {
    forall k | 0 <= k < |es| ensures HasId(Put(m, n), es[k].source) && HasId(Put(m, n), es[k].target) {
      PutKeepsId(m, n, es[k].source);
      PutKeepsId(m, n, es[k].target);
    }
  }

  lemma SynthesizeStartEndpoints(m: seq<DiagramNode>, es: seq<DiagramEdge>, hasStart: bool)
    requires UniqueIds(m) && es != [] && EndpointsExist(m, es)
    ensures var d := SynthesizeStart(m, es, hasStart); EndpointsExist(d.nodes, d.edges)
  {
    if !hasStart && es[0].source != StartId {
      PutKeepsEndpoints(m, es, StartNode());
      PutKeepsId(m, StartNode(), es[0].source);
    }
  }

  lemma SynthesizeEndEndpoints(s: ParsedDiagram, hasEnd: bool)
    requires UniqueIds(s.nodes) && s.edges != [] && EndpointsExist(s.nodes, s.edges)
    ensures var d := SynthesizeEnd(s, hasEnd); EndpointsExist(d.nodes, d.edges)
  {
    var lastNode := s.edges[|s.edges| - 1].target;
    if !hasEnd && lastNode != EndId {
      PutKeepsEndpoints(s.nodes, s.edges, EndNode());
      PutKeepsId(s.nodes, EndNode(), lastNode);
    }
  }

  /** The post-pass adds each synthesized edge together with the node it needs. */
  lemma SynthesizeKeepsEndpoints(m: seq<DiagramNode>, es: seq<DiagramEdge>, hasStart: bool, hasEnd: bool)
    requires UniqueIds(m) && EndpointsExist(m, es)
    ensures var d := Synthesize(m, es, hasStart, hasEnd); EndpointsExist(d.nodes, d.edges)
  {
    if es != [] {
      SynthesizeStartEndpoints(m, es, hasStart);
      SynthesizeEndEndpoints(SynthesizeStart(m, es, hasStart), hasEnd);
    }
  }

  /** The layout changes positions only. */
  lemma LayoutKeepsNodes(m: seq<DiagramNode>)
    ensures forall k :: 0 <= k < |m| ==>
      Layout(m)[k].id == m[k].id && Layout(m)[k].kind == m[k].kind &&
      Layout(m)[k].caption == m[k].caption && Layout(m)[k].status == m[k].status
    ensures forall id :: HasId(Layout(m), id) <==> HasId(m, id)
    ensures UniqueIds(m) ==> UniqueIds(Layout(m))
  {
    forall k | 0 <= k < |m|
      ensures Layout(m)[k].id == m[k].id && Layout(m)[k].kind == m[k].kind
      ensures Layout(m)[k].caption == m[k].caption && Layout(m)[k].status == m[k].status
    {
      assert Layout(m)[k].(position := m[k].position) == m[k];
    }
  }

  /** The node map before the layout, and the edge list, of the result. */
  function Unplaced(code: string): ParsedDiagram {
    var trs := TransitionsOf(code);
    var m := BuildNodes(trs);
    Synthesize(m, RawEdges(trs), HasKind(m, StartId, InputKind), HasKind(m, EndId, OutputKind))
  }

  lemma UnplacedIsResult(code: string)
    ensures StateDiagram(code).nodes == Layout(Unplaced(code).nodes)
    ensures StateDiagram(code).edges == Unplaced(code).edges
    ensures UniqueIds(Unplaced(code).nodes)
  {
  }

  /** Output node ids are pairwise distinct. */
  lemma NodeIdsUnique(code: string)
    ensures UniqueIds(StateDiagram(code).nodes)
  {
    LayoutKeepsNodes(Unplaced(code).nodes);
  }

  /** Every edge's source and target is the id of some output node. */
  lemma EdgeEndpointsExist(code: string)
    ensures EndpointsExist(StateDiagram(code).nodes, StateDiagram(code).edges)
  {
    var u := Unplaced(code);
    UnplacedEndpoints(code);
    UnplacedIsResult(code);
    LayoutKeepsEndpoints(u.nodes, u.edges);
  }

  lemma LayoutKeepsEndpoints(m: seq<DiagramNode>, es: seq<DiagramEdge>)
    requires EndpointsExist(m, es)
    ensures EndpointsExist(Layout(m), es)
  {
    LayoutKeepsNodes(m);
  }

  lemma UnplacedEndpoints(code: string)
    ensures EndpointsExist(Unplaced(code).nodes, Unplaced(code).edges)
  {
    var trs := TransitionsOf(code);
    var m := BuildNodes(trs);
    BuildNodesEndpoints(trs);
    SynthesizeKeepsEndpoints(m, RawEdges(trs), HasKind(m, StartId, InputKind), HasKind(m, EndId, OutputKind));
  }

  // ----- The edge list -----

  /**
   * The edge the post-pass puts first: one from `start` to the first edge's
   * source, unless a `[*]` start node was read or that source is `start`.
   */
  function StartEdges(es: seq<DiagramEdge>, hasStart: bool): (r: seq<DiagramEdge>)
    requires es != []
    ensures |r| <= 1 && (r != [] <==> !hasStart && es[0].source != StartId)
    ensures r != [] ==> r[0].source == StartId && r[0].target == es[0].source
  {
    if !hasStart && es[0].source != StartId then [MakeEdge(StartId, es[0].source)] else []
  }

  /** The edge the post-pass puts last: symmetrically, into `end` from the last edge's target. */
  function EndEdges(es: seq<DiagramEdge>, hasEnd: bool): (r: seq<DiagramEdge>)
    requires es != []
    ensures |r| <= 1 && (r != [] <==> !hasEnd && es[|es| - 1].target != EndId)
    ensures r != [] ==> r[0].source == es[|es| - 1].target && r[0].target == EndId
  {
    if !hasEnd && es[|es| - 1].target != EndId then [MakeEdge(es[|es| - 1].target, EndId)] else []
  }

  /**
   * The post-pass changes nothing without edges. Otherwise it adds the
   * `start` edge exactly when `StartEdges` says so and the `end` edge exactly
   * when `EndEdges` says so, and each added edge comes with its typed node.
   */
  lemma SynthesizeBrackets(m: seq<DiagramNode>, es: seq<DiagramEdge>, hasStart: bool, hasEnd: bool)
    requires UniqueIds(m)
    ensures es == [] ==> Synthesize(m, es, hasStart, hasEnd) == ParsedDiagram(m, [])
    ensures es != [] ==>
      var d := Synthesize(m, es, hasStart, hasEnd);
      && d.edges == StartEdges(es, hasStart) + es + EndEdges(es, hasEnd)
      && (StartEdges(es, hasStart) != [] ==> HasKind(d.nodes, StartId, InputKind))
      && (EndEdges(es, hasEnd) != [] ==> HasKind(d.nodes, EndId, OutputKind))
  {
    if es != [] {
      var s := SynthesizeStart(m, es, hasStart);
      StartHalfEdges(m, es, hasStart);
      var d := SynthesizeEnd(s, hasEnd);
      assert d.edges == s.edges + EndEdges(es, hasEnd);
      PutKind(s.nodes, EndNode(), StartId, InputKind);
    }
  }

  /** The first half leaves `es` last, behind the `start` edge when there is one. */
  lemma StartHalfEdges(m: seq<DiagramNode>, es: seq<DiagramEdge>, hasStart: bool)
    requires UniqueIds(m) && es != []
    ensures var s := SynthesizeStart(m, es, hasStart);
      && s.edges == StartEdges(es, hasStart) + es
      && s.edges[|s.edges| - 1] == es[|es| - 1]
  {
  }

  /** After the post-pass there is an `input` `start` node, or the first edge leaves `start`. */
  lemma SynthesizeFirstEdge(m: seq<DiagramNode>, es: seq<DiagramEdge>, hasStart: bool, hasEnd: bool)
    requires UniqueIds(m) && es != [] && (hasStart ==> HasKind(m, StartId, InputKind))
    ensures var d := Synthesize(m, es, hasStart, hasEnd);
      d.edges != [] && (HasKind(d.nodes, StartId, InputKind) || d.edges[0].source == StartId)
  {
    var s := SynthesizeStart(m, es, hasStart);
    StartHalfEdges(m, es, hasStart);
    if hasStart {
      PutKind(m, StartNode(), StartId, InputKind);
    }
    assert HasKind(s.nodes, StartId, InputKind) || s.edges[0].source == StartId;
    PutKind(s.nodes, EndNode(), StartId, InputKind);
  }

  /** The layout keeps which ids carry which type. */
  lemma LayoutKeepsKind(m: seq<DiagramNode>, id: string, kind: string)
    ensures HasKind(Layout(m), id, kind) <==> HasKind(m, id, kind)
  {
    LayoutKeepsNodes(m);
    if HasKind(m, id, kind) {
      var k :| 0 <= k < |m| && m[k].id == id && m[k].kind == Some(kind);
      assert Layout(m)[k].id == id && Layout(m)[k].kind == Some(kind);
    }
    if HasKind(Layout(m), id, kind) {
      var k :| 0 <= k < |Layout(m)| && Layout(m)[k].id == id && Layout(m)[k].kind == Some(kind);
      assert m[k].id == id && m[k].kind == Some(kind);
    }
  }

  /**
   * Edges follow the input lines: one edge per matching transition line
   * after the header, in line order (duplicates included). Without any,
   * there are no edges. With some, the `start` edge comes first exactly when
   * no `[*]` start node was read and the first edge does not leave `start`,
   * and the `end` edge comes last exactly when no `[*]` end node was read and
   * the last edge does not enter `end`. Each added edge comes with its typed
   * node.
   */
  lemma EdgesFollowTransitions(code: string)
    ensures var trs := TransitionsOf(code);
      var m := BuildNodes(trs);
      var es := RawEdges(trs);
      var d := StateDiagram(code);
      && (trs == [] ==> d.edges == [])
      && (trs != [] ==>
           var pre := StartEdges(es, HasKind(m, StartId, InputKind));
           var post := EndEdges(es, HasKind(m, EndId, OutputKind));
           && d.edges == pre + es + post
           && (pre != [] ==> HasKind(d.nodes, StartId, InputKind))
           && (post != [] ==> HasKind(d.nodes, EndId, OutputKind)))
  {
    var trs := TransitionsOf(code);
    var m := BuildNodes(trs);
    UnplacedIsResult(code);
    SynthesizeBrackets(m, RawEdges(trs), HasKind(m, StartId, InputKind), HasKind(m, EndId, OutputKind));
    LayoutKeepsKind(Unplaced(code).nodes, StartId, InputKind);
    LayoutKeepsKind(Unplaced(code).nodes, EndId, OutputKind);
  }

  /**
   * With edges, the walk has somewhere to begin: the result holds an `input`
   * `start` node, or its first edge leaves a `start` node read from a label.
   */
  lemma FirstEdgeFromStart(code: string)
    requires TransitionsOf(code) != []
    ensures var d := StateDiagram(code);
      d.edges != [] && (HasKind(d.nodes, StartId, InputKind) || d.edges[0].source == StartId)
  {
    var trs := TransitionsOf(code);
    var m := BuildNodes(trs);
    UnplacedIsResult(code);
    SynthesizeFirstEdge(m, RawEdges(trs), HasKind(m, StartId, InputKind), HasKind(m, EndId, OutputKind));
    LayoutKeepsKind(Unplaced(code).nodes, StartId, InputKind);
  }

  /** An edge exactly as the parser creates it: id `e-<source>-<target>`, no `animated` flag. */
  predicate IsParsedEdge(e: DiagramEdge) {
    e.id == "e-" + e.source + "-" + e.target && e.animated == None
  }

  predicate AllParsedEdges(es: seq<DiagramEdge>) {
    forall k :: 0 <= k < |es| ==> IsParsedEdge(es[k])
  }

  lemma SynthesizeParsedEdges(m: seq<DiagramNode>, es: seq<DiagramEdge>, hasStart: bool, hasEnd: bool)
    requires UniqueIds(m) && AllParsedEdges(es)
    ensures AllParsedEdges(Synthesize(m, es, hasStart, hasEnd).edges)
  {
    if es != [] {
      var s := SynthesizeStart(m, es, hasStart);
      assert AllParsedEdges(s.edges);
    }
  }

  /** Every output edge has the id `e-<sourceId>-<targetId>` and no `animated` flag. */
  lemma EdgeIdsFormat(code: string)
    ensures AllParsedEdges(StateDiagram(code).edges)
  {
    var trs := TransitionsOf(code);
    var m := BuildNodes(trs);
    UnplacedIsResult(code);
    RawEdgesParsed(trs);
    SynthesizeParsedEdges(m, RawEdges(trs), HasKind(m, StartId, InputKind), HasKind(m, EndId, OutputKind));
  }

  lemma RawEdgesParsed(trs: seq<Transition>)
    ensures AllParsedEdges(RawEdges(trs))
  {
    forall k | 0 <= k < |trs| ensures IsParsedEdge(RawEdges(trs)[k]) {
      assert RawEdges(trs)[k] == TransitionEdge(trs[k]);
    }
  }

  // ----- The start and end nodes -----

  /** A `start` node marked `[*]` is in the map, for the `hasStartNode`/`hasEndNode` flags. */
  lemma HasKindHasId(m: seq<DiagramNode>, id: string, kind: string)
    requires HasKind(m, id, kind)
    ensures HasId(m, id)
  {
  }

  lemma SynthesizeHasEnds(m: seq<DiagramNode>, es: seq<DiagramEdge>, hasStart: bool, hasEnd: bool)
    requires UniqueIds(m) && EndpointsExist(m, es) && es != []
    requires hasStart ==> HasId(m, StartId)
    requires hasEnd ==> HasId(m, EndId)
    ensures HasId(Synthesize(m, es, hasStart, hasEnd).nodes, StartId)
    ensures HasId(Synthesize(m, es, hasStart, hasEnd).nodes, EndId)
  {
    var s := SynthesizeStart(m, es, hasStart);
    SynthesizeStartEndpoints(m, es, hasStart);
    if !hasStart && es[0].source != StartId {
      if hasEnd {
        PutKeepsId(m, StartNode(), EndId);
      }
    }
    assert HasId(s.nodes, StartId) && (hasEnd ==> HasId(s.nodes, EndId));
    var lastNode := s.edges[|s.edges| - 1].target;
    if !hasEnd && lastNode != EndId {
      PutKeepsId(s.nodes, EndNode(), StartId);
    }
  }

  /**
   * A diagram has nodes exactly when it has edges, exactly when some
   * transition matched; and then it contains the nodes `start` and `end`.
   */
  lemma StartAndEndPresent(code: string)
    ensures StateDiagram(code).nodes == [] <==> TransitionsOf(code) == []
    ensures StateDiagram(code).edges == [] <==> TransitionsOf(code) == []
    ensures TransitionsOf(code) != [] ==>
      HasId(StateDiagram(code).nodes, StartId) && HasId(StateDiagram(code).nodes, EndId)
  {
    var trs := TransitionsOf(code);
    var m := BuildNodes(trs);
    UnplacedIsResult(code);
    EdgesFollowTransitions(code);
    if trs != [] {
      var hasStart, hasEnd := HasKind(m, StartId, InputKind), HasKind(m, EndId, OutputKind);
      BuildNodesEndpoints(trs);
      if hasStart { HasKindHasId(m, StartId, InputKind); }
      if hasEnd { HasKindHasId(m, EndId, OutputKind); }
      SynthesizeHasEnds(m, RawEdges(trs), hasStart, hasEnd);
      LayoutKeepsNodes(Unplaced(code).nodes);
    }
  }

  // ----- Node types, labels and status -----

  /**
   * Every node is pending; an untyped node's id is its label's id; a typed
   * node is `start` (type `input`, label `Start`) or `end` (type `output`,
   * label `End`).
   */
  predicate WellTyped(n: DiagramNode) {
    && n.status == Pending
    && (n.kind == None ==> n.caption != Star && n.id == GenerateId(n.caption))
    && (n.kind != None ==>
         (n.id == StartId && n.kind == Some(InputKind) && n.caption == "Start") ||
         (n.id == EndId && n.kind == Some(OutputKind) && n.caption == "End"))
  }

  predicate AllWellTyped(m: seq<DiagramNode>) {
    forall k :: 0 <= k < |m| ==> WellTyped(m[k])
  }

  lemma PutWellTyped(m: seq<DiagramNode>, n: DiagramNode)
    requires UniqueIds(m) && AllWellTyped(m) && WellTyped(n)
    ensures AllWellTyped(Put(m, n))
  {
  }

  lemma AddWellTyped(m: seq<DiagramNode>, tr: Transition)
    requires UniqueIds(m) && AllWellTyped(m)
    ensures AllWellTyped(AddTarget(AddSource(m, tr), tr))
  {
    if !HasId(m, SourceId(tr.source)) {
      if tr.source == Star {
        PutWellTyped(m, StartNode());
      } else {
        PutWellTyped(m, PlainNode(SourceId(tr.source), tr.source));
      }
    }
    var s := AddSource(m, tr);
    if !HasId(s, TargetId(tr.target)) {
      if tr.target == Star {
        PutWellTyped(s, EndNode());
      } else {
        PutWellTyped(s, PlainNode(TargetId(tr.target), tr.target));
      }
    }
  }

  lemma {:induction false} BuildNodesWellTyped(trs: seq<Transition>)
    ensures AllWellTyped(BuildNodes(trs))
    decreases |trs|
  {
    if trs != [] {
      BuildNodesWellTyped(trs[..|trs| - 1]);
      AddWellTyped(BuildNodes(trs[..|trs| - 1]), trs[|trs| - 1]);
    }
  }

  /**
   * Every output node is pending; only `start` and `end` carry a type
   * (`input` and `output`); every other node's id is its label's id.
   */
  lemma NodesWellTyped(code: string)
    ensures AllWellTyped(StateDiagram(code).nodes)
  {
    var trs := TransitionsOf(code);
    var m := BuildNodes(trs);
    BuildNodesWellTyped(trs);
    SynthesizeWellTyped(m, RawEdges(trs), HasKind(m, StartId, InputKind), HasKind(m, EndId, OutputKind));
    UnplacedIsResult(code);
    LayoutKeepsNodes(Unplaced(code).nodes);
  }

  lemma SynthesizeWellTyped(m: seq<DiagramNode>, es: seq<DiagramEdge>, hasStart: bool, hasEnd: bool)
    requires UniqueIds(m) && AllWellTyped(m)
    ensures AllWellTyped(Synthesize(m, es, hasStart, hasEnd).nodes)
  {
    if es != [] {
      var s := SynthesizeStart(m, es, hasStart);
      if s != ParsedDiagram(m, es) {
        PutWellTyped(m, StartNode());
      }
      var d := SynthesizeEnd(s, hasEnd);
      if d != s {
        PutWellTyped(s.nodes, EndNode());
      }
    }
  }

  // ----- The layout -----

  /** Counting middle nodes over a longer prefix counts at least as many, and one more past a middle node. */
  lemma {:induction false} MiddleCountGrows(m: seq<DiagramNode>, i: nat, j: nat)
    requires i < j <= |m|
    ensures MiddleCount(m[..i]) + (if IsMiddle(m[i]) then 1 else 0) <= MiddleCount(m[..j])
    decreases j
  {
    assert m[..j][..j - 1] == m[..j - 1];
    if j - 1 > i {
      MiddleCountGrows(m, i, j - 1);
    }
  }

  /** Past the last middle node the count does not change. */
  lemma {:induction false} MiddleCountSettles(m: seq<DiagramNode>, i: nat, j: nat)
    requires i <= j <= |m|
    requires forall k :: i <= k < j ==> !IsMiddle(m[k])
    ensures MiddleCount(m[..i]) == MiddleCount(m[..j])
    decreases j
  {
    if j > i {
      assert m[..j][..j - 1] == m[..j - 1];
      MiddleCountSettles(m, i, j - 1);
    }
  }

  /**
   * The layout is one row in map order: `start` is left of every other
   * node, consecutive middle nodes are at least one step apart, and `end`
   * is right of every other node, one step right of the last middle node.
   */
  lemma LayoutOrder(m: seq<DiagramNode>)
    ensures forall i, j :: 0 <= i < j < |m| && IsMiddle(m[i]) && IsMiddle(m[j]) ==>
      Layout(m)[i].position.x + Step <= Layout(m)[j].position.x
    ensures forall i, j :: 0 <= i < |m| && 0 <= j < |m| && m[i].id == StartId && m[j].id != StartId ==>
      Layout(m)[i].position.x < Layout(m)[j].position.x
    ensures forall i, j :: 0 <= i < |m| && 0 <= j < |m| && m[j].id == EndId && m[i].id != EndId ==>
      Layout(m)[i].position.x < Layout(m)[j].position.x
    ensures forall i, j :: (0 <= i < |m| && 0 <= j < |m| && IsMiddle(m[i]) && m[j].id == EndId &&
                            (forall k :: i < k < |m| ==> !IsMiddle(m[k]))) ==>
      Layout(m)[j].position.x == Layout(m)[i].position.x + Step
  {
    forall i, j | 0 <= i < j < |m| && IsMiddle(m[i]) && IsMiddle(m[j])
      ensures Layout(m)[i].position.x + Step <= Layout(m)[j].position.x
    {
      MiddleCountGrows(m, i, j);
    }
    forall i | 0 <= i < |m| && IsMiddle(m[i])
      ensures MiddleCount(m[..i]) + 1 <= MiddleCount(m)
    {
      MiddleCountGrows(m, i, |m|);
      assert m[..|m|] == m;
    }
    forall i | 0 <= i < |m| && IsMiddle(m[i]) && (forall k :: i < k < |m| ==> !IsMiddle(m[k]))
      ensures MiddleCount(m[..i]) + 1 == MiddleCount(m)
    {
      assert m[..i + 1][..i] == m[..i];
      MiddleCountSettles(m, i + 1, |m|);
      assert m[..|m|] == m;
    }
  }
}
