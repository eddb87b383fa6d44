/** What the store's commands and queries guarantee, proved about `Store`'s specification functions. */
module StoreProperties {
  import opened Wrappers
  import opened Lookup
  import opened Diagram
  import opened Store

  // ----- The single-active-node invariant -----

  /** Any `active` node is the current node. */
  predicate ActiveIsCurrent(ns: seq<DiagramNode>, current: Option<string>) {
    forall k :: 0 <= k < |ns| && ns[k].status == Active ==> current == Some(ns[k].id)
  }

  /**
   * Any `active` node is current, and there is a current node exactly when
   * some node has been visited. The current node need not be among the
   * visited ones: `PreviousLeavesWalk` shows `previousState` reaching a node
   * the walk never visited.
   */
  predicate Consistent(s: Simulation) {
    ActiveIsCurrent(s.nodes, s.currentNodeId) && (s.currentNodeId.None? <==> s.visitedNodeIds == {})
  }

  /** Installing a graph none of whose nodes is `active` gives a consistent state. */
  lemma InstalledConsistent(ns: seq<DiagramNode>, es: seq<DiagramEdge>)
    requires forall k :: 0 <= k < |ns| ==> ns[k].status != Active
    ensures Consistent(Installed(ns, es))
  {
  }

  lemma ResetConsistent(s: Simulation)
    ensures Consistent(Reset(s))
  {
  }

  /** `nextState` keeps the invariant: the old current node is left `done`, only the target becomes `active`. */
  lemma NextConsistent(s: Simulation)
    requires Consistent(s)
    ensures Consistent(Next(s))
  {
    var r := Next(s);
    if r != s {
      assert r.visitedNodeIds != {} && r.currentNodeId.Some?;
      var id := r.currentNodeId.value;
      forall k | 0 <= k < |r.nodes| && r.nodes[k].status == Active
        ensures r.nodes[k].id == id
      {
        assert r.nodes[k].id == s.nodes[k].id;
      }
    }
  }

  /** `previousState` keeps the invariant: more than one node was visited, so one is left. */
  lemma PreviousConsistent(s: Simulation)
    requires Consistent(s)
    ensures Consistent(Previous(s))
  {
    var r := Previous(s);
    if !(NoCurrent(s.currentNodeId) || |s.visitedNodeIds| <= 1) {
      var c := s.currentNodeId.value;
      if r.visitedNodeIds == {} {
        assert s.visitedNodeIds <= {c};
        SubsetOfSingleton(s.visitedNodeIds, c);
      }
    }
    forall k | 0 <= k < |r.nodes| && r.nodes[k].status == Active
      ensures r.currentNodeId == Some(r.nodes[k].id)
    {
      assert r.nodes[k].id == s.nodes[k].id;
    }
  }

  lemma SubsetOfSingleton(v: set<string>, c: string)
    requires v <= {c}
    ensures |v| <= 1
  {
    if c in v {
      assert v == {c};
    } else {
      assert v == {};
    }
  }

  lemma StopConsistent(s: Simulation)
    requires Consistent(s)
    ensures Consistent(Stop(s))
  {
    var r := Stop(s);
    forall k | 0 <= k < |r.nodes| && r.nodes[k].status == Active
      ensures r.currentNodeId == Some(r.nodes[k].id)
    {
      assert r.nodes[k].id == s.nodes[k].id;
    }
  }

  /** Changing statuses keeps ids, so it keeps them distinct. */
  lemma StatusOnlyKeepsIds(a: seq<DiagramNode>, b: seq<DiagramNode>)
    requires StatusOnly(a, b)
    ensures forall k :: 0 <= k < |a| ==> b[k].id == a[k].id
    ensures UniqueIds(a) ==> UniqueIds(b)
  {
    forall k | 0 <= k < |a| ensures b[k].id == a[k].id {
      assert b[k].(status := a[k].status) == a[k];
    }
  }

  lemma StatusOnlyTransitive(a: seq<DiagramNode>, b: seq<DiagramNode>, c: seq<DiagramNode>)
    requires StatusOnly(a, b) && StatusOnly(b, c)
    ensures StatusOnly(a, c)
  {
    forall k | 0 <= k < |a| ensures c[k].(status := a[k].status) == a[k] {
      assert b[k].(status := a[k].status) == a[k];
      assert c[k].(status := b[k].status) == b[k];
    }
  }

  /** With distinct ids, at most one node is `active`. */
  lemma AtMostOneActive(ns: seq<DiagramNode>, current: Option<string>)
    requires UniqueIds(ns) && ActiveIsCurrent(ns, current)
    ensures forall i, j :: 0 <= i < |ns| && 0 <= j < |ns| && ns[i].status == Active && ns[j].status == Active ==> i == j
  {
  }

  /** The store's commands after `setDiagram`. */
  datatype Command = ResetCommand | NextCommand | PreviousCommand | StopCommand

  function Apply(s: Simulation, c: Command): Simulation {
    match c
    case ResetCommand => Reset(s)
    case NextCommand => Next(s)
    case PreviousCommand => Previous(s)
    case StopCommand => Stop(s)
  }

  /** The state after performing `cmds` in order. */
  function Run(s: Simulation, cmds: seq<Command>): Simulation
    decreases |cmds|
  {
    if cmds == [] then s else Apply(Run(s, cmds[..|cmds| - 1]), cmds[|cmds| - 1])
  }

  lemma ApplyKeeps(s: Simulation, c: Command)
    requires Consistent(s)
    ensures Consistent(Apply(s, c)) && StatusOnly(s.nodes, Apply(s, c).nodes)
  {
    match c
    case ResetCommand => ResetConsistent(s);
    case NextCommand => NextConsistent(s);
    case PreviousCommand => PreviousConsistent(s);
    case StopCommand => StopConsistent(s);
  }

  lemma {:induction false} RunKeeps(s: Simulation, cmds: seq<Command>)
    requires Consistent(s)
    ensures Consistent(Run(s, cmds)) && StatusOnly(s.nodes, Run(s, cmds).nodes)
    decreases |cmds|
  {
    if cmds == [] {
      assert StatusOnly(s.nodes, s.nodes);
    } else {
      var before := Run(s, cmds[..|cmds| - 1]);
      RunKeeps(s, cmds[..|cmds| - 1]);
      ApplyKeeps(before, cmds[|cmds| - 1]);
      StatusOnlyTransitive(s.nodes, before.nodes, Run(s, cmds).nodes);
    }
  }

  /**
   * Starting from `setDiagram` with distinct ids and no `active` node, after
   * any sequence of commands at most one node is `active`, and an `active`
   * node is the current node.
   */
  lemma SingleActiveNode(ns: seq<DiagramNode>, es: seq<DiagramEdge>, cmds: seq<Command>)
    requires UniqueIds(ns)
    requires forall k :: 0 <= k < |ns| ==> ns[k].status != Active
    ensures var r := Run(Installed(ns, es), cmds);
      && ActiveIsCurrent(r.nodes, r.currentNodeId)
      && (forall i, j ::
            (0 <= i < |r.nodes| && 0 <= j < |r.nodes| && r.nodes[i].status == Active && r.nodes[j].status == Active)
            ==> i == j)
  {
    var r := Run(Installed(ns, es), cmds);
    InstalledConsistent(ns, es);
    RunKeeps(Installed(ns, es), cmds);
    StatusOnlyKeepsIds(ns, r.nodes);
    AtMostOneActive(r.nodes, r.currentNodeId);
  }

  // ----- nextState -----

  /**
   * With no current node, `nextState` starts at the first node that is
   * `start` or of type `input`: it alone (by id) becomes `active`, every
   * other node `pending`, and it is the only visited node.
   */
  lemma NextFromNoCurrent(s: Simulation, k: nat)
    requires !s.stopped && NoCurrent(s.currentNodeId)
    requires k < |s.nodes| && IsStartCandidate(s.nodes[k])
    requires forall j :: 0 <= j < k ==> !IsStartCandidate(s.nodes[j])
    ensures var r := Next(s); var id := s.nodes[k].id;
      && r.currentNodeId == Some(id) && r.visitedNodeIds == {id} && r.edges == s.edges
      && forall j :: 0 <= j < |s.nodes| ==> r.nodes[j].status == (if s.nodes[j].id == id then Active else Pending)
  {
    assert FirstIndex(s.nodes, IsStartCandidate) == Some(k);
  }

  /** `nextState` does nothing when stopped, or with no current node and no start candidate. */
  lemma NextIdleWithoutStart(s: Simulation)
    requires s.stopped || (NoCurrent(s.currentNodeId) && forall j :: 0 <= j < |s.nodes| ==> !IsStartCandidate(s.nodes[j]))
    ensures Next(s) == s
  {
  }

  /**
   * With a current node `c`, `nextState` follows the first outgoing edge in
   * stored order to `t`: `c` becomes `done`, `t` `active` (unless `t` is
   * `c`), other nodes are unchanged; exactly the edges from `c` to `t` are
   * animated; `t` joins the visited set and becomes current.
   */
  lemma NextAlongFirstEdge(s: Simulation, j: nat)
    requires !s.stopped && !NoCurrent(s.currentNodeId)
    requires j < |s.edges| && s.edges[j].source == s.currentNodeId.value
    requires forall i :: 0 <= i < j ==> s.edges[i].source != s.currentNodeId.value
    requires HasId(s.nodes, s.edges[j].target)
    ensures var r := Next(s); var c := s.currentNodeId.value; var t := s.edges[j].target;
      && r.currentNodeId == Some(t) && r.visitedNodeIds == s.visitedNodeIds + {t} && r.stopped == s.stopped
      && (forall k :: 0 <= k < |s.nodes| ==>
            r.nodes[k].status == (if s.nodes[k].id == c then Done else if s.nodes[k].id == t then Active else s.nodes[k].status))
      && (forall k :: 0 <= k < |s.edges| ==>
            r.edges[k].animated == Some(s.edges[k].source == c && s.edges[k].target == t))
  {
    FirstOutgoingIs(s.edges, s.currentNodeId.value, j);
  }

  lemma FirstOutgoingIs(es: seq<DiagramEdge>, c: string, j: nat)
    requires j < |es| && es[j].source == c
    requires forall i :: 0 <= i < j ==> es[i].source != c
    ensures Outgoing(es, c) != [] && Outgoing(es, c)[0] == es[j]
  {
    var out := Outgoing(es, c);
    assert out != [];
    var j' :| 0 <= j' < |es| && out[0] == es[j'] && forall i :: 0 <= i < j' ==> es[i].source != c;
    assert j' == j by {
      assert j' <= j by { assert es[j'].source == c; }
    }
  }

  lemma FirstIncomingIs(es: seq<DiagramEdge>, c: string, j: nat)
    requires j < |es| && es[j].target == c
    requires forall i :: 0 <= i < j ==> es[i].target != c
    ensures Incoming(es, c) != [] && Incoming(es, c)[0] == es[j]
  {
    var inc := Incoming(es, c);
    assert inc != [];
    var j' :| 0 <= j' < |es| && inc[0] == es[j'] && forall i :: 0 <= i < j' ==> es[i].target != c;
    assert j' == j by {
      assert j' <= j by { assert es[j'].target == c; }
    }
  }

  /** `nextState` does nothing when the current node has no outgoing edge or its first target is not a node. */
  lemma NextIdleAtDeadEnd(s: Simulation)
    requires !s.stopped && !NoCurrent(s.currentNodeId)
    requires (forall k :: 0 <= k < |s.edges| ==> s.edges[k].source != s.currentNodeId.value)
          || !HasId(s.nodes, Outgoing(s.edges, s.currentNodeId.value)[0].target)
    ensures Next(s) == s
  {
  }

  /** Revisiting a node along a cycle does not grow the visited set. */
  lemma CycleKeepsVisited(s: Simulation, j: nat)
    requires !s.stopped && !NoCurrent(s.currentNodeId)
    requires j < |s.edges| && s.edges[j].source == s.currentNodeId.value
    requires forall i :: 0 <= i < j ==> s.edges[i].source != s.currentNodeId.value
    requires HasId(s.nodes, s.edges[j].target) && s.edges[j].target in s.visitedNodeIds
    ensures Next(s).visitedNodeIds == s.visitedNodeIds
  {
    NextAlongFirstEdge(s, j);
  }

  // ----- previousState -----

  /** With no current node or at most one visited node, `previousState` is `resetSimulation`, stopped or not. */
  lemma PreviousAtStartResets(s: Simulation)
    requires NoCurrent(s.currentNodeId) || |s.visitedNodeIds| <= 1
    ensures Previous(s) == Reset(s)
  {
  }

  /**
   * Otherwise it follows the first incoming edge of the current node `c`
   * back to `p`: `c` becomes `pending`, `p` `active` (unless `p` is `c`),
   * other nodes are unchanged; exactly the edges from `p` to `c` are
   * animated; `c` leaves the visited set and `p` becomes current. It does
   * this whether or not the simulation is stopped, and leaves `stopped` as
   * it was.
   */
  lemma PreviousAlongFirstEdge(s: Simulation, j: nat)
    requires !NoCurrent(s.currentNodeId) && |s.visitedNodeIds| > 1
    requires j < |s.edges| && s.edges[j].target == s.currentNodeId.value
    requires forall i :: 0 <= i < j ==> s.edges[i].target != s.currentNodeId.value
    requires HasId(s.nodes, s.edges[j].source)
    ensures var r := Previous(s); var c := s.currentNodeId.value; var p := s.edges[j].source;
      && r.currentNodeId == Some(p) && r.visitedNodeIds == s.visitedNodeIds - {c} && r.stopped == s.stopped
      && (forall k :: 0 <= k < |s.nodes| ==>
            r.nodes[k].status == (if s.nodes[k].id == c then Pending else if s.nodes[k].id == p then Active else s.nodes[k].status))
      && (forall k :: 0 <= k < |s.edges| ==>
            r.edges[k].animated == Some(s.edges[k].source == p && s.edges[k].target == c))
  {
    FirstIncomingIs(s.edges, s.currentNodeId.value, j);
  }

  /** `previousState` does nothing when the current node has no incoming edge or its first source is not a node. */
  lemma PreviousIdleAtSource(s: Simulation)
    requires !NoCurrent(s.currentNodeId) && |s.visitedNodeIds| > 1
    requires (forall k :: 0 <= k < |s.edges| ==> s.edges[k].target != s.currentNodeId.value)
          || !HasId(s.nodes, Incoming(s.edges, s.currentNodeId.value)[0].source)
    ensures Previous(s) == s
  {
  }

  /** A three-node graph in which `b` has an incoming edge from `c` before the one from `start`. */
  function DetourNodes(): seq<DiagramNode> {
    [StartNode(), PlainNode("b", "B"), PlainNode("c", "C")]
  }

  function DetourEdges(): seq<DiagramEdge> {
    [MakeEdge("c", "b"), MakeEdge(StartId, "b")]
  }

  /**
   * `previousState` does not retrace the walk: it follows the current node's
   * FIRST incoming edge, which need not be the edge the walk arrived by. On
   * the graph above, two steps forward go `start`, then `b`; one step back
   * then makes `c` current, a node the walk never visited, and leaves only
   * `start` visited, so `canGoBackward` is false while `c` is current.
   */
  lemma PreviousLeavesWalk()
    ensures var s := Previous(Next(Next(Reset(Installed(DetourNodes(), DetourEdges())))));
      && s.currentNodeId == Some("c") && "c" !in s.visitedNodeIds
      && s.visitedNodeIds == {StartId} && |s.visitedNodeIds| <= 1
  {
    var s0 := Reset(Installed(DetourNodes(), DetourEdges()));
    assert DetourShape(s0) && !s0.stopped && s0.currentNodeId == None;
    DetourStart(s0);
    var s1 := Next(s0);
    DetourAdvance(s1);
    DetourBack(Next(s1));
  }

  /** The ids and endpoints of the detour graph, whatever the statuses and flags. */
  predicate DetourShape(s: Simulation) {
    && |s.nodes| == 3 && s.nodes[0].id == StartId && IsStartCandidate(s.nodes[0])
    && s.nodes[1].id == "b" && s.nodes[2].id == "c"
    && |s.edges| == 2 && s.edges[0].source == "c" && s.edges[0].target == "b"
    && s.edges[1].source == StartId && s.edges[1].target == "b"
  }

  lemma StatusAndAnimationKeepShape(s: Simulation, r: Simulation)
    requires DetourShape(s) && StatusOnly(s.nodes, r.nodes) && AnimationOnly(s.edges, r.edges)
    ensures DetourShape(r)
  {
    assert r.nodes[0].(status := s.nodes[0].status) == s.nodes[0];
    assert r.nodes[1].(status := s.nodes[1].status) == s.nodes[1];
    assert r.nodes[2].(status := s.nodes[2].status) == s.nodes[2];
    assert r.edges[0].(animated := s.edges[0].animated) == s.edges[0];
    assert r.edges[1].(animated := s.edges[1].animated) == s.edges[1];
  }

  lemma DetourStart(s: Simulation)
    requires DetourShape(s) && !s.stopped && s.currentNodeId == None
    ensures var r := Next(s);
      DetourShape(r) && !r.stopped && r.currentNodeId == Some(StartId) && r.visitedNodeIds == {StartId}
  {
    NextFromNoCurrent(s, 0);
    StatusAndAnimationKeepShape(s, Next(s));
  }

  lemma DetourAdvance(s: Simulation)
    requires DetourShape(s) && !s.stopped && s.currentNodeId == Some(StartId) && s.visitedNodeIds == {StartId}
    ensures var r := Next(s);
      DetourShape(r) && r.currentNodeId == Some("b") && r.visitedNodeIds == {StartId, "b"}
  {
    assert HasId(s.nodes, s.nodes[1].id);
    NextAlongFirstEdge(s, 1);
    StatusAndAnimationKeepShape(s, Next(s));
  }

  lemma DetourBack(s: Simulation)
    requires DetourShape(s) && s.currentNodeId == Some("b") && s.visitedNodeIds == {StartId, "b"}
    ensures Previous(s).currentNodeId == Some("c") && Previous(s).visitedNodeIds == {StartId}
  {
    assert |s.visitedNodeIds| == 2;
    assert HasId(s.nodes, s.nodes[2].id);
    PreviousAlongFirstEdge(s, 0);
    assert s.visitedNodeIds - {"b"} == {StartId};
  }

  // ----- stopSimulation -----

  /** `stopSimulation` marks the current node (by id) `error` and stops; nothing else changes. */
  lemma StopMarksCurrent(s: Simulation)
    requires !NoCurrent(s.currentNodeId)
    ensures var r := Stop(s);
      && r.stopped && r.currentNodeId == s.currentNodeId
      && forall k :: 0 <= k < |s.nodes| ==>
           r.nodes[k].status == (if s.nodes[k].id == s.currentNodeId.value then Error else s.nodes[k].status)
  {
  }

  lemma StopIdleWithoutCurrent(s: Simulation)
    requires NoCurrent(s.currentNodeId)
    ensures Stop(s) == s
  {
  }

  // ----- The queries against the commands -----

  /** When `canGoBackward` is false, `previousState` resets. */
  lemma BackwardDisabledResets(store: StateMachineStore)
    requires !store.CanGoBackward()
    ensures Previous(store.State()) == Reset(store.State())
  {
  }

  /**
   * When `canGoForward` holds at a current node whose edges all end at
   * nodes, `nextState` moves along its first outgoing edge.
   */
  lemma ForwardEnabledMoves(store: StateMachineStore)
    requires store.CanGoForward() && !NoCurrent(store.currentNodeId)
    requires forall k :: 0 <= k < |store.edges| ==> HasId(store.nodes, store.edges[k].target)
    ensures Outgoing(store.edges, store.currentNodeId.value) != []
    ensures Next(store.State()).currentNodeId == Some(Outgoing(store.edges, store.currentNodeId.value)[0].target)
  {
    var out := Outgoing(store.edges, store.currentNodeId.value);
    assert out != [];
    var j :| 0 <= j < |store.edges| && out[0] == store.edges[j];
  }

  /** When `canGoForward` holds with no current node and some node is a start candidate, `nextState` starts. */
  lemma ForwardEnabledStarts(store: StateMachineStore, k: nat)
    requires store.CanGoForward() && NoCurrent(store.currentNodeId)
    requires k < |store.nodes| && IsStartCandidate(store.nodes[k])
    ensures Next(store.State()).currentNodeId.Some?
  {
  }
}
