/** `generateDiagram` of `Editor.tsx`: the parser composed with `setDiagram` and `resetSimulation`. */
module Editor {
  import opened Wrappers
  import opened Lookup
  import opened Diagram
  import opened Parser
  import opened ParserProperties
  import opened Store
  import opened StoreProperties

  const NoStatesError: string := "No valid states found in the diagram. Please check your syntax."

  /**
   * Parses the store's code; with no nodes it reports `NoStatesError` and
   * leaves the simulation alone, otherwise it installs the diagram and resets.
   */
  method GenerateDiagram(store: StateMachineStore) returns (error: Option<string>)
    modifies store
    ensures store.diagramCode == old(store.diagramCode)
    ensures StateDiagram(old(store.diagramCode)).nodes == [] ==>
      error == Some(NoStatesError) && store.State() == old(store.State())
    ensures StateDiagram(old(store.diagramCode)).nodes != [] ==>
      error == None && store.State() == Generated(old(store.diagramCode))
  {
    var d := ParseStateDiagram(store.diagramCode);
    if |d.nodes| == 0 {
      return Some(NoStatesError);
    }
    Install(store, d);
    error := None;
  }

  /** `setDiagram(nodes, edges)` followed by `resetSimulation()`. */
  method Install(store: StateMachineStore, d: ParsedDiagram)
    modifies store
    ensures store.diagramCode == old(store.diagramCode)
    ensures store.State() == Reset(Installed(d.nodes, d.edges))
  {
    store.SetDiagram(d.nodes, d.edges);
    store.ResetSimulation();
  }

  /** The simulation `generateDiagram` installs for `code`. */
  function Generated(code: string): (s: Simulation)
    ensures StatusOnly(StateDiagram(code).nodes, s.nodes) && s.edges == StateDiagram(code).edges
    ensures forall k :: 0 <= k < |s.nodes| ==> s.nodes[k].status == Pending
  {
    var d := StateDiagram(code);
    Reset(Installed(d.nodes, d.edges))
  }

  /**
   * For code with at least one transition, the first step of the installed
   * simulation makes `start` current and its only visited node.
   */
  lemma FirstStepAtStart(code: string)
    requires TransitionsOf(code) != []
    ensures Next(Generated(code)).currentNodeId == Some(StartId)
    ensures Next(Generated(code)).visitedNodeIds == {StartId}
  {
    var d := StateDiagram(code);
    StartAndEndPresent(code);
    NodesWellTyped(code);
    FirstStepOf(d.nodes, d.edges);
  }

  /** The first step from a reset graph of well-typed nodes that has a `start` node. */
  lemma FirstStepOf(ns: seq<DiagramNode>, es: seq<DiagramEdge>)
    requires AllWellTyped(ns) && HasId(ns, StartId)
    ensures Next(Reset(Installed(ns, es))).currentNodeId == Some(StartId)
    ensures Next(Reset(Installed(ns, es))).visitedNodeIds == {StartId}
  {
    var s := Reset(Installed(ns, es));
    StatusOnlyKeepsIds(ns, s.nodes);
    var k := IndexOfId(ns, StartId).value;
    forall j | 0 <= j <= k ensures IsStartCandidate(s.nodes[j]) <==> j == k {
      assert s.nodes[j].(status := ns[j].status) == ns[j];
      assert WellTyped(ns[j]);
    }
    NextFromNoCurrent(s, k);
  }

  /** Whatever commands follow `generateDiagram`, at most one node is `active`, and it is the current node. */
  lemma GeneratedSingleActive(code: string, cmds: seq<Command>)
    ensures var r := Run(Generated(code), cmds);
      && ActiveIsCurrent(r.nodes, r.currentNodeId)
      && (forall i, j ::
            (0 <= i < |r.nodes| && 0 <= j < |r.nodes| && r.nodes[i].status == Active && r.nodes[j].status == Active)
            ==> i == j)
  {
    var ns := StateDiagram(code).nodes;
    var s := Generated(code);
    var r := Run(s, cmds);
    NodeIdsUnique(code);
    ResetConsistent(Installed(ns, StateDiagram(code).edges));
    RunKeeps(s, cmds);
    StatusOnlyTransitive(ns, s.nodes, r.nodes);
    StatusOnlyKeepsIds(ns, r.nodes);
    AtMostOneActive(r.nodes, r.currentNodeId);
  }
}
