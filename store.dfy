/**
 * `useStateMachineStore`: the installed diagram and the simulation cursor
 * that walks it. The value `Simulation` and the functions `Reset`, `Next`,
 * `Previous` and `Stop` specify the commands; the class `StateMachineStore`
 * holds the fields and performs the commands in place.
 */
module Store {
  import opened Wrappers
  import opened Lookup
  import opened Diagram

  /** The simulation fields of the store at one moment. */
  datatype Simulation = Simulation(
    nodes: seq<DiagramNode>,
    edges: seq<DiagramEdge>,
    currentNodeId: Option<string>,
    visitedNodeIds: set<string>,
    stopped: bool)

  /** `!currentNodeId`: there is no current node, or its id is the empty string, which is falsy too. */
  predicate NoCurrent(current: Option<string>) {
    current.None? || current.value == ""
  }

  /** The node `nextState` starts from: the one with id `start` or of type `input`. */
  predicate IsStartCandidate(n: DiagramNode) {
    n.id == StartId || n.kind == Some(InputKind)
  }

  /** A node `canGoForward` refuses to leave: `end`, or of type `output`. */
  predicate IsExit(n: DiagramNode) {
    n.id == EndId || n.kind == Some(OutputKind)
  }

  /** `edges.filter(edge => edge.source === c)`. */
  function Outgoing(es: seq<DiagramEdge>, c: string): (r: seq<DiagramEdge>)
    ensures forall k :: 0 <= k < |r| ==> r[k].source == c && r[k] in es
    ensures r == [] <==> forall k :: 0 <= k < |es| ==> es[k].source != c
    ensures r != [] ==> exists j :: 0 <= j < |es| && r[0] == es[j] && forall i :: 0 <= i < j ==> es[i].source != c
  {
    Filter(es, (e: DiagramEdge) => e.source == c)
  }

  /** `edges.filter(edge => edge.target === c)`. */
  function Incoming(es: seq<DiagramEdge>, c: string): (r: seq<DiagramEdge>)
    ensures forall k :: 0 <= k < |r| ==> r[k].target == c && r[k] in es
    ensures r == [] <==> forall k :: 0 <= k < |es| ==> es[k].target != c
    ensures r != [] ==> exists j :: 0 <= j < |es| && r[0] == es[j] && forall i :: 0 <= i < j ==> es[i].target != c
  {
    Filter(es, (e: DiagramEdge) => e.target == c)
  }

  /** `b` is `a` with only node statuses changed. */
  predicate StatusOnly(a: seq<DiagramNode>, b: seq<DiagramNode>) {
    |b| == |a| && forall k :: 0 <= k < |a| ==> b[k].(status := a[k].status) == a[k]
  }

  /** `b` is `a` with only `animated` flags changed. */
  predicate AnimationOnly(a: seq<DiagramEdge>, b: seq<DiagramEdge>) {
    |b| == |a| && forall k :: 0 <= k < |a| ==> b[k].(animated := a[k].animated) == a[k]
  }

  /** Every node `pending`. */
  function AllPending(ns: seq<DiagramNode>): (r: seq<DiagramNode>)
    ensures StatusOnly(ns, r)
  {
    seq(|ns|, k requires 0 <= k < |ns| => ns[k].(status := Pending))
  }

  /** The node `id` `active`, every other node `pending`. */
  function Started(ns: seq<DiagramNode>, id: string): (r: seq<DiagramNode>)
    ensures StatusOnly(ns, r)
  {
    seq(|ns|, k requires 0 <= k < |ns| => ns[k].(status := if ns[k].id == id then Active else Pending))
  }

  /** Moving forward from `c` to `t`: `c` `done`, then `t` `active`; the rest as they were. */
  function Advanced(ns: seq<DiagramNode>, c: string, t: string): (r: seq<DiagramNode>)
    ensures StatusOnly(ns, r)
  {
    seq(|ns|, k requires 0 <= k < |ns| =>
      if ns[k].id == c then ns[k].(status := Done)
      else if ns[k].id == t then ns[k].(status := Active)
      else ns[k])
  }

  /** Moving back from `c` to `p`: `c` `pending`, then `p` `active`; the rest as they were. */
  function Retreated(ns: seq<DiagramNode>, c: string, p: string): (r: seq<DiagramNode>)
    ensures StatusOnly(ns, r)
  {
    seq(|ns|, k requires 0 <= k < |ns| =>
      if ns[k].id == c then ns[k].(status := Pending)
      else if ns[k].id == p then ns[k].(status := Active)
      else ns[k])
  }

  /** The node `c` `error`; the rest as they were. */
  function Errored(ns: seq<DiagramNode>, c: string): (r: seq<DiagramNode>)
    ensures StatusOnly(ns, r)
  {
    seq(|ns|, k requires 0 <= k < |ns| => if ns[k].id == c then ns[k].(status := Error) else ns[k])
  }

  /** Every edge's `animated` set to whether it runs from `s` to `t`. */
  function Animated(es: seq<DiagramEdge>, s: string, t: string): (r: seq<DiagramEdge>)
    ensures AnimationOnly(es, r)
  {
    seq(|es|, k requires 0 <= k < |es| => es[k].(animated := Some(es[k].source == s && es[k].target == t)))
  }

  /** The state `setDiagram(ns, es)` leaves. */
  function Installed(ns: seq<DiagramNode>, es: seq<DiagramEdge>): (r: Simulation)
    ensures r.nodes == ns && r.edges == es
    ensures r.currentNodeId == None && r.visitedNodeIds == {} && !r.stopped
  {
    Simulation(ns, es, None, {}, false)
  }

  /** `resetSimulation`. */
  function Reset(s: Simulation): (r: Simulation)
    ensures StatusOnly(s.nodes, r.nodes) && r.edges == s.edges
    ensures forall k :: 0 <= k < |r.nodes| ==> r.nodes[k].status == Pending
    ensures r.currentNodeId == None && r.visitedNodeIds == {} && !r.stopped
  {
    s.(nodes := AllPending(s.nodes), currentNodeId := None, visitedNodeIds := {}, stopped := false)
  }

  /** `nextState`. */
  function Next(s: Simulation): (r: Simulation)
    ensures StatusOnly(s.nodes, r.nodes) && AnimationOnly(s.edges, r.edges) && r.stopped == s.stopped
    ensures s.stopped ==> r == s
  {
    if s.stopped then s
    else if NoCurrent(s.currentNodeId) then
      match FirstIndex(s.nodes, IsStartCandidate)
      case None => s
      case Some(k) =>
        var id := s.nodes[k].id;
        s.(nodes := Started(s.nodes, id), currentNodeId := Some(id), visitedNodeIds := {id})
    else
      var c := s.currentNodeId.value;
      var outgoing := Outgoing(s.edges, c);
      if outgoing == [] then s
      else
        var t := outgoing[0].target;
        if !HasId(s.nodes, t) then s
        else
          s.(nodes := Advanced(s.nodes, c, t), edges := Animated(s.edges, c, t),
             currentNodeId := Some(t), visitedNodeIds := s.visitedNodeIds + {t})
  }

  /** `previousState`. */
  function Previous(s: Simulation): (r: Simulation)
    ensures StatusOnly(s.nodes, r.nodes) && AnimationOnly(s.edges, r.edges)
  {
    if NoCurrent(s.currentNodeId) || |s.visitedNodeIds| <= 1 then Reset(s)
    else
      var c := s.currentNodeId.value;
      var incoming := Incoming(s.edges, c);
      if incoming == [] then s
      else
        var p := incoming[0].source;
        if !HasId(s.nodes, p) then s
        else
          s.(nodes := Retreated(s.nodes, c, p), edges := Animated(s.edges, p, c),
             currentNodeId := Some(p), visitedNodeIds := s.visitedNodeIds - {c})
  }

  /** `stopSimulation`. */
  function Stop(s: Simulation): (r: Simulation)
    ensures StatusOnly(s.nodes, r.nodes) && r.edges == s.edges
    ensures r.currentNodeId == s.currentNodeId && r.visitedNodeIds == s.visitedNodeIds
  {
    if NoCurrent(s.currentNodeId) then s
    else s.(nodes := Errored(s.nodes, s.currentNodeId.value), stopped := true)
  }

  /** The store of the simulation. */
  class StateMachineStore {
    var nodes: seq<DiagramNode>
    var edges: seq<DiagramEdge>
    var currentNodeId: Option<string>
    var visitedNodeIds: set<string>
    var stopped: bool
    var diagramCode: string

    /** The simulation fields as one value. */
    function State(): Simulation
      reads this
    {
      Simulation(nodes, edges, currentNodeId, visitedNodeIds, stopped)
    }

    /** The store as created: nothing installed, no code. */
    constructor()
      ensures State() == Installed([], []) && diagramCode == ""
    {
      nodes, edges := [], [];
      currentNodeId := None;
      visitedNodeIds := {};
      stopped := false;
      diagramCode := "";
    }

    /** `setDiagram`: installs the graph and clears the cursor; the code is kept. */
    method SetDiagram(newNodes: seq<DiagramNode>, newEdges: seq<DiagramEdge>)
      modifies this`nodes, this`edges, this`currentNodeId, this`visitedNodeIds, this`stopped
      ensures State() == Installed(newNodes, newEdges)
    {
      nodes := newNodes;
      edges := newEdges;
      currentNodeId := None;
      visitedNodeIds := {};
      stopped := false;
    }

    /** `setDiagramCode`. */
    method SetDiagramCode(code: string)
      modifies this`diagramCode
      ensures diagramCode == code
    {
      diagramCode := code;
    }

    /** `resetSimulation`: edges, and so their `animated` flags, are left as they are. */
    method ResetSimulation()
      modifies this`nodes, this`currentNodeId, this`visitedNodeIds, this`stopped
      ensures State() == Reset(old(State()))
    {
      currentNodeId := None;
      visitedNodeIds := {};
      stopped := false;
      nodes := AllPending(nodes);
    }

    /** `nextState`. */
    method NextState()
      modifies this`nodes, this`edges, this`currentNodeId, this`visitedNodeIds
      ensures State() == Next(old(State()))
    {
      var currentId, isStopped := currentNodeId, stopped;
      if isStopped {
        return;
      }

      if NoCurrent(currentId) {
        var startIndex := FirstIndex(nodes, IsStartCandidate);
        if startIndex.None? {
          return;
        }
        var startNode := nodes[startIndex.value];
        nodes := Started(nodes, startNode.id);
        currentNodeId := Some(startNode.id);
        visitedNodeIds := {startNode.id};
        return;
      }

      var c := currentId.value;
      var outgoingEdges := Outgoing(edges, c);
      if |outgoingEdges| == 0 {
        return;
      }
      var nextNodeId := outgoingEdges[0].target;
      var nextNode := GetNodeById(nextNodeId);
      if nextNode.None? {
        return;
      }

      visitedNodeIds := visitedNodeIds + {nextNodeId};
      nodes := Advanced(nodes, c, nextNodeId);
      edges := Animated(edges, c, nextNodeId);
      currentNodeId := Some(nextNodeId);
    }

    /** `previousState`: it does not look at `stopped`. */
    method PreviousState()
      modifies this`nodes, this`edges, this`currentNodeId, this`visitedNodeIds, this`stopped
      ensures State() == Previous(old(State()))
    {
      ghost var before := State();
      var currentId, visited := currentNodeId, visitedNodeIds;
      if NoCurrent(currentId) || |visited| <= 1 {
        ResetSimulation();
        return;
      }

      var c := currentId.value;
      var incomingEdges := Incoming(edges, c);
      if |incomingEdges| == 0 {
        return;
      }
      var prevNodeId := incomingEdges[0].source;
      var prevNode := GetNodeById(prevNodeId);
      if prevNode.None? {
        return;
      }

      StepBack(c, prevNodeId);
      assert State() == Previous(before);
    }

    /** The update `previousState` makes once it has found the predecessor. */
    method StepBack(c: string, prevNodeId: string)
      modifies this`nodes, this`edges, this`currentNodeId, this`visitedNodeIds
      ensures State() == old(State()).(nodes := Retreated(old(nodes), c, prevNodeId),
                                      edges := Animated(old(edges), prevNodeId, c),
                                      currentNodeId := Some(prevNodeId),
                                      visitedNodeIds := old(visitedNodeIds) - {c})
    {
      visitedNodeIds := visitedNodeIds - {c};
      nodes := Retreated(nodes, c, prevNodeId);
      edges := Animated(edges, prevNodeId, c);
      currentNodeId := Some(prevNodeId);
    }

    /** `stopSimulation`. */
    method StopSimulation()
      modifies this`nodes, this`stopped
      ensures State() == Stop(old(State()))
    {
      var currentId := currentNodeId;
      if NoCurrent(currentId) {
        return;
      }
      nodes := Errored(nodes, currentId.value);
      stopped := true;
    }

    /** `getNodeStatus`: the status of the first node with that id, `pending` when there is none. */
    function GetNodeStatus(nodeId: string): (r: NodeStatus)
      reads this
      ensures !HasId(nodes, nodeId) ==> r == Pending
      ensures forall k :: 0 <= k < |nodes| && nodes[k].id == nodeId && (forall j :: 0 <= j < k ==> nodes[j].id != nodeId)
                ==> r == nodes[k].status
    {
      match IndexOfId(nodes, nodeId)
      case None => Pending
      case Some(k) => nodes[k].status
    }

    /** `getNodeById`: the first node with that id, if any. */
    function GetNodeById(nodeId: string): (r: Option<DiagramNode>)
      reads this
      ensures r.None? <==> !HasId(nodes, nodeId)
      ensures r.Some? ==> r.value.id == nodeId
      ensures forall k :: 0 <= k < |nodes| && nodes[k].id == nodeId && (forall j :: 0 <= j < k ==> nodes[j].id != nodeId)
                ==> r == Some(nodes[k])
    {
      match IndexOfId(nodes, nodeId)
      case None => None
      case Some(k) => Some(nodes[k])
    }

    /**
     * `canGoForward`: never when stopped; before the start whenever there is
     * a node; otherwise when the current node is not an exit and has an
     * outgoing edge.
     */
    function CanGoForward(): (r: bool)
      reads this
      ensures stopped ==> !r
      ensures !stopped && NoCurrent(currentNodeId) ==> (r <==> |nodes| > 0)
      ensures !stopped && !NoCurrent(currentNodeId) ==>
        (r <==> (GetNodeById(currentNodeId.value).None? || !IsExit(GetNodeById(currentNodeId.value).value))
                && exists k :: 0 <= k < |edges| && edges[k].source == currentNodeId.value)
    {
      if stopped then false
      else if NoCurrent(currentNodeId) then |nodes| > 0
      else
        var currentNode := GetNodeById(currentNodeId.value);
        if currentNode.Some? && IsExit(currentNode.value) then false
        else |Outgoing(edges, currentNodeId.value)| > 0
    }

    /** `canGoBackward`: a current node and more than one visited node. */
    function CanGoBackward(): (r: bool)
      reads this
      ensures r <==> currentNodeId.Some? && currentNodeId.value != "" && |visitedNodeIds| > 1
    {
      !NoCurrent(currentNodeId) && |visitedNodeIds| > 1
    }
  }
}
