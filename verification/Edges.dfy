/** Edge inference as a whole: filter, sort, host phase, backbone. */
module Edges {
  import opened Domain
  import opened Seqs
  import opened Sorting
  import opened TopologyModel
  import opened HostPhase
  import opened Backbone

  /** An inferred link, with the rows an edge is copied from. */
  datatype Link = Link(sourceNode: Node, source: Port, targetNode: Node, target: Port, relation: Relation)

  function EdgeOf(l: Link): Edge {
    Edge(l.sourceNode.id, l.sourceNode.nodeGUID, l.source.portNum, l.source.portGUID,
         l.targetNode.id, l.targetNode.nodeGUID, l.target.portNum, l.target.portGUID,
         l.relation, l.source.linkWidthActive, l.source.linkSpeedActive, l.source.portState)
  }

  function EdgesOf(links: seq<Link>): (edges: seq<Edge>)
    ensures |edges| == |links|
  {
    seq(|links|, i requires 0 <= i < |links| => EdgeOf(links[i]))
  }

  // ---- Filtering ----

  /** Later rows replace earlier ones with the same id. */
  function NodesByID(nodes: seq<Node>): (m: map<int, Node>)
    ensures forall id | id in m :: m[id] in nodes && m[id].id == id
    ensures forall n | n in nodes :: n.id in m
  {
    if nodes == [] then map[]
    else NodesByID(nodes[..|nodes| - 1])[nodes[|nodes| - 1].id := nodes[|nodes| - 1]]
  }

  predicate IsActiveOfKind(port: Port, nodesByID: map<int, Node>, kinds: set<string>) {
    IsActivePort(port) && port.nodeID in nodesByID && NormalizeKind(nodesByID[port.nodeID].nodeKind) in kinds
  }

  function ActivePorts(ports: seq<Port>, nodesByID: map<int, Node>, kinds: set<string>): seq<Port> {
    Filter(ports, (p: Port) => IsActiveOfKind(p, nodesByID, kinds))
  }

  function OfKind(nodes: seq<Node>, kind: string): seq<Node> {
    Filter(nodes, (n: Node) => NormalizeKind(n.nodeKind) == kind)
  }

  lemma ActivePortsStep(ports: seq<Port>, i: nat, nodesByID: map<int, Node>, kinds: set<string>)
    requires i < |ports|
    ensures ActivePorts(ports[..i + 1], nodesByID, kinds) == ActivePorts(ports[..i], nodesByID, kinds) +
      if IsActiveOfKind(ports[i], nodesByID, kinds) then [ports[i]] else []
  {
    hide IsActiveOfKind;
    FilterAppend(ports[..i], [ports[i]], (p: Port) => IsActiveOfKind(p, nodesByID, kinds));
    assert ports[..i + 1] == ports[..i] + [ports[i]];
  }

  method ActivePortsForKinds(ports: seq<Port>, nodesByID: map<int, Node>, allowedKinds: set<string>)
    returns (out: seq<Port>)
    ensures out == ActivePorts(ports, nodesByID, allowedKinds)
  {
    out := [];
    for i := 0 to |ports|
      invariant out == ActivePorts(ports[..i], nodesByID, allowedKinds)
    {
      ActivePortsStep(ports, i, nodesByID, allowedKinds);
      if !IsActivePort(ports[i]) {
        continue;
      }
      if ports[i].nodeID !in nodesByID {
        continue;
      }
      if NormalizeKind(nodesByID[ports[i].nodeID].nodeKind) !in allowedKinds {
        continue;
      }
      out := out + [ports[i]];
    }
    assert ports[..|ports|] == ports;
  }

  // ---- Sorting and grouping ----

  method SortPorts(ports: seq<Port>) returns (sorted: seq<Port>)
    ensures IsSortOf(sorted, ports, PortLess)
  {
    ComparatorsAreStrictWeak();
    sorted := Sort(ports, PortLess);
  }

  method SortNodes(nodes: seq<Node>) returns (sorted: seq<Node>)
    ensures IsSortOf(sorted, nodes, NodeLess)
  {
    ComparatorsAreStrictWeak();
    sorted := Sort(nodes, NodeLess);
  }

  /** Every node's ports, sorted once more. */
  ghost predicate IsGroupingOf(groups: Groups, sp: seq<Port>) {
    && (forall n :: n in groups <==> PortsOf(sp, n) != [])
    && (forall n :: IsSortOf(PortsAt(groups, n), PortsOf(sp, n), PortLess))
  }

  /** The groups hold exactly the first `i` ports. */
  ghost predicate GroupsFirst(groups: Groups, ports: seq<Port>, i: nat)
    requires i <= |ports|
  {
    forall n :: (n in groups <==> PortsOf(ports[..i], n) != []) && PortsAt(groups, n) == PortsOf(ports[..i], n)
  }

  lemma PortsOfStep(ports: seq<Port>, i: nat, n: int)
    requires i < |ports|
    ensures PortsOf(ports[..i + 1], n) == PortsOf(ports[..i], n) + if ports[i].nodeID == n then [ports[i]] else []
  {
    FilterAppend(ports[..i], [ports[i]], (p: Port) => p.nodeID == n);
    assert ports[..i + 1] == ports[..i] + [ports[i]];
  }

  lemma GroupsStep(groups: Groups, ports: seq<Port>, i: nat)
    requires i < |ports|
    requires GroupsFirst(groups, ports, i)
    ensures GroupsFirst(groups[ports[i].nodeID := PortsAt(groups, ports[i].nodeID) + [ports[i]]], ports, i + 1)
  {
    var groups' := groups[ports[i].nodeID := PortsAt(groups, ports[i].nodeID) + [ports[i]]];
    forall n
      ensures (n in groups' <==> PortsOf(ports[..i + 1], n) != []) && PortsAt(groups', n) == PortsOf(ports[..i + 1], n)
    {
      PortsOfStep(ports, i, n);
    }
  }

  method GroupPortsByNodeID(ports: seq<Port>) returns (out: Groups)
    ensures IsGroupingOf(out, ports)
  {
    out := map[];
    for i := 0 to |ports|
      invariant GroupsFirst(out, ports, i)
    {
      GroupsStep(out, ports, i);
      out := out[ports[i].nodeID := PortsAt(out, ports[i].nodeID) + [ports[i]]];
    }
    assert ports[..|ports|] == ports;
    out := SortGroups(out);
  }

  /** Sorts every group in place; the order in which Go walks the map does not matter. */
  method SortGroups(groups: Groups) returns (out: Groups)
    ensures out.Keys == groups.Keys
    ensures forall n | n in groups :: IsSortOf(out[n], groups[n], PortLess)
  {
    out := groups;
    var todo := out.Keys;
    while todo != {}
      invariant todo <= groups.Keys == out.Keys
      invariant forall n | n in groups ::
        if n in todo then out[n] == groups[n] else IsSortOf(out[n], groups[n], PortLess)
      decreases todo
    {
      assert (forall n :: n !in todo) ==> todo == {};
      var nodeID :| nodeID in todo;
      var sorted := SortPorts(out[nodeID]);
      out := out[nodeID := sorted];
      todo := todo - {nodeID};
    }
  }

  // ---- The links of a run ----

  /** The intermediate lists of one run. Sorting ties are the only freedom a run has. */
  datatype Plan = Plan(
    nodesByID: map<int, Node>,
    hostPorts: seq<Port>,
    switchPorts: seq<Port>,
    switches: seq<Node>,
    groups: Groups)

  ghost predicate IsPlan(nodes: seq<Node>, ports: seq<Port>, plan: Plan) {
    && plan.nodesByID == NodesByID(nodes)
    && IsSortOf(plan.hostPorts, ActivePorts(ports, plan.nodesByID, {HOST}), PortLess)
    && IsSortOf(plan.switchPorts, ActivePorts(ports, plan.nodesByID, {SWITCH}), PortLess)
    && IsSortOf(plan.switches, OfKind(nodes, SWITCH), NodeLess)
    && IsGroupingOf(plan.groups, plan.switchPorts)
  }

  const NO_NODE := Node(0, 0, "", "", 0, "", 0, None)

  function Lookup(nodesByID: map<int, Node>, id: int): Node {
    if id in nodesByID then nodesByID[id] else NO_NODE
  }

  function HostLink(nodesByID: map<int, Node>, h: Port, s: Port): Link {
    Link(Lookup(nodesByID, h.nodeID), h, Lookup(nodesByID, s.nodeID), s, InferredHostSwitch)
  }

  /** Links of the first `n` host ports. */
  function HostLinks(nodesByID: map<int, Node>, hp: seq<Port>, sp: seq<Port>, n: nat): seq<Link>
    requires n <= |hp|
  {
    if n == 0 then [] else
      HostLinks(nodesByID, hp, sp, n - 1) +
      match HostPicks(hp, sp)[n - 1]
      case None => []
      case Some(j) => [HostLink(nodesByID, hp[n - 1], sp[j])]
  }

  function BackboneLinks(sw: seq<Node>, hops: seq<Hop>): seq<Link>
    requires hops == [] || |hops| < |sw|
  {
    if hops == [] then [] else
      var n := |hops|;
      BackboneLinks(sw, hops[..n - 1]) +
      if hops[n - 1].Linked() then
        [Link(sw[n - 1], hops[n - 1].source.value, sw[n], hops[n - 1].target.value, InferredSwitchBackbone)]
      else []
  }

  function HopCount(sw: seq<Node>): nat {
    if sw == [] then 0 else |sw| - 1
  }

  function UsedByHosts(plan: Plan): set<int> {
    TakenIDs(plan.switchPorts, HostPicks(plan.hostPorts, plan.switchPorts))
  }

  function PlanHops(plan: Plan): seq<Hop> {
    Hops(plan.switches, plan.groups, UsedByHosts(plan), HopCount(plan.switches), true)
  }

  function PlanHostLinks(plan: Plan): seq<Link> {
    HostLinks(plan.nodesByID, plan.hostPorts, plan.switchPorts, |plan.hostPorts|)
  }

  function PlanBackboneLinks(plan: Plan): seq<Link> {
    BackboneLinks(plan.switches, PlanHops(plan))
  }

  function PlanLinks(plan: Plan): seq<Link> {
    PlanHostLinks(plan) + PlanBackboneLinks(plan)
  }

  /** There is a plan for any input, whatever the sort makes of ties. */
  lemma PlanExists(nodes: seq<Node>, ports: seq<Port>) returns (plan: Plan)
    ensures IsPlan(nodes, ports, plan)
  {
    ComparatorsAreStrictWeak();
    var nodesByID := NodesByID(nodes);
    var sp := Sort(ActivePorts(ports, nodesByID, {SWITCH}), PortLess);
    var groups := GroupingExists(sp);
    plan := Plan(nodesByID, Sort(ActivePorts(ports, nodesByID, {HOST}), PortLess), sp,
                 Sort(OfKind(nodes, SWITCH), NodeLess), groups);
  }

  function NodesWithPorts(sp: seq<Port>): set<int> {
    set i | 0 <= i < |sp| :: sp[i].nodeID
  }

  lemma NodesWithPortsHaveSome(sp: seq<Port>, n: int)
    ensures n in NodesWithPorts(sp) <==> PortsOf(sp, n) != []
  {
    if n in NodesWithPorts(sp) {
      var i :| 0 <= i < |sp| && sp[i].nodeID == n;
      assert sp[i] in PortsOf(sp, n);
    } else {
      PortsOfNobody(sp, n);
    }
  }

  ghost function SortedPortsOf(sp: seq<Port>, n: int): (sorted: seq<Port>)
    ensures IsSortOf(sorted, PortsOf(sp, n), PortLess)
  {
    ComparatorsAreStrictWeak();
    Sort(PortsOf(sp, n), PortLess)
  }

  lemma GroupingExists(sp: seq<Port>) returns (groups: Groups)
    ensures IsGroupingOf(groups, sp)
  {
    groups := map n | n in NodesWithPorts(sp) :: SortedPortsOf(sp, n);
    forall n
      ensures n in groups <==> PortsOf(sp, n) != []
      ensures IsSortOf(PortsAt(groups, n), PortsOf(sp, n), PortLess)
    {
      NodesWithPortsHaveSome(sp, n);
    }
  }

  /** The edges are those of some plan for these nodes and ports. */
  ghost predicate AreEdgesOf(edges: seq<Edge>, nodes: seq<Node>, ports: seq<Port>) {
    exists plan :: IsPlan(nodes, ports, plan) && edges == EdgesOf(PlanLinks(plan))
  }

  method BuildEdges(nodes: seq<Node>, ports: seq<Port>) returns (edges: seq<Edge>, ghost plan: Plan)
    ensures AreEdgesOf(edges, nodes, ports)
    ensures IsPlan(nodes, ports, plan)
    ensures edges == EdgesOf(PlanLinks(plan))
  {
    var nodesByID, switches := IndexNodes(nodes);

    var hostPorts := ActivePortsForKinds(ports, nodesByID, {HOST});
    var switchPorts := ActivePortsForKinds(ports, nodesByID, {SWITCH});
    hostPorts := SortPorts(hostPorts);
    switchPorts := SortPorts(switchPorts);

    var used: set<int>;
    edges, used := LinkHosts(nodesByID, hostPorts, switchPorts);

    switches := SortNodes(switches);
    var portsByNodeID := GroupPortsByNodeID(switchPorts);
    plan := Plan(nodesByID, hostPorts, switchPorts, switches, portsByNodeID);

    var backbone := LinkSwitches(switches, portsByNodeID, used);
    edges := edges + backbone;
    EdgesOfAppend(PlanHostLinks(plan), PlanBackboneLinks(plan));
    PlanGivesEdges(edges, nodes, ports, plan);
  }

  lemma PlanGivesEdges(edges: seq<Edge>, nodes: seq<Node>, ports: seq<Port>, plan: Plan)
    requires IsPlan(nodes, ports, plan) && edges == EdgesOf(PlanLinks(plan))
    ensures AreEdgesOf(edges, nodes, ports)
  {
  }

  lemma EdgesOfAppend(a: seq<Link>, b: seq<Link>)
    ensures EdgesOf(a + b) == EdgesOf(a) + EdgesOf(b)
  {
  }

  lemma OfKindStep(nodes: seq<Node>, i: nat, kind: string)
    requires i < |nodes|
    ensures OfKind(nodes[..i + 1], kind) == OfKind(nodes[..i], kind) +
      if NormalizeKind(nodes[i].nodeKind) == kind then [nodes[i]] else []
  {
    var before := nodes[..i];
    assert nodes[..i + 1] == before + [nodes[i]];
    OfKindAppend(before, nodes[i], kind);
  }

  lemma OfKindAppend(nodes: seq<Node>, node: Node, kind: string)
    ensures OfKind(nodes + [node], kind) ==
      OfKind(nodes, kind) + if NormalizeKind(node.nodeKind) == kind then [node] else []
  {
    FilterAppend(nodes, [node], (n: Node) => NormalizeKind(n.nodeKind) == kind);
  }

  lemma NodesByIDStep(nodes: seq<Node>, i: nat)
    requires i < |nodes|
    ensures NodesByID(nodes[..i + 1]) == NodesByID(nodes[..i])[nodes[i].id := nodes[i]]
  {
    assert nodes[..i + 1][..i] == nodes[..i];
  }

  /** The node index, and the one entry of the kind index that is read. */
  lemma NothingIndexed()
    ensures NodesByID([]) == map[] && OfKind([], SWITCH) == []
  {
  }

  method IndexNodes(nodes: seq<Node>) returns (nodesByID: map<int, Node>, switches: seq<Node>)
    ensures nodesByID == NodesByID(nodes)
    ensures switches == OfKind(nodes, SWITCH)
  {
    hide NodesByID, OfKind;
    NothingIndexed();
    assert nodes[..0] == [];
    nodesByID, switches := map[], [];
    for i := 0 to |nodes|
      invariant nodesByID == NodesByID(nodes[..i])
      invariant switches == OfKind(nodes[..i], SWITCH)
    {
      OfKindStep(nodes, i, SWITCH);
      NodesByIDStep(nodes, i);
      nodesByID := nodesByID[nodes[i].id := nodes[i]];
      if NormalizeKind(nodes[i].nodeKind) == SWITCH {
        switches := switches + [nodes[i]];
      }
    }
    assert nodes[..|nodes|] == nodes;
  }

  lemma PickIsThePhases(hp: seq<Port>, sp: seq<Port>, i: nat, pick: Option<nat>)
    requires i < |hp|
    requires IsFavourite(hp[i], sp, TakenIDs(sp, HostPicks(hp, sp)[..i]), pick)
    ensures HostPicks(hp, sp)[i] == pick
  {
    var used := TakenIDs(sp, HostPicks(hp, sp)[..i]);
    HostPickIsFavourite(hp, sp, i);
    FavouriteUnique(hp[i], sp, used, pick);
    FavouriteUnique(hp[i], sp, used, HostPicks(hp, sp)[i]);
  }

  lemma HostStep(hp: seq<Port>, sp: seq<Port>, i: nat, pick: Option<nat>)
    requires i < |hp|
    requires IsFavourite(hp[i], sp, TakenIDs(sp, HostPicks(hp, sp)[..i]), pick)
    ensures HostPicks(hp, sp)[i] == pick
    ensures TakenIDs(sp, HostPicks(hp, sp)[..i + 1]) ==
      TakenIDs(sp, HostPicks(hp, sp)[..i]) + if pick.Some? then {sp[pick.value].id} else {}
  {
    hide IsFavourite;
    PickIsThePhases(hp, sp, i, pick);
    var picks := HostPicks(hp, sp);
    assert picks[..i + 1] == picks[..i] + [pick];
    TakenIDsStep(sp, picks[..i], pick);
  }

  lemma HostLinksStep(nodesByID: map<int, Node>, hp: seq<Port>, sp: seq<Port>, i: nat)
    requires i < |hp|
    ensures var pick := HostPicks(hp, sp)[i];
      EdgesOf(HostLinks(nodesByID, hp, sp, i + 1)) == EdgesOf(HostLinks(nodesByID, hp, sp, i)) +
        if pick.Some? then [EdgeOf(HostLink(nodesByID, hp[i], sp[pick.value]))] else []
  {
  }

  method LinkHosts(nodesByID: map<int, Node>, hostPorts: seq<Port>, switchPorts: seq<Port>)
    returns (edges: seq<Edge>, used: set<int>)
    ensures edges == EdgesOf(HostLinks(nodesByID, hostPorts, switchPorts, |hostPorts|))
    ensures used == TakenIDs(switchPorts, HostPicks(hostPorts, switchPorts))
  {
    edges, used := [], {};
    ghost var picks := HostPicks(hostPorts, switchPorts);
    for i := 0 to |hostPorts|
      invariant edges == EdgesOf(HostLinks(nodesByID, hostPorts, switchPorts, i))
      invariant used == TakenIDs(switchPorts, picks[..i])
    {
      var hostPort := hostPorts[i];
      var pick := PickSwitchPort(hostPort, switchPorts, used);
      HostStep(hostPorts, switchPorts, i, pick);
      HostLinksStep(nodesByID, hostPorts, switchPorts, i);
      if pick.None? {
        continue;
      }
      var switchPort := switchPorts[pick.value];
      edges := edges + [EdgeOf(HostLink(nodesByID, hostPort, switchPort))];
      used := used + {switchPort.id};
    }
    assert picks[..|hostPorts|] == picks;
  }

  /** Links and used ports after one more iteration. */
  lemma LinksAfterHop(sw: seq<Node>, hops: seq<Hop>, used: set<int>, next: Hop)
    requires |hops| + 1 < |sw|
    ensures UsedAfter(used, hops + [next], true) == UsedAfter(used, hops, true) + Marked(next, true)
    ensures EdgesOf(BackboneLinks(sw, hops + [next])) == EdgesOf(BackboneLinks(sw, hops)) +
      if next.Linked() then
        [EdgeOf(Link(sw[|hops|], next.source.value, sw[|hops| + 1], next.target.value, InferredSwitchBackbone))]
      else []
  {
    var all := hops + [next];
    assert all[..|hops|] == hops && all[|hops|] == next;
  }

  method LinkSwitches(switches: seq<Node>, portsByNodeID: Groups, usedByHosts: set<int>) returns (edges: seq<Edge>)
    ensures edges ==
      EdgesOf(BackboneLinks(switches, Hops(switches, portsByNodeID, usedByHosts, HopCount(switches), true)))
  {
    edges := [];
    var used := usedByHosts;
    ghost var hops: seq<Hop> := [];
    for i := 0 to HopCount(switches)
      invariant hops == Hops(switches, portsByNodeID, usedByHosts, i, true)
      invariant used == UsedAfter(usedByHosts, hops, true)
      invariant edges == EdgesOf(BackboneLinks(switches, hops))
    {
      ghost var next := TakeHop(portsByNodeID, switches[i].id, switches[i + 1].id, used, true);
      LinksAfterHop(switches, hops, usedByHosts, next);
      hops := hops + [next];
      var more;
      more, used := LinkPair(switches[i], switches[i + 1], portsByNodeID, used);
      edges := edges + more;
    }
  }

  /** The body of the backbone loop: at most one edge, and the ports it marks. */
  method LinkPair(sourceNode: Node, targetNode: Node, portsByNodeID: Groups, usedBefore: set<int>)
    returns (edges: seq<Edge>, used: set<int>)
    ensures var next := TakeHop(portsByNodeID, sourceNode.id, targetNode.id, usedBefore, true);
      && used == usedBefore + Marked(next, true)
      && edges == if next.Linked() then
           [EdgeOf(Link(sourceNode, next.source.value, targetNode, next.target.value, InferredSwitchBackbone))]
         else []
  {
    edges, used := [], usedBefore;
    var sourcePort := FirstUnusedPort(PortsAt(portsByNodeID, sourceNode.id), used);
    if sourcePort.None? {
      return;
    }
    used := used + {sourcePort.value.id};
    var targetPort := FirstUnusedPort(PortsAt(portsByNodeID, targetNode.id), used);
    if targetPort.None? {
      return;
    }
    used := used + {targetPort.value.id};
    edges := [EdgeOf(Link(sourceNode, sourcePort.value, targetNode, targetPort.value, InferredSwitchBackbone))];
  }
}
