/** What the edges of a run say, told by the fields of the rows they come from. */
module EdgeMeaning {
  import opened Sorting
  import opened TopologyModel
  import opened HostPhase
  import opened Backbone
  import opened Edges
  import opened EdgeProperties
  import Text

  // ---- Which ports take part ----

  /** The kind as it is written in the row, apart from case and surrounding white space. */
  predicate HasKind(n: Node, kind: string) {
    Text.ToLower(Text.TrimSpace(n.nodeKind)) == kind
  }

  /** A usable port of a node of this kind. */
  ghost predicate IsUsable(nodes: seq<Node>, p: Port, kind: string) {
    && p.id > 0 && p.nodeID > 0 && p.portNum > 0 && p.portState == 4
    && exists n :: n in nodes && n.id == p.nodeID && HasKind(n, kind)
  }

  lemma KindIsNormalized(n: Node, kind: string)
    requires kind in {"host", "switch"}
    ensures NormalizeKind(n.nodeKind) == kind <==> HasKind(n, kind)
  {
    assert UNKNOWN[0] !in {'h', 's'};
  }

  /** Of several rows with one id, the index has the last. */
  lemma {:induction false} IndexKeepsTheLast(nodes: seq<Node>, i: nat)
    requires i < |nodes| && forall j | i < j < |nodes| :: nodes[j].id != nodes[i].id
    ensures nodes[i].id in NodesByID(nodes) && NodesByID(nodes)[nodes[i].id] == nodes[i]
  {
    if i < |nodes| - 1 {
      IndexKeepsTheLast(nodes[..|nodes| - 1], i);
    }
  }

  /** Exactly the active ports of known hosts take part in the first phase, of known switches in both. */
  lemma ActivePortsAreUsable(nodes: seq<Node>, ports: seq<Port>, kind: string, p: Port)
    requires DistinctNodeIDs(nodes) && kind in {"host", "switch"}
    ensures p in ActivePorts(ports, NodesByID(nodes), {kind}) <==> p in ports && IsUsable(nodes, p, kind)
  {
    var index := NodesByID(nodes);
    if p in ports && IsUsable(nodes, p, kind) {
      var n :| n in nodes && n.id == p.nodeID && HasKind(n, kind);
      IndexHasEveryNode(nodes, n);
      KindIsNormalized(n, kind);
    }
    if p in ports && IsActiveOfKind(p, index, {kind}) {
      KindIsNormalized(index[p.nodeID], kind);
    }
  }

  /** By node id, then port number, then id. */
  predicate Precedes(p: Port, q: Port) {
    || p.nodeID < q.nodeID
    || (p.nodeID == q.nodeID && p.portNum < q.portNum)
    || (p.nodeID == q.nodeID && p.portNum == q.portNum && p.id < q.id)
  }

  /** Ports are served in ascending order, and switches are visited in ascending order. */
  lemma ListsAscend(nodes: seq<Node>, ports: seq<Port>, plan: Plan)
    requires DistinctNodeIDs(nodes) && DistinctPortIDs(ports) && IsPlan(nodes, ports, plan)
    ensures forall i, j | 0 <= i < j < |plan.hostPorts| :: Precedes(plan.hostPorts[i], plan.hostPorts[j])
    ensures forall i, j | 0 <= i < j < |plan.switchPorts| :: Precedes(plan.switchPorts[i], plan.switchPorts[j])
    ensures AscendingIDs(plan.switches)
  {
    PlanIsWellFormed(nodes, ports, plan);
    SortedPortsAscend(plan.hostPorts);
    SortedPortsAscend(plan.switchPorts);
    SwitchesAscend(nodes, plan.switches);
  }

  lemma SortedPortsAscend(sorted: seq<Port>)
    requires Sorted(sorted, PortLess) && DistinctPortIDs(sorted)
    ensures forall i, j | 0 <= i < j < |sorted| :: Precedes(sorted[i], sorted[j])
  {
    forall i, j | 0 <= i < j < |sorted| ensures Precedes(sorted[i], sorted[j]) {
      assert PortID(sorted[i]) != PortID(sorted[j]);
      assert !PortLess(sorted[j], sorted[i]);
    }
  }

  // ---- What an edge shows ----

  /** One end of an edge: a usable port of a node of this kind, and that node. */
  ghost predicate IsEnd(nodes: seq<Node>, ports: seq<Port>, kind: string, n: Node, p: Port) {
    && n in nodes && p in ports && n.id == p.nodeID && HasKind(n, kind)
    && p.id > 0 && p.nodeID > 0 && p.portNum > 0 && p.portState == 4
  }

  /** The edge joins port `p` of node `m` to port `q` of node `n`, and tells of the link what `p` knows. */
  predicate Joins(e: Edge, m: Node, p: Port, n: Node, q: Port) {
    && e.sourceNodeID == m.id && e.sourceNodeGUID == m.nodeGUID
    && e.sourcePortNum == p.portNum && e.sourcePortGUID == p.portGUID
    && e.targetNodeID == n.id && e.targetNodeGUID == n.nodeGUID
    && e.targetPortNum == q.portNum && e.targetPortGUID == q.portGUID
    && e.linkWidthActive == p.linkWidthActive && e.linkSpeedActive == p.linkSpeedActive && e.portState == p.portState
  }

  lemma SoundEndIsEnd(nodes: seq<Node>, ports: seq<Port>, n: Node, p: Port, kind: string)
    requires IsSoundEnd(nodes, ports, n, p, kind) && kind in {"host", "switch"}
    ensures IsEnd(nodes, ports, kind, n, p)
  {
    KindIsNormalized(n, kind);
  }

  lemma SoundLinkShowsRows(nodes: seq<Node>, ports: seq<Port>, l: Link)
    requires IsSoundLink(nodes, ports, l)
    ensures Joins(EdgeOf(l), l.sourceNode, l.source, l.targetNode, l.target)
    ensures IsEnd(nodes, ports, "switch", l.targetNode, l.target)
    ensures IsEnd(nodes, ports, if l.relation == InferredHostSwitch then "host" else "switch", l.sourceNode, l.source)
    ensures l.relation == InferredSwitchBackbone ==> l.sourceNode.id < l.targetNode.id
  {
    hide IsEnd, NormalizeKind;
    SoundEndIsEnd(nodes, ports, l.targetNode, l.target, SWITCH);
    SoundEndIsEnd(nodes, ports, l.sourceNode, l.source, if l.relation == InferredHostSwitch then HOST else SWITCH);
  }

  lemma EdgeComesFromALink(nodes: seq<Node>, ports: seq<Port>, edges: seq<Edge>, e: Edge) returns (l: Link)
    requires DistinctNodeIDs(nodes) && DistinctPortIDs(ports)
    requires AreEdgesOf(edges, nodes, ports) && e in edges
    ensures e == EdgeOf(l) && IsSoundLink(nodes, ports, l)
  {
    var plan :| IsPlan(nodes, ports, plan) && edges == EdgesOf(PlanLinks(plan));
    var k :| 0 <= k < |edges| && edges[k] == e;
    l := PlanLinks(plan)[k];
    LinksAreSound(nodes, ports, plan);
    hide IsPlan, IsSoundLink, PlanLinks, EdgeOf;
    assert l in PlanLinks(plan);
  }

  lemma OneKindOnly(n: Node)
    ensures !(HasKind(n, "host") && HasKind(n, "switch"))
  {
    assert "host"[0] != "switch"[0];
  }

  /**
   Every edge joins two usable ports of the input and copies its fields from them and their nodes: from a host to a
   switch, or from a switch to a switch of larger id, and the relation tells which.
   */
  lemma EdgesShowRows(nodes: seq<Node>, ports: seq<Port>, edges: seq<Edge>, e: Edge)
    returns (m: Node, p: Port, n: Node, q: Port)
    requires DistinctNodeIDs(nodes) && DistinctPortIDs(ports)
    requires AreEdgesOf(edges, nodes, ports) && e in edges
    ensures Joins(e, m, p, n, q) && IsEnd(nodes, ports, "switch", n, q)
    ensures IsEnd(nodes, ports, if e.relation == InferredHostSwitch then "host" else "switch", m, p)
    ensures e.relation == InferredHostSwitch <==> HasKind(m, "host")
    ensures e.relation == InferredSwitchBackbone ==> m.id < n.id
  {
    hide AreEdgesOf, IsSoundLink, Joins, HasKind;
    var l := EdgeComesFromALink(nodes, ports, edges, e);
    SoundLinkShowsRows(nodes, ports, l);
    m, p, n, q := l.sourceNode, l.source, l.targetNode, l.target;
    OneKindOnly(m);
  }

  /** Some edge joins these two ports. */
  ghost predicate AreJoined(edges: seq<Edge>, p: Port, q: Port, relation: Relation) {
    exists e :: e in edges && e.relation == relation
      && e.sourceNodeID == p.nodeID && e.sourcePortNum == p.portNum && e.sourcePortGUID == p.portGUID
      && e.targetNodeID == q.nodeID && e.targetPortNum == q.portNum && e.targetPortGUID == q.portGUID
  }

  lemma LinkedPortsAreJoined(nodes: seq<Node>, ports: seq<Port>, plan: Plan, l: Link)
    requires DistinctNodeIDs(nodes) && DistinctPortIDs(ports) && IsPlan(nodes, ports, plan) && l in PlanLinks(plan)
    ensures AreJoined(EdgesOf(PlanLinks(plan)), l.source, l.target, l.relation)
  {
    LinksAreSound(nodes, ports, plan);
    var k :| 0 <= k < |PlanLinks(plan)| && PlanLinks(plan)[k] == l;
    assert EdgesOf(PlanLinks(plan))[k] in EdgesOf(PlanLinks(plan));
  }

  lemma {:induction false} PickIsLinked(index: map<int, Node>, hp: seq<Port>, sp: seq<Port>, n: nat, i: nat)
    requires i < n <= |hp| && HostPicks(hp, sp)[i].Some?
    ensures HostLink(index, hp[i], sp[HostPicks(hp, sp)[i].value]) in HostLinks(index, hp, sp, n)
  {
    if i < n - 1 {
      PickIsLinked(index, hp, sp, n - 1, i);
    }
  }

  lemma {:induction false} HopIsLinked(sw: seq<Node>, hops: seq<Hop>, k: nat)
    requires k < |hops| < |sw| && hops[k].Linked()
    ensures Link(sw[k], hops[k].source.value, sw[k + 1], hops[k].target.value, InferredSwitchBackbone)
      in BackboneLinks(sw, hops)
  {
    if k < |hops| - 1 {
      HopIsLinked(sw, hops[..|hops| - 1], k);
    }
  }

  /** No choice is forgotten: every pick of the first phase and every link of the second becomes an edge. */
  lemma ChoicesBecomeEdges(nodes: seq<Node>, ports: seq<Port>, plan: Plan)
    requires DistinctNodeIDs(nodes) && DistinctPortIDs(ports) && IsPlan(nodes, ports, plan)
    ensures var hp, sp, edges := plan.hostPorts, plan.switchPorts, EdgesOf(PlanLinks(plan));
      forall i | 0 <= i < |hp| && HostPicks(hp, sp)[i].Some? ::
        AreJoined(edges, hp[i], sp[HostPicks(hp, sp)[i].value], InferredHostSwitch)
    ensures var hops, edges := PlanHops(plan), EdgesOf(PlanLinks(plan));
      forall k | 0 <= k < |hops| && hops[k].Linked() ::
        AreJoined(edges, hops[k].source.value, hops[k].target.value, InferredSwitchBackbone)
  {
    var hp, sp, hops := plan.hostPorts, plan.switchPorts, PlanHops(plan);
    forall i | 0 <= i < |hp| && HostPicks(hp, sp)[i].Some?
      ensures AreJoined(EdgesOf(PlanLinks(plan)), hp[i], sp[HostPicks(hp, sp)[i].value], InferredHostSwitch)
    {
      PickIsLinked(plan.nodesByID, hp, sp, |hp|, i);
      LinkedPortsAreJoined(nodes, ports, plan, HostLink(plan.nodesByID, hp[i], sp[HostPicks(hp, sp)[i].value]));
    }
    forall k | 0 <= k < |hops| && hops[k].Linked()
      ensures AreJoined(EdgesOf(PlanLinks(plan)), hops[k].source.value, hops[k].target.value, InferredSwitchBackbone)
    {
      HopIsLinked(plan.switches, hops, k);
      LinkedPortsAreJoined(nodes, ports, plan, HopLink(plan, k));
    }
  }
}
