/** What every run of edge inference guarantees, for any node and port rows with distinct ids. */
module EdgeProperties {
  import opened Seqs
  import opened Sorting
  import opened TopologyModel
  import opened HostPhase
  import opened Backbone
  import opened Edges

  // ---- The lists of a run ----

  lemma SortKeepsPorts(sorted: seq<Port>, s: seq<Port>)
    requires IsSortOf(sorted, s, PortLess)
    ensures forall p :: p in sorted <==> p in s
    ensures |sorted| == |s|
  {
    assert |multiset(sorted)| == |multiset(s)|;
    forall p ensures p in sorted <==> p in s {
      assert p in multiset(sorted) <==> p in multiset(s);
    }
  }

  lemma SortKeepsNodes(sorted: seq<Node>, s: seq<Node>)
    requires IsSortOf(sorted, s, NodeLess)
    ensures forall n :: n in sorted <==> n in s
  {
    forall n ensures n in sorted <==> n in s {
      assert n in multiset(sorted) <==> n in multiset(s);
    }
  }

  lemma ActiveListDistinct(ports: seq<Port>, nodesByID: map<int, Node>, kinds: set<string>, sorted: seq<Port>)
    requires DistinctPortIDs(ports)
    requires IsSortOf(sorted, ActivePorts(ports, nodesByID, kinds), PortLess)
    ensures DistinctPortIDs(sorted)
  {
    FilterDistinctBy(ports, (p: Port) => IsActiveOfKind(p, nodesByID, kinds), PortID);
    DistinctByPermutes(ActivePorts(ports, nodesByID, kinds), sorted, PortID);
  }

  lemma SwitchesDistinct(nodes: seq<Node>, sorted: seq<Node>)
    requires DistinctNodeIDs(nodes)
    requires IsSortOf(sorted, OfKind(nodes, SWITCH), NodeLess)
    ensures DistinctNodeIDs(sorted)
  {
    FilterDistinctBy(nodes, (n: Node) => NormalizeKind(n.nodeKind) == SWITCH, NodeID);
    DistinctByPermutes(OfKind(nodes, SWITCH), sorted, NodeID);
  }

  lemma FilterSorted<T>(s: seq<T>, keep: T -> bool, less: (T, T) -> bool)
    requires Sorted(s, less)
    ensures Sorted(Filter(s, keep), less)
  {
    forall i, j | 0 <= i < j < |Filter(s, keep)| ensures !less(Filter(s, keep)[j], Filter(s, keep)[i]) {
      var a, b := FilterInOrder(s, keep, i, j);
    }
  }

  /** Sorting a node's ports once more inside the grouping changes nothing. */
  lemma ResortingChangesNothing(groups: Groups, sp: seq<Port>)
    requires DistinctPortIDs(sp) && Sorted(sp, PortLess)
    requires IsGroupingOf(groups, sp)
    ensures Splits(groups, sp)
  {
    forall n ensures PortsAt(groups, n) == PortsOf(sp, n) {
      var plain, again := PortsOf(sp, n), PortsAt(groups, n);
      assert IsSortOf(again, plain, PortLess);
      FilterSorted(sp, (p: Port) => p.nodeID == n, PortLess);
      FilterDistinctBy(sp, (p: Port) => p.nodeID == n, PortID);
      PortComparatorSeparates(plain);
      SortedFormUnique(plain, again, PortLess);
    }
  }

  lemma PlanIsWellFormed(nodes: seq<Node>, ports: seq<Port>, plan: Plan)
    requires DistinctNodeIDs(nodes) && DistinctPortIDs(ports)
    requires IsPlan(nodes, ports, plan)
    ensures DistinctPortIDs(plan.hostPorts) && DistinctPortIDs(plan.switchPorts)
    ensures DistinctNodeIDs(plan.switches)
    ensures Splits(plan.groups, plan.switchPorts)
  {
    ActiveListDistinct(ports, plan.nodesByID, {HOST}, plan.hostPorts);
    ActiveListDistinct(ports, plan.nodesByID, {SWITCH}, plan.switchPorts);
    SwitchesDistinct(nodes, plan.switches);
    ResortingChangesNothing(plan.groups, plan.switchPorts);
  }

  // ---- Order independence ----

  lemma {:induction false} IndexHasEveryNode(nodes: seq<Node>, n: Node)
    requires DistinctNodeIDs(nodes) && n in nodes
    ensures n.id in NodesByID(nodes) && NodesByID(nodes)[n.id] == n
  {
    var k := |nodes| - 1;
    if nodes[k] != n {
      assert n in nodes[..k];
      IndexHasEveryNode(nodes[..k], n);
      var i :| 0 <= i < k && nodes[i] == n;
      assert NodeID(nodes[i]) != NodeID(nodes[k]);
    }
  }

  lemma IndexSubset(a: seq<Node>, b: seq<Node>)
    requires DistinctNodeIDs(b) && multiset(a) == multiset(b)
    ensures forall id | id in NodesByID(a) :: id in NodesByID(b) && NodesByID(b)[id] == NodesByID(a)[id]
  {
    forall id | id in NodesByID(a) ensures id in NodesByID(b) && NodesByID(b)[id] == NodesByID(a)[id] {
      assert NodesByID(a)[id] in multiset(b);
      IndexHasEveryNode(b, NodesByID(a)[id]);
    }
  }

  lemma IndexIgnoresOrder(a: seq<Node>, b: seq<Node>)
    requires DistinctNodeIDs(a) && multiset(a) == multiset(b)
    ensures NodesByID(a) == NodesByID(b)
  {
    DistinctByPermutes(a, b, NodeID);
    IndexSubset(a, b);
    IndexSubset(b, a);
    assert NodesByID(a).Keys == NodesByID(b).Keys;
  }

  lemma ActiveListIgnoresOrder(a: seq<Port>, b: seq<Port>, nodesByID: map<int, Node>, kinds: set<string>, sa: seq<Port>,
                               sb: seq<Port>)
    requires DistinctPortIDs(a) && multiset(a) == multiset(b)
    requires IsSortOf(sa, ActivePorts(a, nodesByID, kinds), PortLess)
    requires IsSortOf(sb, ActivePorts(b, nodesByID, kinds), PortLess)
    ensures sa == sb
  {
    FilterPermutes(a, b, (p: Port) => IsActiveOfKind(p, nodesByID, kinds));
    ActiveListDistinct(a, nodesByID, kinds, sa);
    PortComparatorSeparates(sa);
    SortedFormUnique(sa, sb, PortLess);
  }

  lemma SwitchListIgnoresOrder(a: seq<Node>, b: seq<Node>, sa: seq<Node>, sb: seq<Node>)
    requires DistinctNodeIDs(a) && multiset(a) == multiset(b)
    requires IsSortOf(sa, OfKind(a, SWITCH), NodeLess)
    requires IsSortOf(sb, OfKind(b, SWITCH), NodeLess)
    ensures sa == sb
  {
    FilterPermutes(a, b, (n: Node) => NormalizeKind(n.nodeKind) == SWITCH);
    SwitchesDistinct(a, sa);
    NodeComparatorSeparates(sa);
    SortedFormUnique(sa, sb, NodeLess);
  }

  lemma GroupingUnique(g1: Groups, g2: Groups, sp: seq<Port>)
    requires IsGroupingOf(g1, sp) && IsGroupingOf(g2, sp)
    requires Splits(g1, sp) && Splits(g2, sp)
    ensures g1 == g2
  {
    assert forall n :: n in g1 <==> n in g2;
    forall n | n in g1 ensures g1[n] == g2[n] {
      assert PortsAt(g1, n) == PortsAt(g2, n);
    }
  }

  /**
   The edges depend on the rows, not on their order: any two runs over permutations of the same nodes and
   ports, whatever their unstable sorts did, produce the same edge sequence.
   */
  lemma EdgesIgnoreInputOrder(nodes: seq<Node>, ports: seq<Port>, plan: Plan, nodes': seq<Node>, ports': seq<Port>,
                              plan': Plan)
    requires DistinctNodeIDs(nodes) && DistinctPortIDs(ports)
    requires multiset(nodes) == multiset(nodes') && multiset(ports) == multiset(ports')
    requires IsPlan(nodes, ports, plan) && IsPlan(nodes', ports', plan')
    ensures EdgesOf(PlanLinks(plan)) == EdgesOf(PlanLinks(plan'))
  {
    IndexIgnoresOrder(nodes, nodes');
    ActiveListIgnoresOrder(ports, ports', plan.nodesByID, {HOST}, plan.hostPorts, plan'.hostPorts);
    ActiveListIgnoresOrder(ports, ports', plan.nodesByID, {SWITCH}, plan.switchPorts, plan'.switchPorts);
    SwitchListIgnoresOrder(nodes, nodes', plan.switches, plan'.switches);
    PlanIsWellFormed(nodes, ports, plan);
    ResortingChangesNothing(plan'.groups, plan'.switchPorts);
    GroupingUnique(plan.groups, plan'.groups, plan.switchPorts);
    assert plan == plan';
  }

  // ---- What a link connects ----

  ghost predicate IsSoundEnd(nodes: seq<Node>, ports: seq<Port>, n: Node, p: Port, kind: string) {
    p in ports && IsActivePort(p) && n in nodes && p.nodeID == n.id && NormalizeKind(n.nodeKind) == kind
  }

  ghost predicate IsSoundLink(nodes: seq<Node>, ports: seq<Port>, l: Link) {
    match l.relation
    case InferredHostSwitch =>
      IsSoundEnd(nodes, ports, l.sourceNode, l.source, HOST) && IsSoundEnd(nodes, ports, l.targetNode, l.target, SWITCH)
    case InferredSwitchBackbone =>
      && IsSoundEnd(nodes, ports, l.sourceNode, l.source, SWITCH)
      && IsSoundEnd(nodes, ports, l.targetNode, l.target, SWITCH)
      && l.sourceNode.id < l.targetNode.id
  }

  lemma ListedPortIsSound(nodes: seq<Node>, ports: seq<Port>, kind: string, sorted: seq<Port>, p: Port)
    requires IsSortOf(sorted, ActivePorts(ports, NodesByID(nodes), {kind}), PortLess)
    requires p in sorted
    ensures IsSoundEnd(nodes, ports, Lookup(NodesByID(nodes), p.nodeID), p, kind)
  {
    SortKeepsPorts(sorted, ActivePorts(ports, NodesByID(nodes), {kind}));
  }

  lemma HostLinkIsSound(nodes: seq<Node>, ports: seq<Port>, plan: Plan, i: nat, j: nat)
    requires IsPlan(nodes, ports, plan) && i < |plan.hostPorts| && j < |plan.switchPorts|
    ensures IsSoundLink(nodes, ports, HostLink(plan.nodesByID, plan.hostPorts[i], plan.switchPorts[j]))
  {
    ListedPortIsSound(nodes, ports, HOST, plan.hostPorts, plan.hostPorts[i]);
    ListedPortIsSound(nodes, ports, SWITCH, plan.switchPorts, plan.switchPorts[j]);
  }

  lemma {:induction false} HostLinksAreSound(nodes: seq<Node>, ports: seq<Port>, plan: Plan, n: nat)
    requires IsPlan(nodes, ports, plan) && n <= |plan.hostPorts|
    ensures forall l | l in HostLinks(plan.nodesByID, plan.hostPorts, plan.switchPorts, n) ::
      IsSoundLink(nodes, ports, l)
  {
    hide IsPlan, IsSoundLink, HostLink;
    if 0 < n {
      HostLinksAreSound(nodes, ports, plan, n - 1);
      var pick := HostPicks(plan.hostPorts, plan.switchPorts)[n - 1];
      if pick.Some? {
        HostLinkIsSound(nodes, ports, plan, n - 1, pick.value);
      }
    }
  }

  lemma BackboneEndIsSound(nodes: seq<Node>, ports: seq<Port>, plan: Plan, k: nat, p: Port)
    requires DistinctNodeIDs(nodes) && DistinctPortIDs(ports) && IsPlan(nodes, ports, plan)
    requires k < |plan.switches| && p in PortsAt(plan.groups, plan.switches[k].id)
    ensures IsSoundEnd(nodes, ports, plan.switches[k], p, SWITCH)
  {
    PlanIsWellFormed(nodes, ports, plan);
    assert p in PortsOf(plan.switchPorts, plan.switches[k].id);
    ListedPortIsSound(nodes, ports, SWITCH, plan.switchPorts, p);
    SortKeepsNodes(plan.switches, OfKind(nodes, SWITCH));
    IndexHasEveryNode(nodes, plan.switches[k]);
  }

  function HopLink(plan: Plan, k: nat): Link
    requires k < |PlanHops(plan)| && PlanHops(plan)[k].Linked()
  {
    Link(plan.switches[k], PlanHops(plan)[k].source.value, plan.switches[k + 1], PlanHops(plan)[k].target.value,
         InferredSwitchBackbone)
  }

  lemma HopLinkIsSound(nodes: seq<Node>, ports: seq<Port>, plan: Plan, k: nat)
    requires DistinctNodeIDs(nodes) && DistinctPortIDs(ports) && IsPlan(nodes, ports, plan)
    requires k < |PlanHops(plan)| && PlanHops(plan)[k].Linked()
    ensures IsSoundLink(nodes, ports, HopLink(plan, k))
  {
    var hops, sw := PlanHops(plan), plan.switches;
    HopIsTaken(sw, plan.groups, UsedByHosts(plan), k, |hops|, true);
    HopTakesFromItsSwitches(plan.groups, sw[k].id, sw[k + 1].id, UsedAfter(UsedByHosts(plan), hops[..k], true), true);
    BackboneEndIsSound(nodes, ports, plan, k, hops[k].source.value);
    BackboneEndIsSound(nodes, ports, plan, k + 1, hops[k].target.value);
    SwitchesAscend(nodes, sw);
  }

  lemma {:induction false} LinkFromHop(sw: seq<Node>, hops: seq<Hop>, l: Link) returns (k: nat)
    requires hops == [] || |hops| < |sw|
    requires l in BackboneLinks(sw, hops)
    ensures k < |hops| && hops[k].Linked()
    ensures l == Link(sw[k], hops[k].source.value, sw[k + 1], hops[k].target.value, InferredSwitchBackbone)
  {
    var n := |hops| - 1;
    if l in BackboneLinks(sw, hops[..n]) {
      k := LinkFromHop(sw, hops[..n], l);
    } else {
      k := n;
    }
  }

  /**
   Every link joins active input ports of input nodes of the kinds its relation names, and a backbone link
   goes to a strictly larger switch id, so backbone links cannot form a cycle.
   */
  lemma LinksAreSound(nodes: seq<Node>, ports: seq<Port>, plan: Plan)
    requires DistinctNodeIDs(nodes) && DistinctPortIDs(ports) && IsPlan(nodes, ports, plan)
    ensures forall l | l in PlanLinks(plan) :: IsSoundLink(nodes, ports, l)
  {
    HostLinksAreSound(nodes, ports, plan, |plan.hostPorts|);
    forall l | l in PlanBackboneLinks(plan) ensures IsSoundLink(nodes, ports, l) {
      var k := LinkFromHop(plan.switches, PlanHops(plan), l);
      HopLinkIsSound(nodes, ports, plan, k);
    }
    forall l | l in PlanLinks(plan) ensures IsSoundLink(nodes, ports, l) {
      assert l in PlanHostLinks(plan) || l in PlanBackboneLinks(plan);
    }
  }

  lemma {:induction false} LinksInHopOrder(sw: seq<Node>, hops: seq<Hop>, i: nat, j: nat) returns (a: nat, b: nat)
    requires hops == [] || |hops| < |sw|
    requires i < j < |BackboneLinks(sw, hops)|
    ensures a < b < |hops|
    ensures BackboneLinks(sw, hops)[i].sourceNode == sw[a] && BackboneLinks(sw, hops)[i].targetNode == sw[a + 1]
    ensures BackboneLinks(sw, hops)[j].sourceNode == sw[b] && BackboneLinks(sw, hops)[j].targetNode == sw[b + 1]
  {
    var n := |hops| - 1;
    var before := BackboneLinks(sw, hops[..n]);
    if j < |before| {
      a, b := LinksInHopOrder(sw, hops[..n], i, j);
    } else {
      assert before[i] in before;
      a := LinkFromHop(sw, hops[..n], before[i]);
      b := n;
    }
  }

  ghost predicate AscendingIDs(sw: seq<Node>) {
    forall a, b | 0 <= a < b < |sw| :: sw[a].id < sw[b].id
  }

  lemma SwitchesAscend(nodes: seq<Node>, sw: seq<Node>)
    requires DistinctNodeIDs(nodes) && IsSortOf(sw, OfKind(nodes, SWITCH), NodeLess)
    ensures AscendingIDs(sw)
  {
    SwitchesDistinct(nodes, sw);
    forall a, b | 0 <= a < b < |sw| ensures sw[a].id < sw[b].id {
      assert NodeID(sw[a]) != NodeID(sw[b]) && !NodeLess(sw[b], sw[a]);
    }
  }

  ghost predicate LineUp(links: seq<Link>) {
    forall i, j | 0 <= i < j < |links| :: InLine(links[i], links[j])
  }

  predicate InLine(a: Link, b: Link) {
    a.sourceNode.id < a.targetNode.id <= b.sourceNode.id < b.targetNode.id
  }

  lemma BackboneLinksLineUp(sw: seq<Node>, hops: seq<Hop>)
    requires AscendingIDs(sw) && (hops == [] || |hops| < |sw|)
    ensures LineUp(BackboneLinks(sw, hops))
  {
    var links := BackboneLinks(sw, hops);
    forall i, j | 0 <= i < j < |links| ensures InLine(links[i], links[j]) {
      var a, b := LinksInHopOrder(sw, hops, i, j);
      assert sw[a].id < sw[a + 1].id && sw[b].id < sw[b + 1].id && sw[a + 1].id <= sw[b].id;
    }
  }

  /**
   Backbone links line up: a later link starts at or after the switch where an earlier one ended. So a
   switch starts at most one link and ends at most one, and the backbone is a union of disjoint paths.
   */
  lemma BackboneFormsPaths(nodes: seq<Node>, ports: seq<Port>, plan: Plan)
    requires DistinctNodeIDs(nodes) && IsPlan(nodes, ports, plan)
    ensures LineUp(PlanBackboneLinks(plan))
  {
    SwitchesAscend(nodes, plan.switches);
    BackboneLinksLineUp(plan.switches, PlanHops(plan));
  }
}
