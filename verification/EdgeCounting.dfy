/** Port accounting over a whole run of edge inference. */
module EdgeCounting {
  import opened Seqs
  import opened TopologyModel
  import opened HostPhase
  import opened Backbone
  import opened Edges
  import opened EdgeProperties

  // ---- No port serves two links ----

  /** Both ends of every link, in order. */
  function Ends(links: seq<Link>): seq<Port> {
    if links == [] then []
    else Ends(links[..|links| - 1]) + [links[|links| - 1].source, links[|links| - 1].target]
  }

  /** Different ports, with ids among `ids`. */
  ghost predicate Covered(ends: seq<Port>, ids: set<int>) {
    DistinctPortIDs(ends) && PortIDs(ends) <= ids
  }

  lemma PairKeepsCovered(s: seq<Port>, p: Port, q: Port, ids: set<int>)
    requires Covered(s, ids)
    requires p.id !in ids && q.id !in ids && p.id != q.id
    ensures Covered(s + [p, q], ids + {p.id, q.id})
  {
    var t := s + [p, q];
    assert forall i | 0 <= i < |s| :: t[i] == s[i] && t[i].id in PortIDs(s);
    assert t[|s|] == p && t[|s| + 1] == q;
  }

  lemma LinkKeepsCovered(links: seq<Link>, l: Link, ids: set<int>, ids': set<int>)
    requires Covered(Ends(links), ids)
    requires l.source.id !in ids && l.target.id !in ids && l.source.id != l.target.id
    requires ids + {l.source.id, l.target.id} <= ids'
    ensures Covered(Ends(links + [l]), ids')
  {
    PairKeepsCovered(Ends(links), l.source, l.target, ids);
    assert (links + [l])[..|links|] == links;
  }

  lemma SameIDSamePortIn(ports: seq<Port>, p: Port, q: Port)
    requires DistinctPortIDs(ports) && p in ports && q in ports && p.id == q.id
    ensures p == q
  {
    var a :| 0 <= a < |ports| && ports[a] == p;
    var b :| 0 <= b < |ports| && ports[b] == q;
    assert PortID(ports[a]) == PortID(ports[b]);
  }

  lemma HostPortsAreNotSwitchPorts(nodes: seq<Node>, ports: seq<Port>, plan: Plan)
    requires DistinctPortIDs(ports) && IsPlan(nodes, ports, plan)
    ensures PortIDs(plan.hostPorts) !! PortIDs(plan.switchPorts)
  {
    forall p, q | p in plan.hostPorts && q in plan.switchPorts ensures p.id != q.id {
      ListedPortIsSound(nodes, ports, HOST, plan.hostPorts, p);
      ListedPortIsSound(nodes, ports, SWITCH, plan.switchPorts, q);
      if p.id == q.id {
        SameIDSamePortIn(ports, p, q);
      }
    }
  }

  lemma PrefixIDs(hp: seq<Port>, n: nat)
    requires n < |hp|
    ensures PortIDs(hp[..n + 1]) == PortIDs(hp[..n]) + {hp[n].id}
    ensures PortIDs(hp[..n]) <= PortIDs(hp)
  {
    assert hp[..n + 1][n] == hp[n];
    assert forall i | 0 <= i < n :: hp[..n + 1][i] == hp[..n][i] == hp[i];
  }

  lemma NextIsFresh(hp: seq<Port>, n: nat)
    requires DistinctPortIDs(hp) && n < |hp|
    ensures hp[n].id !in PortIDs(hp[..n]) && hp[n].id in PortIDs(hp)
  {
    assert forall i | 0 <= i < n :: hp[..n][i] == hp[i] && PortID(hp[i]) != PortID(hp[n]);
  }

  function HostCover(hp: seq<Port>, sp: seq<Port>, n: nat): set<int>
    requires n <= |hp|
  {
    PortIDs(hp[..n]) + TakenIDs(sp, HostPicks(hp, sp)[..n])
  }

  lemma HostCoverStep(hp: seq<Port>, sp: seq<Port>, n: nat)
    requires n < |hp|
    requires DistinctPortIDs(hp) && PortIDs(hp) !! PortIDs(sp)
    ensures HostCover(hp, sp, n) <= HostCover(hp, sp, n + 1)
    ensures var pick := HostPicks(hp, sp)[n];
      pick.Some? ==>
        && hp[n].id !in HostCover(hp, sp, n) && sp[pick.value].id !in HostCover(hp, sp, n)
        && hp[n].id != sp[pick.value].id
        && HostCover(hp, sp, n) + {hp[n].id, sp[pick.value].id} <= HostCover(hp, sp, n + 1)
  {
    var pick := HostPicks(hp, sp)[n];
    HostPickIsFavourite(hp, sp, n);
    HostStep(hp, sp, n, pick);
    PrefixIDs(hp, n);
    NextIsFresh(hp, n);
    assert TakenIDs(sp, HostPicks(hp, sp)[..n]) <= PortIDs(sp);
    if pick.Some? {
      assert sp[pick.value].id in PortIDs(sp);
    }
  }

  lemma NoEndsAreCovered(ids: set<int>)
    ensures Covered(Ends([]), ids)
  {
  }

  lemma NextHostEndsDistinct(nodesByID: map<int, Node>, hp: seq<Port>, sp: seq<Port>, n: nat)
    requires n < |hp| && DistinctPortIDs(hp) && PortIDs(hp) !! PortIDs(sp)
    requires Covered(Ends(HostLinks(nodesByID, hp, sp, n)), HostCover(hp, sp, n))
    ensures Covered(Ends(HostLinks(nodesByID, hp, sp, n + 1)), HostCover(hp, sp, n + 1))
  {
    hide Ends, HostCover, HostPicks, DistinctPortIDs;
    HostCoverStep(hp, sp, n);
    var pick, before := HostPicks(hp, sp)[n], HostLinks(nodesByID, hp, sp, n);
    if pick.Some? {
      var l := HostLink(nodesByID, hp[n], sp[pick.value]);
      LinkKeepsCovered(before, l, HostCover(hp, sp, n), HostCover(hp, sp, n + 1));
      assert HostLinks(nodesByID, hp, sp, n + 1) == before + [l];
    } else {
      assert HostLinks(nodesByID, hp, sp, n + 1) == before;
    }
  }

  /** The ends of the first `n` host ports' links: those host ports, and the switch ports taken. */
  lemma {:induction false} HostEndsDistinct(nodesByID: map<int, Node>, hp: seq<Port>, sp: seq<Port>, n: nat)
    requires n <= |hp|
    requires DistinctPortIDs(hp) && PortIDs(hp) !! PortIDs(sp)
    ensures Covered(Ends(HostLinks(nodesByID, hp, sp, n)), HostCover(hp, sp, n))
  {
    hide Covered, Ends, HostCover, HostPicks;
    if n == 0 {
      NoEndsAreCovered(HostCover(hp, sp, 0));
    } else {
      HostEndsDistinct(nodesByID, hp, sp, n - 1);
      NextHostEndsDistinct(nodesByID, hp, sp, n - 1);
    }
  }

  lemma GroupPortIsSwitchPort(groups: Groups, sp: seq<Port>, n: int, p: Port)
    requires Splits(groups, sp) && p in PortsAt(groups, n)
    ensures p.id in PortIDs(sp)
  {
    assert p in PortsOf(sp, n);
    var i :| 0 <= i < |sp| && sp[i] == p;
  }

  /** An iteration uses switch ports that nothing before it used. */
  ghost predicate IsFreshHop(h: Hop, now: set<int>, ids: set<int>) {
    && (h.source.Some? ==> h.source.value.id in ids && h.source.value.id !in now)
    && (h.target.Some? ==>
          && h.source.Some? && h.target.value.id in ids && h.target.value.id !in now
          && h.target.value.id != h.source.value.id)
  }

  ghost predicate AreFreshHops(hops: seq<Hop>, used: set<int>, ids: set<int>) {
    forall k | 0 <= k < |hops| :: IsFreshHop(hops[k], UsedAfter(used, hops[..k], true), ids)
  }

  lemma FreshPrefix(hops: seq<Hop>, used: set<int>, ids: set<int>)
    requires hops != [] && AreFreshHops(hops, used, ids)
    ensures AreFreshHops(hops[..|hops| - 1], used, ids)
    ensures IsFreshHop(hops[|hops| - 1], UsedAfter(used, hops[..|hops| - 1], true), ids)
  {
    assert forall k | 0 <= k < |hops| - 1 :: hops[..|hops| - 1][..k] == hops[..k];
  }

  lemma HopsAreFresh(sw: seq<Node>, groups: Groups, sp: seq<Port>, used: set<int>, n: nat)
    requires Splits(groups, sp) && (n == 0 || n < |sw|)
    ensures AreFreshHops(Hops(sw, groups, used, n, true), used, PortIDs(sp))
  {
    var hops := Hops(sw, groups, used, n, true);
    forall k | 0 <= k < n ensures IsFreshHop(hops[k], UsedAfter(used, hops[..k], true), PortIDs(sp)) {
      HopIsTaken(sw, groups, used, k, n, true);
      HopTakesFromItsSwitches(groups, sw[k].id, sw[k + 1].id, UsedAfter(used, hops[..k], true), true);
      if hops[k].source.Some? {
        GroupPortIsSwitchPort(groups, sp, sw[k].id, hops[k].source.value);
      }
      if hops[k].target.Some? {
        GroupPortIsSwitchPort(groups, sp, sw[k + 1].id, hops[k].target.value);
      }
    }
  }

  lemma {:induction false} BackboneEndsDistinct(first: seq<Link>, hosts: set<int>, sw: seq<Node>, hops: seq<Hop>,
                                                used: set<int>, ids: set<int>)
    requires hosts !! ids && AreFreshHops(hops, used, ids)
    requires hops == [] || |hops| < |sw|
    requires Covered(Ends(first), hosts + used)
    ensures Covered(Ends(first + BackboneLinks(sw, hops)), hosts + UsedAfter(used, hops, true))
  {
    if hops == [] {
      assert first + BackboneLinks(sw, hops) == first;
    } else {
      var n := |hops| - 1;
      var h, now := hops[n], UsedAfter(used, hops[..n], true);
      FreshPrefix(hops, used, ids);
      BackboneEndsDistinct(first, hosts, sw, hops[..n], used, ids);
      var before := first + BackboneLinks(sw, hops[..n]);
      if h.Linked() {
        var l := Link(sw[n], h.source.value, sw[n + 1], h.target.value, InferredSwitchBackbone);
        LinkKeepsCovered(before, l, hosts + now, hosts + (now + Marked(h, true)));
        assert first + BackboneLinks(sw, hops) == before + [l];
      } else {
        assert first + BackboneLinks(sw, hops) == before;
      }
    }
  }

  /** Over both phases together, no port serves two links. */
  lemma NoPortServesTwoLinks(nodes: seq<Node>, ports: seq<Port>, plan: Plan)
    requires DistinctNodeIDs(nodes) && DistinctPortIDs(ports) && IsPlan(nodes, ports, plan)
    ensures DistinctPortIDs(Ends(PlanLinks(plan)))
  {
    hide IsPlan, Splits, Ends, PortIDs, HostPicks, TakenIDs, Hops, AreFreshHops;
    PlanIsWellFormed(nodes, ports, plan);
    HostPortsAreNotSwitchPorts(nodes, ports, plan);
    var hp, sp := plan.hostPorts, plan.switchPorts;
    HostEndsDistinct(plan.nodesByID, hp, sp, |hp|);
    assert hp[..|hp|] == hp && HostPicks(hp, sp)[..|hp|] == HostPicks(hp, sp);
    HopsAreFresh(plan.switches, plan.groups, sp, UsedByHosts(plan), HopCount(plan.switches));
    BackboneEndsDistinct(PlanHostLinks(plan), PortIDs(hp), plan.switches, PlanHops(plan), UsedByHosts(plan),
                         PortIDs(sp));
  }

  /** The port table's unique index: a node has a port number once. */
  ghost predicate UniquePortNumbers(ports: seq<Port>) {
    forall i, j | 0 <= i < j < |ports| :: ports[i].nodeID != ports[j].nodeID || ports[i].portNum != ports[j].portNum
  }

  /** Endpoints as an edge shows them. */
  function Endpoints(edges: seq<Edge>): seq<(int, int)> {
    if edges == [] then []
    else
      var e := edges[|edges| - 1];
      Endpoints(edges[..|edges| - 1]) + [(e.sourceNodeID, e.sourcePortNum), (e.targetNodeID, e.targetPortNum)]
  }

  /** The endpoints an edge shows are those of the ports its link joins. */
  ghost predicate ShowsItsPorts(l: Link) {
    l.source.nodeID == l.sourceNode.id && l.target.nodeID == l.targetNode.id
  }

  lemma {:induction false} EndpointsAreEnds(links: seq<Link>)
    requires forall l | l in links :: ShowsItsPorts(l)
    ensures |Endpoints(EdgesOf(links))| == |Ends(links)|
    ensures forall i | 0 <= i < |Ends(links)| ::
      Endpoints(EdgesOf(links))[i] == (Ends(links)[i].nodeID, Ends(links)[i].portNum)
  {
    if links != [] {
      var n := |links| - 1;
      assert EdgesOf(links)[..n] == EdgesOf(links[..n]);
      assert links[n] in links;
      EndpointsAreEnds(links[..n]);
    }
  }

  lemma {:induction false} EndFromLink(links: seq<Link>, p: Port) returns (l: Link)
    requires p in Ends(links)
    ensures l in links && (p == l.source || p == l.target)
  {
    if p in Ends(links[..|links| - 1]) {
      l := EndFromLink(links[..|links| - 1], p);
    } else {
      l := links[|links| - 1];
    }
  }

  lemma PortNumbersDiffer(ports: seq<Port>, p: Port, q: Port)
    requires UniquePortNumbers(ports) && p in ports && q in ports && p != q
    ensures (p.nodeID, p.portNum) != (q.nodeID, q.portNum)
  {
    var a :| 0 <= a < |ports| && ports[a] == p;
    var b :| 0 <= b < |ports| && ports[b] == q;
    assert a != b;
  }

  lemma LinkEndpointsAreDistinct(ports: seq<Port>, links: seq<Link>)
    requires UniquePortNumbers(ports) && DistinctPortIDs(Ends(links))
    requires forall l | l in links :: ShowsItsPorts(l) && l.source in ports && l.target in ports
    ensures Distinct(Endpoints(EdgesOf(links)))
  {
    var ends := Ends(links);
    EndpointsAreEnds(links);
    forall i, j | 0 <= i < j < |ends| ensures (ends[i].nodeID, ends[i].portNum) != (ends[j].nodeID, ends[j].portNum) {
      assert PortID(ends[i]) != PortID(ends[j]);
      var li := EndFromLink(links, ends[i]);
      var lj := EndFromLink(links, ends[j]);
      PortNumbersDiffer(ports, ends[i], ends[j]);
    }
  }

  /** With port numbers unique per node, the (node id, port number) endpoints of the edges are pairwise distinct. */
  lemma EdgeEndpointsAreDistinct(nodes: seq<Node>, ports: seq<Port>, plan: Plan)
    requires DistinctNodeIDs(nodes) && DistinctPortIDs(ports) && UniquePortNumbers(ports)
    requires IsPlan(nodes, ports, plan)
    ensures Distinct(Endpoints(EdgesOf(PlanLinks(plan))))
  {
    LinksAreSound(nodes, ports, plan);
    NoPortServesTwoLinks(nodes, ports, plan);
    forall l | l in PlanLinks(plan) ensures ShowsItsPorts(l) && l.source in ports && l.target in ports {
      assert IsSoundLink(nodes, ports, l);
    }
    LinkEndpointsAreDistinct(ports, PlanLinks(plan));
  }

  // ---- Counting ----

  /** Iterations that marked a source port and then found nothing on the other switch. */
  function Abandoned(hops: seq<Hop>): nat {
    if hops == [] then 0
    else
      var last := hops[|hops| - 1];
      Abandoned(hops[..|hops| - 1]) + if last.source.Some? && last.target.None? then 1 else 0
  }

  lemma MarkedSize(now: set<int>, h: Hop)
    requires h.source.Some? ==> h.source.value.id !in now
    requires h.target.Some? ==> h.source.Some? && h.target.value.id !in now && h.target.value.id != h.source.value.id
    ensures |now + Marked(h, true)| == |now| + (if h.source.Some? then 1 else 0) + (if h.target.Some? then 1 else 0)
  {
    if h.source.Some? {
      var first := now + {h.source.value.id};
      if h.target.Some? {
        assert now + Marked(h, true) == first + {h.target.value.id};
      } else {
        assert now + Marked(h, true) == first;
      }
    } else {
      assert now + Marked(h, true) == now;
    }
  }

  lemma {:induction false} BackboneUsage(hops: seq<Hop>, used: set<int>, ids: set<int>)
    requires AreFreshHops(hops, used, ids)
    ensures |UsedAfter(used, hops, true)| == |used| + 2 * LinksIn(hops) + Abandoned(hops)
  {
    if hops != [] {
      FreshPrefix(hops, used, ids);
      BackboneUsage(hops[..|hops| - 1], used, ids);
      MarkedSize(UsedAfter(used, hops[..|hops| - 1], true), hops[|hops| - 1]);
    }
  }

  lemma {:induction false} HostUsage(hp: seq<Port>, sp: seq<Port>, n: nat)
    requires n <= |hp|
    ensures |TakenIDs(sp, HostPicks(hp, sp)[..n])| == LinkCount(HostPicks(hp, sp)[..n])
  {
    hide HostPicks, IsFavourite;
    if 0 < n {
      var picks := HostPicks(hp, sp);
      HostUsage(hp, sp, n - 1);
      HostPickIsFavourite(hp, sp, n - 1);
      HostStep(hp, sp, n - 1, picks[n - 1]);
      assert picks[..n][..n - 1] == picks[..n - 1];
    }
  }

  lemma {:induction false} HostLinksCount(nodesByID: map<int, Node>, hp: seq<Port>, sp: seq<Port>, n: nat)
    requires n <= |hp|
    ensures |HostLinks(nodesByID, hp, sp, n)| == LinkCount(HostPicks(hp, sp)[..n])
  {
    if 0 < n {
      HostLinksCount(nodesByID, hp, sp, n - 1);
      assert HostPicks(hp, sp)[..n][..n - 1] == HostPicks(hp, sp)[..n - 1];
    }
  }

  lemma {:induction false} BackboneLinksCount(sw: seq<Node>, hops: seq<Hop>)
    requires hops == [] || |hops| < |sw|
    ensures |BackboneLinks(sw, hops)| == LinksIn(hops)
  {
    if hops != [] {
      BackboneLinksCount(sw, hops[..|hops| - 1]);
    }
  }

  lemma PhaseCounts(plan: Plan)
    ensures |PlanHostLinks(plan)| == LinkCount(HostPicks(plan.hostPorts, plan.switchPorts))
    ensures |UsedByHosts(plan)| == |PlanHostLinks(plan)|
    ensures |PlanBackboneLinks(plan)| == LinksIn(PlanHops(plan))
  {
    var hp, sp := plan.hostPorts, plan.switchPorts;
    assert HostPicks(hp, sp)[..|hp|] == HostPicks(hp, sp);
    HostUsage(hp, sp, |hp|);
    HostLinksCount(plan.nodesByID, hp, sp, |hp|);
    BackboneLinksCount(plan.switches, PlanHops(plan));
  }

  /** Used switch ports are one per host edge, two per backbone edge, and the abandoned sources. */
  lemma UsedPortsAreAccountedFor(nodes: seq<Node>, ports: seq<Port>, plan: Plan)
    requires DistinctNodeIDs(nodes) && DistinctPortIDs(ports) && IsPlan(nodes, ports, plan)
    ensures |UsedAfter(UsedByHosts(plan), PlanHops(plan), true)| ==
      |PlanHostLinks(plan)| + 2 * |PlanBackboneLinks(plan)| + Abandoned(PlanHops(plan))
  {
    PlanIsWellFormed(nodes, ports, plan);
    HopsAreFresh(plan.switches, plan.groups, plan.switchPorts, UsedByHosts(plan), HopCount(plan.switches));
    BackboneUsage(PlanHops(plan), UsedByHosts(plan), PortIDs(plan.switchPorts));
    PhaseCounts(plan);
  }

  /** There are min(active host ports, active switch ports) host edges, as many as any matching could have. */
  lemma HostEdgeCount(nodes: seq<Node>, ports: seq<Port>, plan: Plan)
    requires DistinctNodeIDs(nodes) && DistinctPortIDs(ports) && IsPlan(nodes, ports, plan)
    ensures var hosts := |ActivePorts(ports, NodesByID(nodes), {HOST})|;
      var switches := |ActivePorts(ports, NodesByID(nodes), {SWITCH})|;
      |PlanHostLinks(plan)| == if hosts <= switches then hosts else switches
  {
    PlanIsWellFormed(nodes, ports, plan);
    SortKeepsPorts(plan.hostPorts, ActivePorts(ports, NodesByID(nodes), {HOST}));
    SortKeepsPorts(plan.switchPorts, ActivePorts(ports, NodesByID(nodes), {SWITCH}));
    PhaseCounts(plan);
    HostPhaseIsMaximum(plan.hostPorts, plan.switchPorts);
  }

  /** No choice of links over the ports the host phase left has more of them than there are backbone edges. */
  lemma BackboneEdgeCount(nodes: seq<Node>, ports: seq<Port>, plan: Plan, links: seq<Hop>)
    requires DistinctNodeIDs(nodes) && DistinctPortIDs(ports) && IsPlan(nodes, ports, plan)
    requires IsBackbone(plan.switches, plan.groups, UsedByHosts(plan), links)
    ensures LinksIn(links) <= |PlanBackboneLinks(plan)|
  {
    PlanIsWellFormed(nodes, ports, plan);
    PhaseCounts(plan);
    BackboneIsMaximum(plan.switches, plan.groups, plan.switchPorts, UsedByHosts(plan), links);
  }
}
