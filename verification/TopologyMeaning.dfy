/** What the topology answer says, told by the fields of the rows it comes from. */
module TopologyMeaning {
  import opened Domain
  import opened Seqs
  import opened TopologyModel
  import opened Edges
  import opened EdgeMeaning
  import opened TopologyView
  import Text

  // ---- Node views ----

  /** The kind in lower case without surrounding white space, "unknown" if nothing is left. */
  predicate IsKindOf(kind: string, n: Node) {
    if Text.TrimSpace(n.nodeKind) == "" then kind == "unknown" else HasKind(n, kind)
  }

  /** The positions of the ports with this node id. */
  function PositionsByID(ports: seq<Port>, id: int): set<int> {
    set k | 0 <= k < |ports| && ports[k].nodeID == id && id > 0
  }

  function PositionsByGUID(ports: seq<Port>, guid: string): set<int> {
    set k | 0 <= k < |ports| && ports[k].nodeGUID == guid && guid != ""
  }

  predicate ShowsInfoOf(v: TopologyNode, info: Option<NodeInfo>) {
    match info
    case None => v.serialNumber == "" && v.productName == ""
    case Some(i) => v.serialNumber == i.serialNumber && v.productName == i.productName
  }

  /** The view says of the node what its row says, and how many ports lead to it. */
  predicate ShowsNodeRow(v: TopologyNode, n: Node, ports: seq<Port>) {
    && v.id == n.id && v.logID == n.logID && v.nodeGUID == n.nodeGUID && v.nodeDesc == n.nodeDesc
    && v.nodeType == n.nodeType && v.declaredPortsCount == n.numPorts && IsKindOf(v.nodeKind, n)
    && ShowsInfoOf(v, n.info)
    && v.parsedPortsCount ==
       if Int32(|PositionsByID(ports, n.id)|) != 0 then Int32(|PositionsByID(ports, n.id)|)
       else Int32(|PositionsByGUID(ports, n.nodeGUID)|)
  }

  lemma CountsArePositions(ports: seq<Port>, id: int, guid: string)
    ensures PortsByID(ports, id) == |PositionsByID(ports, id)|
    ensures PortsByGUID(ports, guid) == |PositionsByGUID(ports, guid)|
  {
    FilterSize(ports, (p: Port) => CountsForID(p, id), PositionsByID(ports, id));
    FilterSize(ports, (p: Port) => CountsForGUID(p, guid), PositionsByGUID(ports, guid));
  }

  lemma KindKeepsLetters(n: Node)
    ensures IsKindOf(NormalizeKind(n.nodeKind), n)
  {
    var trimmed := Text.TrimSpace(n.nodeKind);
    if trimmed != "" {
      Text.CaseMeaning(trimmed, 0);
    }
  }

  /** View `i` shows node `i`. */
  lemma ViewsShowNodes(t: Topology, logID: int, nodes: seq<Node>, ports: seq<Port>, plan: Plan, i: nat)
    requires IsTopologyOf(t, logID, nodes, ports, plan) && i < |nodes|
    ensures |t.nodes| == |nodes| && ShowsNodeRow(t.nodes[i], nodes[i], ports)
  {
    CountsArePositions(ports, nodes[i].id, nodes[i].nodeGUID);
    KindKeepsLetters(nodes[i]);
  }

  // ---- Summary ----

  function PositionsOfKind(nodes: seq<Node>, kind: string): set<int> {
    set k | 0 <= k < |nodes| && HasKind(nodes[k], kind)
  }

  lemma KindCountIsPositions(nodes: seq<Node>, kind: string)
    requires kind in {"host", "switch"}
    ensures |OfKind(nodes, kind)| == |PositionsOfKind(nodes, kind)|
  {
    forall n: Node ensures NormalizeKind(n.nodeKind) == kind <==> HasKind(n, kind) {
      KindIsNormalized(n, kind);
    }
    hide NormalizeKind, HasKind;
    FilterSize(nodes, (n: Node) => NormalizeKind(n.nodeKind) == kind, PositionsOfKind(nodes, kind));
  }

  /** The summary counts what the answer lists, the input ports, and the nodes of the two kinds. */
  lemma SummaryCounts(t: Topology, logID: int, nodes: seq<Node>, ports: seq<Port>, plan: Plan)
    requires IsTopologyOf(t, logID, nodes, ports, plan)
    ensures t.logID == logID
    ensures t.summary.nodesCount == Int32(|t.nodes|) && t.summary.edgesCount == Int32(|t.edges|)
    ensures t.summary.portsCount == Int32(|ports|)
    ensures t.summary.hostsCount == Int32(|PositionsOfKind(nodes, "host")|)
    ensures t.summary.switchesCount == Int32(|PositionsOfKind(nodes, "switch")|)
  {
    KindCountIsPositions(nodes, "host");
    KindCountIsPositions(nodes, "switch");
  }

  // ---- Groups ----

  /** Hosts come first, switches next, unknown nodes after them, and then the other kinds in Go's string order. */
  predicate ComesBefore(a: string, b: string) {
    if b == "host" then false
    else if b == "switch" then a == "host"
    else if b == "unknown" then a == "host" || a == "switch"
    else a in {"host", "switch", "unknown"} || Text.Less(a, b)
  }

  lemma RankedBefore(a: string, b: string)
    requires KindLess(a, b)
    ensures ComesBefore(a, b)
  {
    assert "host"[0] != "switch"[0] && "switch"[0] != "unknown"[0] && "host"[0] != "unknown"[0];
    if a == b {
      Text.LessAsymmetric(a, b);
    }
  }

  lemma {:induction false} LowerStaysTrimmed(s: string)
    ensures Text.TrimSpace(Text.ToLower(Text.TrimSpace(s))) == Text.ToLower(Text.TrimSpace(s))
  {
    var trimmed := Text.TrimSpace(s);
    var lowered := Text.ToLower(trimmed);
    Text.TrimIsIdempotent(s, Text.IsSpace);
    if trimmed != "" {
      Text.CaseCharByChar(trimmed, 0);
      Text.CaseCharByChar(trimmed, |trimmed| - 1);
      assert Text.Trimmed(lowered, Text.IsSpace);
      Text.TrimUndoes([], lowered, [], Text.IsSpace);
      assert [] + lowered + [] == lowered;
    }
  }

  /** The title of a group: a word of its own for the three usual kinds, otherwise the kind with a capital. */
  predicate IsTitleOf(name: string, kind: string) {
    if kind == "host" then name == "Hosts"
    else if kind == "switch" then name == "Switches"
    else if kind == "unknown" then name == "Unknown"
    else kind != "" && |name| == |kind| && name[1..] == kind[1..] && name[..1] == Text.ToUpper(kind[..1])
  }

  lemma GroupNamesAreTitles(n: Node)
    ensures IsTitleOf(GroupName(NormalizeKind(n.nodeKind)), NormalizeKind(n.nodeKind))
  {
    var kind := NormalizeKind(n.nodeKind);
    LowerStaysTrimmed(n.nodeKind);
    if kind !in {"host", "switch", "unknown"} {
      assert |Text.ToUpper(kind[..1])| == 1 by { Text.CaseMeaning(kind[..1], 0); }
      assert kind[1..] == (Text.ToUpper(kind[..1]) + kind[1..])[1..];
    }
  }

  /** Entry `y` of the group is node `x`, by id and by GUID. */
  predicate Lists(g: Group, y: int, nodes: seq<Node>, x: int) {
    && 0 <= y < |g.nodeIDs| == |g.nodeGUIDs| && 0 <= x < |nodes|
    && g.nodeIDs[y] == nodes[x].id && g.nodeGUIDs[y] == nodes[x].nodeGUID && IsKindOf(g.kind, nodes[x])
  }

  /** The groups come in order and under their titles. */
  lemma GroupsAreOrdered(t: Topology, logID: int, nodes: seq<Node>, ports: seq<Port>, plan: Plan)
    requires IsTopologyOf(t, logID, nodes, ports, plan)
    ensures forall i, j | 0 <= i < j < |t.groups| :: ComesBefore(t.groups[i].kind, t.groups[j].kind)
    ensures forall i | 0 <= i < |t.groups| :: IsTitleOf(t.groups[i].name, t.groups[i].kind)
  {
    forall i, j | 0 <= i < j < |t.groups| ensures ComesBefore(t.groups[i].kind, t.groups[j].kind) {
      RankedBefore(t.groups[i].kind, t.groups[j].kind);
    }
    forall i | 0 <= i < |t.groups| ensures IsTitleOf(t.groups[i].name, t.groups[i].kind) {
      var members := OfKind(nodes, t.groups[i].kind);
      assert |members| == |t.groups[i].nodeIDs| > 0;
      assert members[0] in members;
      GroupNamesAreTitles(members[0]);
    }
  }

  /** Each entry of a group is a node of its kind, entries in the order of the nodes. */
  lemma GroupsListNodes(t: Topology, logID: int, nodes: seq<Node>, ports: seq<Port>, plan: Plan, i: nat, y: nat, z: nat)
    returns (x: nat, w: nat)
    requires IsTopologyOf(t, logID, nodes, ports, plan) && i < |t.groups| && y < z < |t.groups[i].nodeIDs|
    ensures x < w && Lists(t.groups[i], y, nodes, x) && Lists(t.groups[i], z, nodes, w)
  {
    var g := t.groups[i];
    assert g == GroupOf(nodes, g.kind);
    var members := OfKind(nodes, g.kind);
    x, w := FilterInOrder(nodes, (n: Node) => NormalizeKind(n.nodeKind) == g.kind, y, z);
    assert members[y] in members && members[z] in members;
    KindKeepsLetters(nodes[x]);
    KindKeepsLetters(nodes[w]);
  }

  /** Every node is listed in a group, id and GUID at the same place. */
  lemma NodesAreListed(t: Topology, logID: int, nodes: seq<Node>, ports: seq<Port>, plan: Plan, x: nat)
    returns (i: nat, y: nat)
    requires IsTopologyOf(t, logID, nodes, ports, plan) && x < |nodes|
    ensures i < |t.groups| && Lists(t.groups[i], y, nodes, x)
  {
    hide IsPlan;
    var kind := NormalizeKind(nodes[x].nodeKind);
    assert nodes[x] in nodes;
    var g := GroupOf(nodes, kind);
    i :| i < |t.groups| && t.groups[i] == g;
    var members := OfKind(nodes, kind);
    assert nodes[x] in members;
    y :| y < |members| && members[y] == nodes[x];
    KindKeepsLetters(nodes[x]);
  }
}
