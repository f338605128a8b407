/** The topology answer: node views with port counters, groups by kind, summary. */
module TopologyView {
  import opened Domain
  import opened Seqs
  import opened Sorting
  import opened TopologyModel
  import opened Edges
  import Text

  datatype TopologyData = TopologyData(status: Status, nodes: seq<Node>, ports: seq<Port>)

  datatype TopologyNode = TopologyNode(
    id: int,
    logID: int,
    nodeGUID: string,
    nodeDesc: string,
    nodeType: int,
    nodeKind: string,
    declaredPortsCount: int,
    parsedPortsCount: int,
    serialNumber: string,
    productName: string)

  datatype Group = Group(name: string, kind: string, nodeIDs: seq<int>, nodeGUIDs: seq<string>)

  datatype Summary = Summary(nodesCount: int, portsCount: int, edgesCount: int, hostsCount: int, switchesCount: int)

  datatype Topology = Topology(logID: int, summary: Summary, nodes: seq<TopologyNode>, groups: seq<Group>,
    edges: seq<Edge>)

  /** `Upstream` stands for whatever error the repository client returned. */
  datatype TopologyError = BadArguments | LogNotParsed | Upstream

  // ---- Port counters ----

  predicate CountsForID(p: Port, id: int) {
    p.nodeID > 0 && p.nodeID == id
  }

  predicate CountsForGUID(p: Port, guid: string) {
    p.nodeGUID != "" && p.nodeGUID == guid
  }

  function PortsByID(ports: seq<Port>, id: int): nat {
    |Filter(ports, (p: Port) => CountsForID(p, id))|
  }

  function PortsByGUID(ports: seq<Port>, guid: string): nat {
    |Filter(ports, (p: Port) => CountsForGUID(p, guid))|
  }

  /** By node id, and by GUID only when that gives nothing. Counters are 32 bits wide. */
  function ParsedPorts(ports: seq<Port>, node: Node): int {
    var byID := Int32(PortsByID(ports, node.id));
    if byID == 0 then Int32(PortsByGUID(ports, node.nodeGUID)) else byID
  }

  function ViewOf(ports: seq<Port>, node: Node): TopologyNode {
    var info := if node.info.Some? then node.info.value else NodeInfo("", "");
    TopologyNode(node.id, node.logID, node.nodeGUID, node.nodeDesc, node.nodeType, NormalizeKind(node.nodeKind),
                 node.numPorts, ParsedPorts(ports, node), info.serialNumber, info.productName)
  }

  function At<K>(m: map<K, int>, k: K): int {
    if k in m then m[k] else 0
  }

  lemma PortCountStep(ports: seq<Port>, i: nat, id: int, guid: string)
    requires i < |ports|
    ensures PortsByID(ports[..i + 1], id) == PortsByID(ports[..i], id) + if CountsForID(ports[i], id) then 1 else 0
    ensures PortsByGUID(ports[..i + 1], guid) ==
      PortsByGUID(ports[..i], guid) + if CountsForGUID(ports[i], guid) then 1 else 0
  {
    assert ports[..i + 1] == ports[..i] + [ports[i]];
    FilterAppend(ports[..i], [ports[i]], (p: Port) => CountsForID(p, id));
    FilterAppend(ports[..i], [ports[i]], (p: Port) => CountsForGUID(p, guid));
  }

  ghost predicate CountsIDs(m: map<int, int>, ports: seq<Port>) {
    forall id :: At(m, id) == Int32(PortsByID(ports, id))
  }

  ghost predicate CountsGUIDs(m: map<string, int>, ports: seq<Port>) {
    forall guid :: At(m, guid) == Int32(PortsByGUID(ports, guid))
  }

  lemma IDCounterStep(m: map<int, int>, ports: seq<Port>, i: nat)
    requires i < |ports| && CountsIDs(m, ports[..i])
    ensures var id := ports[i].nodeID;
      CountsIDs(if id > 0 then m[id := Int32(At(m, id) + 1)] else m, ports[..i + 1])
  {
    var id := ports[i].nodeID;
    var m' := if id > 0 then m[id := Int32(At(m, id) + 1)] else m;
    forall x ensures At(m', x) == Int32(PortsByID(ports[..i + 1], x)) {
      PortCountStep(ports, i, x, "");
      Int32Absorbs(PortsByID(ports[..i], x), 1);
      assert At(m, x) == Int32(PortsByID(ports[..i], x));
    }
  }

  lemma GUIDCounterStep(m: map<string, int>, ports: seq<Port>, i: nat)
    requires i < |ports| && CountsGUIDs(m, ports[..i])
    ensures var guid := ports[i].nodeGUID;
      CountsGUIDs(if guid != "" then m[guid := Int32(At(m, guid) + 1)] else m, ports[..i + 1])
  {
    var guid := ports[i].nodeGUID;
    var m' := if guid != "" then m[guid := Int32(At(m, guid) + 1)] else m;
    forall x ensures At(m', x) == Int32(PortsByGUID(ports[..i + 1], x)) {
      PortCountStep(ports, i, 0, x);
      Int32Absorbs(PortsByGUID(ports[..i], x), 1);
      assert At(m, x) == Int32(PortsByGUID(ports[..i], x));
    }
  }

  method CountPorts(ports: seq<Port>) returns (byID: map<int, int>, byGUID: map<string, int>)
    ensures CountsIDs(byID, ports) && CountsGUIDs(byGUID, ports)
  {
    byID, byGUID := map[], map[];
    for i := 0 to |ports|
      invariant CountsIDs(byID, ports[..i]) && CountsGUIDs(byGUID, ports[..i])
    {
      IDCounterStep(byID, ports, i);
      GUIDCounterStep(byGUID, ports, i);
      if ports[i].nodeID > 0 {
        byID := byID[ports[i].nodeID := Int32(At(byID, ports[i].nodeID) + 1)];
      }
      if ports[i].nodeGUID != "" {
        byGUID := byGUID[ports[i].nodeGUID := Int32(At(byGUID, ports[i].nodeGUID) + 1)];
      }
    }
    assert ports[..|ports|] == ports;
  }

  // ---- Groups ----

  function IDsOf(nodes: seq<Node>): seq<int> {
    seq(|nodes|, i requires 0 <= i < |nodes| => nodes[i].id)
  }

  function GUIDsOf(nodes: seq<Node>): seq<string> {
    seq(|nodes|, i requires 0 <= i < |nodes| => nodes[i].nodeGUID)
  }

  /** `title`: trimmed, with the first letter in upper case. */
  function Title(value: string): string {
    var trimmed := Text.TrimSpace(value);
    if trimmed == "" then trimmed else Text.ToUpper(trimmed[..1]) + trimmed[1..]
  }

  function GroupName(kind: string): string {
    if kind == HOST then "Hosts"
    else if kind == SWITCH then "Switches"
    else if kind == UNKNOWN then "Unknown"
    else Title(kind)
  }

  /** The nodes of a kind, in input order, ids and GUIDs aligned. */
  function GroupOf(nodes: seq<Node>, kind: string): Group {
    Group(GroupName(kind), kind, IDsOf(OfKind(nodes, kind)), GUIDsOf(OfKind(nodes, kind)))
  }

  function KindRank(kind: string): nat {
    if kind == HOST then 0 else if kind == SWITCH then 1 else if kind == UNKNOWN then 2 else 3
  }

  /** Hosts, switches, unknown, and then the other kinds alphabetically. */
  predicate KindLess(a: string, b: string) {
    KindRank(a) < KindRank(b) || (KindRank(a) == KindRank(b) && Text.Less(a, b))
  }

  /** The groups are those of the map, each once, kinds strictly ascending. */
  ghost predicate IsOrdered(groups: seq<Group>, byKind: map<string, Group>) {
    && (forall i | 0 <= i < |groups| :: groups[i].kind in byKind && byKind[groups[i].kind] == groups[i])
    && (forall k | k in byKind :: byKind[k] in groups)
    && (forall i, j | 0 <= i < j < |groups| :: KindLess(groups[i].kind, groups[j].kind))
  }

  function GroupsFor(kinds: seq<string>, byKind: map<string, Group>): (groups: seq<Group>)
    requires forall i | 0 <= i < |kinds| :: kinds[i] in byKind
    ensures |groups| == |kinds|
  {
    seq(|kinds|, i requires 0 <= i < |kinds| => byKind[kinds[i]])
  }

  /** The kinds with a fixed place, among the first `n` places. */
  function FixedKinds(kinds: set<string>, n: nat): seq<string>
    requires n <= 3
  {
    if n == 0 then [] else FixedKinds(kinds, n - 1) + if FIXED_ORDER[n - 1] in kinds then [FIXED_ORDER[n - 1]] else []
  }

  const FIXED_ORDER: seq<string> := [HOST, SWITCH, UNKNOWN]

  lemma {:induction false} FixedKindsInOrder(kinds: set<string>, n: nat)
    requires n <= 3
    ensures var f := FixedKinds(kinds, n);
      && (forall k :: k in f <==> k in kinds && KindRank(k) < n)
      && (forall i, j | 0 <= i < j < |f| :: KindRank(f[i]) < KindRank(f[j]))
  {
    if 0 < n {
      FixedKindsInOrder(kinds, n - 1);
      var f, g := FixedKinds(kinds, n), FixedKinds(kinds, n - 1);
      assert KindRank(FIXED_ORDER[n - 1]) == n - 1;
      forall i, j | 0 <= i < j < |f| ensures KindRank(f[i]) < KindRank(f[j]) {
        assert f[i] == g[i] && g[i] in g;
      }
    }
  }

  ghost predicate Ascending(kinds: seq<string>) {
    forall i, j | 0 <= i < j < |kinds| :: KindLess(kinds[i], kinds[j])
  }

  /** The kinds with a fixed place, in their places. */
  ghost predicate AreFixedKinds(fixed: seq<string>, kinds: set<string>) {
    && (forall k :: k in fixed <==> k in kinds && KindRank(k) < 3)
    && (forall i, j | 0 <= i < j < |fixed| :: KindRank(fixed[i]) < KindRank(fixed[j]))
  }

  /** All other kinds, in alphabetical order. */
  ghost predicate AreOtherKinds(rest: seq<string>, kinds: set<string>) {
    && (forall k :: k in rest <==> k in kinds && KindRank(k) == 3)
    && (forall i, j | 0 <= i < j < |rest| :: Text.Less(rest[i], rest[j]))
  }

  lemma FixedThenRest(fixed: seq<string>, rest: seq<string>, kinds: set<string>)
    requires AreFixedKinds(fixed, kinds) && AreOtherKinds(rest, kinds)
    ensures forall k :: k in fixed + rest <==> k in kinds
    ensures Ascending(fixed + rest)
  {
    var all := fixed + rest;
    assert forall k :: k in all <==> k in fixed || k in rest;
    forall i, j | 0 <= i < j < |all| ensures KindLess(all[i], all[j]) {
      if |fixed| <= j {
        assert all[j] == rest[j - |fixed|] && rest[j - |fixed|] in rest;
        assert i < |fixed| ==> all[i] in fixed;
      }
    }
  }

  lemma AscendingKindsGiveOrderedGroups(kinds: seq<string>, byKind: map<string, Group>)
    requires forall k | k in byKind :: byKind[k].kind == k
    requires forall k :: k in kinds <==> k in byKind
    requires Ascending(kinds)
    ensures IsOrdered(GroupsFor(kinds, byKind), byKind)
  {
    var groups := GroupsFor(kinds, byKind);
    forall k | k in byKind ensures byKind[k] in groups {
      var i :| 0 <= i < |kinds| && kinds[i] == k;
      assert groups[i] == byKind[k];
    }
    assert forall i | 0 <= i < |groups| :: groups[i].kind == kinds[i];
  }

  method GroupsFromMap(byKind: map<string, Group>) returns (groups: seq<Group>)
    requires forall k | k in byKind :: byKind[k].kind == k
    ensures IsOrdered(groups, byKind)
  {
    ghost var fixed;
    groups, fixed := FixedGroups(byKind);
    var rest := OtherKinds(byKind.Keys);
    FixedThenRest(fixed, rest, byKind.Keys);
    ghost var kinds := fixed + rest;
    groups := AppendGroups(groups, fixed, rest, byKind);
    AscendingKindsGiveOrderedGroups(kinds, byKind);
  }

  method FixedGroups(byKind: map<string, Group>) returns (groups: seq<Group>, ghost fixed: seq<string>)
    ensures AreFixedKinds(fixed, byKind.Keys)
    ensures groups == GroupsFor(fixed, byKind)
  {
    groups, fixed := [], [];
    for i := 0 to 3
      invariant fixed == FixedKinds(byKind.Keys, i)
      invariant forall k | k in fixed :: k in byKind
      invariant groups == GroupsFor(fixed, byKind)
    {
      if FIXED_ORDER[i] in byKind {
        groups := groups + [byKind[FIXED_ORDER[i]]];
        fixed := fixed + [FIXED_ORDER[i]];
      }
    }
    FixedKindsInOrder(byKind.Keys, 3);
  }

  method AppendGroups(first: seq<Group>, ghost kinds: seq<string>, rest: seq<string>, byKind: map<string, Group>)
    returns (groups: seq<Group>)
    requires forall k | k in kinds + rest :: k in byKind
    requires forall i | 0 <= i < |kinds| :: kinds[i] in byKind
    requires first == GroupsFor(kinds, byKind)
    ensures groups == GroupsFor(kinds + rest, byKind)
  {
    groups := first;
    for i := 0 to |rest|
      invariant forall k | k in kinds + rest[..i] :: k in byKind
      invariant groups == GroupsFor(kinds + rest[..i], byKind)
    {
      assert (kinds + rest)[|kinds| + i] == rest[i];
      groups := groups + [byKind[rest[i]]];
    }
    assert rest[..|rest|] == rest;
  }

  /** The kinds that have no fixed place, collected in whatever order and then sorted. */
  method OtherKinds(kinds: set<string>) returns (rest: seq<string>)
    ensures AreOtherKinds(rest, kinds)
  {
    rest := [];
    var todo := kinds;
    while todo != {}
      invariant todo <= kinds
      invariant forall k :: k in rest <==> k in kinds && k !in todo && KindRank(k) == 3
      invariant Distinct(rest)
      decreases todo
    {
      assert (forall k :: k !in todo) ==> todo == {};
      var kind :| kind in todo;
      if kind != HOST && kind != SWITCH && kind != UNKNOWN {
        rest := rest + [kind];
      }
      todo := todo - {kind};
    }
    rest := SortStrings(rest);
  }

  lemma StringsAreStrictWeak()
    ensures StrictWeak(Text.Less)
  {
    forall x, y | Text.Less(x, y) ensures !Text.Less(y, x) {
      Text.LessAsymmetric(x, y);
    }
    forall x, y, z | !Text.Less(y, x) && !Text.Less(z, y) ensures !Text.Less(z, x) {
      Text.NotLessTransitive(x, y, z);
    }
  }

  /** `sort.Strings` on distinct strings. */
  method SortStrings(s: seq<string>) returns (sorted: seq<string>)
    requires Distinct(s)
    ensures forall k :: k in sorted <==> k in s
    ensures forall i, j | 0 <= i < j < |sorted| :: Text.Less(sorted[i], sorted[j])
  {
    StringsAreStrictWeak();
    sorted := Sort(s, Text.Less);
    forall k ensures k in sorted <==> k in s {
      assert k in multiset(sorted) <==> k in multiset(s);
    }
    DistinctPermutes(s, sorted);
    forall i, j | 0 <= i < j < |sorted| ensures Text.Less(sorted[i], sorted[j]) {
      Text.LessTotal(sorted[i], sorted[j]);
    }
  }

  // ---- The whole answer ----

  function ViewsOf(ports: seq<Port>, nodes: seq<Node>): (views: seq<TopologyNode>)
    ensures |views| == |nodes|
  {
    seq(|nodes|, i requires 0 <= i < |nodes| => ViewOf(ports, nodes[i]))
  }

  ghost predicate IndexesByKind(byKind: map<string, Group>, nodes: seq<Node>) {
    forall k :: (k in byKind <==> OfKind(nodes, k) != []) && (k in byKind ==> byKind[k] == GroupOf(nodes, k))
  }

  /** A group with one more node at its end. */
  function WithNode(group: Group, node: Node): Group {
    group.(nodeIDs := group.nodeIDs + [node.id], nodeGUIDs := group.nodeGUIDs + [node.nodeGUID])
  }

  lemma GroupStep(nodes: seq<Node>, i: nat, kind: string)
    requires i < |nodes|
    ensures OfKind(nodes[..i + 1], kind) ==
      OfKind(nodes[..i], kind) + if NormalizeKind(nodes[i].nodeKind) == kind then [nodes[i]] else []
    ensures GroupOf(nodes[..i + 1], kind) ==
      if NormalizeKind(nodes[i].nodeKind) == kind then WithNode(GroupOf(nodes[..i], kind), nodes[i])
      else GroupOf(nodes[..i], kind)
  {
    OfKindStep(nodes, i, kind);
    var before, after := OfKind(nodes[..i], kind), OfKind(nodes[..i + 1], kind);
    if NormalizeKind(nodes[i].nodeKind) == kind {
      assert IDsOf(after) == IDsOf(before) + [nodes[i].id];
      assert GUIDsOf(after) == GUIDsOf(before) + [nodes[i].nodeGUID];
    }
  }

  lemma KindIndexStep(byKind: map<string, Group>, nodes: seq<Node>, i: nat, kind: string, group: Group)
    requires i < |nodes| && IndexesByKind(byKind, nodes[..i])
    requires kind == NormalizeKind(nodes[i].nodeKind)
    requires group == if kind in byKind then byKind[kind] else Group(GroupName(kind), kind, [], [])
    ensures IndexesByKind(byKind[kind := WithNode(group, nodes[i])], nodes[..i + 1])
  {
    var byKind' := byKind[kind := WithNode(group, nodes[i])];
    forall k
      ensures k in byKind' <==> OfKind(nodes[..i + 1], k) != []
      ensures k in byKind' ==> byKind'[k] == GroupOf(nodes[..i + 1], k)
    {
      assert group == GroupOf(nodes[..i], kind);
      GroupStep(nodes, i, k);
    }
  }

  method GroupNodes(nodes: seq<Node>) returns (byKind: map<string, Group>)
    ensures IndexesByKind(byKind, nodes)
  {
    byKind := map[];
    for i := 0 to |nodes|
      invariant IndexesByKind(byKind, nodes[..i])
    {
      var kind := NormalizeKind(nodes[i].nodeKind);
      var group := if kind in byKind then byKind[kind] else Group(GroupName(kind), kind, [], []);
      KindIndexStep(byKind, nodes, i, kind, group);
      byKind := byKind[kind := WithNode(group, nodes[i])];
    }
    assert nodes[..|nodes|] == nodes;
  }

  method ViewNode(node: Node, byID: map<int, int>, byGUID: map<string, int>, ghost ports: seq<Port>)
    returns (view: TopologyNode)
    requires CountsIDs(byID, ports) && CountsGUIDs(byGUID, ports)
    ensures view == ViewOf(ports, node)
  {
    assert At(byID, node.id) == Int32(PortsByID(ports, node.id));
    assert At(byGUID, node.nodeGUID) == Int32(PortsByGUID(ports, node.nodeGUID));
    var parsedPorts := At(byID, node.id);
    if parsedPorts == 0 {
      parsedPorts := At(byGUID, node.nodeGUID);
    }
    var info := if node.info.Some? then node.info.value else NodeInfo("", "");
    view := TopologyNode(node.id, node.logID, node.nodeGUID, node.nodeDesc, node.nodeType, NormalizeKind(node.nodeKind),
                         node.numPorts, parsedPorts, info.serialNumber, info.productName);
  }

  ghost predicate CountsKind(counter: int, nodes: seq<Node>, kind: string) {
    counter == Int32(|OfKind(nodes, kind)|)
  }

  lemma KindCounterStep(counter: int, nodes: seq<Node>, i: nat, kind: string)
    requires i < |nodes| && CountsKind(counter, nodes[..i], kind)
    ensures CountsKind(if NormalizeKind(nodes[i].nodeKind) == kind then Int32(counter + 1) else counter,
                       nodes[..i + 1], kind)
  {
    OfKindStep(nodes, i, kind);
    Int32Absorbs(|OfKind(nodes[..i], kind)|, 1);
  }

  method CountKinds(nodes: seq<Node>) returns (hosts: int, switches: int)
    ensures CountsKind(hosts, nodes, HOST) && CountsKind(switches, nodes, SWITCH)
  {
    hosts, switches := 0, 0;
    assert HOST[0] != SWITCH[0];
    for i := 0 to |nodes|
      invariant CountsKind(hosts, nodes[..i], HOST) && CountsKind(switches, nodes[..i], SWITCH)
    {
      KindCounterStep(hosts, nodes, i, HOST);
      KindCounterStep(switches, nodes, i, SWITCH);
      var kind := NormalizeKind(nodes[i].nodeKind);
      if kind == HOST {
        hosts := Int32(hosts + 1);
      } else if kind == SWITCH {
        switches := Int32(switches + 1);
      }
    }
    assert nodes[..|nodes|] == nodes;
  }

  method ViewNodes(nodes: seq<Node>, ports: seq<Port>) returns (views: seq<TopologyNode>)
    ensures views == ViewsOf(ports, nodes)
  {
    var byID, byGUID := CountPorts(ports);
    views := [];
    for i := 0 to |nodes|
      invariant views == ViewsOf(ports, nodes[..i])
    {
      var view := ViewNode(nodes[i], byID, byGUID, ports);
      views := views + [view];
    }
    assert nodes[..|nodes|] == nodes;
  }

  /** Kinds ascend, every group lists exactly the nodes of its kind in input order, and no node is missing. */
  ghost predicate AreGroups(groups: seq<Group>, nodes: seq<Node>) {
    && (forall i, j | 0 <= i < j < |groups| :: KindLess(groups[i].kind, groups[j].kind))
    && (forall i | 0 <= i < |groups| :: groups[i] == GroupOf(nodes, groups[i].kind) && groups[i].nodeIDs != [])
    && (forall n | n in nodes :: GroupOf(nodes, NormalizeKind(n.nodeKind)) in groups)
  }

  lemma OrderedIndexGivesGroups(groups: seq<Group>, byKind: map<string, Group>, nodes: seq<Node>)
    requires IndexesByKind(byKind, nodes) && IsOrdered(groups, byKind)
    ensures AreGroups(groups, nodes)
  {
    forall n | n in nodes ensures GroupOf(nodes, NormalizeKind(n.nodeKind)) in groups {
      assert n in OfKind(nodes, NormalizeKind(n.nodeKind));
      assert NormalizeKind(n.nodeKind) in byKind;
    }
  }

  ghost predicate IsTopologyOf(t: Topology, logID: int, nodes: seq<Node>, ports: seq<Port>, plan: Plan) {
    && t.logID == logID
    && t.nodes == ViewsOf(ports, nodes)
    && AreGroups(t.groups, nodes)
    && IsPlan(nodes, ports, plan) && t.edges == EdgesOf(PlanLinks(plan))
    && t.summary == Summary(Int32(|nodes|), Int32(|ports|), Int32(|t.edges|),
                            Int32(|OfKind(nodes, HOST)|), Int32(|OfKind(nodes, SWITCH)|))
  }

  method GetTopology(logID: int, fetched: Option<TopologyData>)
    returns (r: Result<Topology, TopologyError>, ghost plan: Plan)
    ensures r == Err(BadArguments) <==> logID <= 0
    ensures r == Err(Upstream) <==> logID > 0 && fetched.None?
    ensures r == Err(LogNotParsed) <==> logID > 0 && fetched.Some? && fetched.value.status != Parsed
    ensures r.Ok? ==> IsTopologyOf(r.value, logID, fetched.value.nodes, fetched.value.ports, plan)
  {
    plan := Plan(map[], [], [], [], map[]);
    if logID <= 0 {
      return Err(BadArguments), plan;
    }
    if fetched.None? {
      return Err(Upstream), plan;
    }
    var data := fetched.value;
    if data.status != Parsed {
      return Err(LogNotParsed), plan;
    }
    var views := ViewNodes(data.nodes, data.ports);
    var hosts, switches := CountKinds(data.nodes);
    var byKind := GroupNodes(data.nodes);
    var groups := GroupsFromMap(byKind);
    OrderedIndexGivesGroups(groups, byKind, data.nodes);
    var edges;
    edges, plan := BuildEdges(data.nodes, data.ports);
    r := Ok(Topology(logID,
                     Summary(Int32(|data.nodes|), Int32(|data.ports|), Int32(|edges|), hosts, switches),
                     views, groups, edges));
  }

  // ---- Groups partition the nodes ----

  function TotalSize(groups: seq<Group>): nat {
    if groups == [] then 0 else |groups[0].nodeIDs| + TotalSize(groups[1..])
  }

  function OfKinds(nodes: seq<Node>, kinds: seq<string>): nat {
    if kinds == [] then 0 else |OfKind(nodes, kinds[0])| + OfKinds(nodes, kinds[1..])
  }

  lemma {:induction false} OneMoreNode(nodes: seq<Node>, i: nat, kinds: seq<string>)
    requires i < |nodes| && Distinct(kinds)
    ensures OfKinds(nodes[..i + 1], kinds) ==
      OfKinds(nodes[..i], kinds) + if NormalizeKind(nodes[i].nodeKind) in kinds then 1 else 0
  {
    if kinds != [] {
      OfKindStep(nodes, i, kinds[0]);
      OneMoreNode(nodes, i, kinds[1..]);
      assert kinds[0] !in kinds[1..];
    }
  }

  lemma AllKindsCoverNodes(nodes: seq<Node>, kinds: seq<string>)
    requires Distinct(kinds) && forall n | n in nodes :: NormalizeKind(n.nodeKind) in kinds
    ensures OfKinds(nodes, kinds) == |nodes|
  {
    for i := 0 to |nodes|
      invariant OfKinds(nodes[..i], kinds) == i
    {
      OneMoreNode(nodes, i, kinds);
    }
    assert nodes[..|nodes|] == nodes;
  }

  function KindsOf(groups: seq<Group>): (kinds: seq<string>)
    ensures |kinds| == |groups|
    ensures forall i | 0 <= i < |groups| :: kinds[i] == groups[i].kind
  {
    seq(|groups|, i requires 0 <= i < |groups| => groups[i].kind)
  }

  lemma {:induction false} TotalSizeIsOfKinds(groups: seq<Group>, nodes: seq<Node>)
    requires forall i | 0 <= i < |groups| :: groups[i] == GroupOf(nodes, groups[i].kind)
    ensures TotalSize(groups) == OfKinds(nodes, KindsOf(groups))
  {
    if groups != [] {
      assert KindsOf(groups)[1..] == KindsOf(groups[1..]);
      assert KindsOf(groups)[0] == groups[0].kind;
      TotalSizeIsOfKinds(groups[1..], nodes);
    }
  }

  lemma AscendingIsDistinct(kinds: seq<string>)
    requires Ascending(kinds)
    ensures Distinct(kinds)
  {
    forall i, j | 0 <= i < j < |kinds| ensures kinds[i] != kinds[j] {
      StringsAreStrictWeak();
      assert KindLess(kinds[i], kinds[j]);
    }
  }

  /**
   The groups partition the nodes: their sizes add up to the number of nodes, every node is listed in the
   group of its kind, and no two groups share a kind.
   */
  lemma GroupsPartitionTheNodes(groups: seq<Group>, nodes: seq<Node>)
    requires AreGroups(groups, nodes)
    ensures TotalSize(groups) == |nodes|
    ensures Distinct(KindsOf(groups))
    ensures forall n | n in nodes ::
      exists g :: g in groups && g.kind == NormalizeKind(n.nodeKind) && n.id in g.nodeIDs && n.nodeGUID in g.nodeGUIDs
  {
    AscendingIsDistinct(KindsOf(groups));
    forall n | n in nodes
      ensures NormalizeKind(n.nodeKind) in KindsOf(groups)
      ensures exists g ::
        g in groups && g.kind == NormalizeKind(n.nodeKind) && n.id in g.nodeIDs && n.nodeGUID in g.nodeGUIDs
    {
      var kind := NormalizeKind(n.nodeKind);
      var g := GroupOf(nodes, kind);
      var i :| 0 <= i < |groups| && groups[i] == g;
      assert KindsOf(groups)[i] == kind;
      var members := OfKind(nodes, kind);
      assert n in members;
      var j :| 0 <= j < |members| && members[j] == n;
      assert g.nodeIDs[j] == n.id && g.nodeGUIDs[j] == n.nodeGUID;
    }
    TotalSizeIsOfKinds(groups, nodes);
    AllKindsCoverNodes(nodes, KindsOf(groups));
  }

  /** The host and switch counters of the summary are the sizes of those groups, as 32-bit numbers. */
  lemma CountersAreGroupSizes(t: Topology, logID: int, nodes: seq<Node>, ports: seq<Port>, plan: Plan, i: nat)
    requires IsTopologyOf(t, logID, nodes, ports, plan) && i < |t.groups|
    ensures t.groups[i].kind == HOST ==> t.summary.hostsCount == Int32(|t.groups[i].nodeIDs|)
    ensures t.groups[i].kind == SWITCH ==> t.summary.switchesCount == Int32(|t.groups[i].nodeIDs|)
    ensures t.summary.nodesCount == Int32(TotalSize(t.groups))
  {
    GroupsPartitionTheNodes(t.groups, nodes);
    assert t.groups[i] == GroupOf(nodes, t.groups[i].kind);
  }

  // ---- Port counters add up ----

  /** What the repository guarantees about the rows of a parsed log. */
  ghost predicate PortsBelongToNodes(nodes: seq<Node>, ports: seq<Port>) {
    && DistinctNodeIDs(nodes)
    && (forall n | n in nodes :: n.id > 0)
    && (forall i, j | 0 <= i < j < |nodes| :: nodes[i].nodeGUID != nodes[j].nodeGUID)
    && (forall p | p in ports :: exists n :: n in nodes && n.id == p.nodeID && n.nodeGUID == p.nodeGUID)
  }

  function SumByID(nodes: seq<Node>, ports: seq<Port>): nat {
    if nodes == [] then 0 else PortsByID(ports, nodes[0].id) + SumByID(nodes[1..], ports)
  }

  function SumParsed(views: seq<TopologyNode>): int {
    if views == [] then 0 else views[0].parsedPortsCount + SumParsed(views[1..])
  }

  lemma {:induction false} OneMorePort(nodes: seq<Node>, ports: seq<Port>, i: nat)
    requires i < |ports| && DistinctNodeIDs(nodes)
    ensures SumByID(nodes, ports[..i + 1]) == SumByID(nodes, ports[..i]) +
      if exists n :: n in nodes && CountsForID(ports[i], n.id) then 1 else 0
  {
    if nodes != [] {
      PortCountStep(ports, i, nodes[0].id, "");
      OneMorePort(nodes[1..], ports, i);
      if CountsForID(ports[i], nodes[0].id) {
        forall n | n in nodes[1..] ensures !CountsForID(ports[i], n.id) {
          assert NodeID(nodes[0]) != NodeID(n);
        }
      } else {
        assert forall n | n in nodes :: n == nodes[0] || n in nodes[1..];
        assert forall n | n in nodes[1..] :: n in nodes;
      }
    }
  }

  lemma CountsAddUp(nodes: seq<Node>, ports: seq<Port>)
    requires PortsBelongToNodes(nodes, ports)
    ensures SumByID(nodes, ports) == |ports|
  {
    NoPortsNoCount(nodes);
    for i := 0 to |ports|
      invariant SumByID(nodes, ports[..i]) == i
    {
      OneMorePort(nodes, ports, i);
      assert ports[i] in ports;
      var n :| n in nodes && n.id == ports[i].nodeID && n.nodeGUID == ports[i].nodeGUID;
      assert CountsForID(ports[i], n.id);
    }
    assert ports[..|ports|] == ports;
  }

  lemma {:induction false} NoPortsNoCount(nodes: seq<Node>)
    ensures SumByID(nodes, []) == 0
  {
    if nodes != [] {
      NoPortsNoCount(nodes[1..]);
    }
  }

  /** A port has a node's GUID exactly when it has the node's id. */
  lemma GUIDLeadsToNode(nodes: seq<Node>, ports: seq<Port>, n: Node, p: Port)
    requires PortsBelongToNodes(nodes, ports)
    requires n in nodes && p in ports
    ensures p.nodeGUID == n.nodeGUID <==> CountsForID(p, n.id)
  {
    var m :| m in nodes && m.id == p.nodeID && m.nodeGUID == p.nodeGUID;
    var i :| 0 <= i < |nodes| && nodes[i] == n;
    var j :| 0 <= j < |nodes| && nodes[j] == m;
    assert i != j ==> NodeID(nodes[i]) != NodeID(nodes[j]);
  }

  lemma SameCountByGUID(nodes: seq<Node>, ports: seq<Port>, n: Node)
    requires PortsBelongToNodes(nodes, ports) && n in nodes
    ensures PortsByGUID(ports, n.nodeGUID) == if n.nodeGUID == "" then 0 else PortsByID(ports, n.id)
  {
    if n.nodeGUID == "" {
      FilterNone(ports, (p: Port) => CountsForGUID(p, n.nodeGUID));
    } else {
      forall p | p in ports ensures CountsForGUID(p, n.nodeGUID) == CountsForID(p, n.id) {
        GUIDLeadsToNode(nodes, ports, n, p);
      }
      FilterSameOn(ports, (p: Port) => CountsForGUID(p, n.nodeGUID), (p: Port) => CountsForID(p, n.id));
    }
  }

  /**
   Once rows satisfy the repository's invariant the GUID fallback never contributes, not even when the count by id
   wraps to zero.
   */
  lemma FallbackNeverContributes(nodes: seq<Node>, ports: seq<Port>, n: Node)
    requires PortsBelongToNodes(nodes, ports) && n in nodes
    ensures ParsedPorts(ports, n) == Int32(PortsByID(ports, n.id))
    ensures |ports| < 0x8000_0000 ==> ParsedPorts(ports, n) == PortsByID(ports, n.id)
  {
    SameCountByGUID(nodes, ports, n);
  }

  lemma SumParsedStep(ports: seq<Port>, part: seq<Node>)
    requires part != []
    ensures SumParsed(ViewsOf(ports, part)) == ParsedPorts(ports, part[0]) + SumParsed(ViewsOf(ports, part[1..]))
  {
    assert ViewsOf(ports, part)[1..] == ViewsOf(ports, part[1..]);
  }

  /** The nodes' counts add up as their counters do: exactly, or modulo the width of the counters. */
  lemma {:induction false} SumParsedWraps(nodes: seq<Node>, ports: seq<Port>, part: seq<Node>)
    requires PortsBelongToNodes(nodes, ports)
    requires forall n | n in part :: n in nodes
    ensures Int32(SumParsed(ViewsOf(ports, part))) == Int32(SumByID(part, ports))
  {
    hide Int32, PortsByID, PortsBelongToNodes, ParsedPorts, ViewOf;
    if part != [] {
      FallbackNeverContributes(nodes, ports, part[0]);
      SumParsedStep(ports, part);
      SumParsedWraps(nodes, ports, part[1..]);
      Int32Sums(PortsByID(ports, part[0].id), SumParsed(ViewsOf(ports, part[1..])), SumByID(part[1..], ports));
    }
  }

  lemma {:induction false} SumParsedIsSumByID(nodes: seq<Node>, ports: seq<Port>, part: seq<Node>)
    requires PortsBelongToNodes(nodes, ports) && |ports| < 0x8000_0000
    requires forall n | n in part :: n in nodes
    ensures SumParsed(ViewsOf(ports, part)) == SumByID(part, ports)
  {
    hide Int32, PortsByID, PortsBelongToNodes, ParsedPorts, ViewOf;
    if part != [] {
      FallbackNeverContributes(nodes, ports, part[0]);
      SumParsedStep(ports, part);
      SumParsedIsSumByID(nodes, ports, part[1..]);
    }
  }

  /** No port is lost or counted twice: the nodes' parsed port counts add up to the summary's port count. */
  lemma ParsedPortCountsAddUp(t: Topology, logID: int, nodes: seq<Node>, ports: seq<Port>, plan: Plan)
    requires IsTopologyOf(t, logID, nodes, ports, plan)
    requires PortsBelongToNodes(nodes, ports)
    ensures Int32(SumParsed(t.nodes)) == t.summary.portsCount
    ensures |ports| < 0x8000_0000 ==> SumParsed(t.nodes) == t.summary.portsCount == |ports|
  {
    SumParsedWraps(nodes, ports, nodes);
    CountsAddUp(nodes, ports);
    if |ports| < 0x8000_0000 {
      SumParsedIsSumByID(nodes, ports, nodes);
    }
  }
}
