/** Rows and comparisons of the topology service. */
module TopologyModel {
  import opened Domain
  import opened Seqs
  import opened Sorting
  import Text

  datatype NodeInfo = NodeInfo(serialNumber: string, productName: string)

  datatype Node = Node(
    id: int,
    logID: int,
    nodeGUID: string,
    nodeDesc: string,
    nodeType: int,
    nodeKind: string,
    numPorts: int,
    info: Option<NodeInfo>)

  datatype Port = Port(
    id: int,
    logID: int,
    nodeID: int,
    nodeGUID: string,
    portGUID: string,
    portNum: int,
    portState: int,
    linkWidthActive: int,
    linkSpeedActive: int)

  datatype Relation = InferredHostSwitch | InferredSwitchBackbone

  datatype Edge = Edge(
    sourceNodeID: int,
    sourceNodeGUID: string,
    sourcePortNum: int,
    sourcePortGUID: string,
    targetNodeID: int,
    targetNodeGUID: string,
    targetPortNum: int,
    targetPortGUID: string,
    relation: Relation,
    linkWidthActive: int,
    linkSpeedActive: int,
    portState: int)

  const HOST := "host"
  const SWITCH := "switch"
  const UNKNOWN := "unknown"

  function NormalizeKind(kind: string): (r: string)
    ensures r != ""
  {
    var lowered := Text.ToLower(Text.TrimSpace(kind));
    if lowered == "" then UNKNOWN else lowered
  }

  predicate IsActivePort(port: Port) {
    port.id > 0 && port.nodeID > 0 && port.portNum > 0 && port.portState == 4
  }

  /** Both link fields are known on both ends and agree. */
  predicate SameLink(a: Port, b: Port) {
    && a.linkWidthActive != 0 && b.linkWidthActive != 0
    && a.linkSpeedActive != 0 && b.linkSpeedActive != 0
    && a.linkWidthActive == b.linkWidthActive
    && a.linkSpeedActive == b.linkSpeedActive
  }

  /** The comparison `sortPorts` hands to the sort: node, then port number, then id. */
  predicate PortLess(a: Port, b: Port) {
    if a.nodeID != b.nodeID then a.nodeID < b.nodeID
    else if a.portNum != b.portNum then a.portNum < b.portNum
    else a.id < b.id
  }

  predicate NodeLess(a: Node, b: Node) {
    a.id < b.id
  }

  function PortID(port: Port): int {
    port.id
  }

  function NodeID(node: Node): int {
    node.id
  }

  ghost predicate DistinctPortIDs(ports: seq<Port>) {
    DistinctBy(ports, PortID)
  }

  ghost predicate DistinctNodeIDs(nodes: seq<Node>) {
    DistinctBy(nodes, NodeID)
  }

  function PortIDs(ports: seq<Port>): set<int> {
    set i | 0 <= i < |ports| :: ports[i].id
  }

  lemma ComparatorsAreStrictWeak()
    ensures StrictWeak(PortLess)
    ensures StrictWeak(NodeLess)
  {
  }

  lemma PortComparatorSeparates(ports: seq<Port>)
    requires DistinctPortIDs(ports)
    ensures Separates(ports, PortLess)
  {
  }

  lemma NodeComparatorSeparates(nodes: seq<Node>)
    requires DistinctNodeIDs(nodes)
    ensures Separates(nodes, NodeLess)
  {
  }
}
