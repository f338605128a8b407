/** The repository's four tables, their constraints, and the queries over one log. */
module Tables {
  import opened Domain
  import opened Seqs

  datatype LogRow = LogRow(filePath: string, status: Status, nodesCount: int, portsCount: int, errorText: string)

  datatype NodeRow = NodeRow(id: int, logID: int, node: ParsedNode)

  datatype InfoRow = InfoRow(id: int, nodeID: int, info: ParsedInfo)

  datatype PortRow = PortRow(id: int, logID: int, nodeID: int, port: ParsedPort)

  datatype Tables = Tables(logs: map<int, LogRow>, nodes: seq<NodeRow>, infos: seq<InfoRow>, ports: seq<PortRow>)

  /**
   The BIGSERIAL sequences. A drawn value is never drawn again, whether or not its row is kept. For nodes and
   ports the model remembers for which log each value was drawn: value `k` was drawn for `nodes[k - 1]`.
   */
  datatype Sequences = Sequences(logs: nat, nodes: seq<int>, infos: nat, ports: seq<int>)

  const EMPTY := Tables(map[], [], [], [])
  const UNDRAWN := Sequences(0, [], 0, [])

  // ---- Constraints, as the database checks them before an insert ----

  predicate HasNode(nodes: seq<NodeRow>, id: int) {
    exists i :: 0 <= i < |nodes| && nodes[i].id == id
  }

  /** Primary key, `nodes_log_guid_unique`, and the reference to the log. */
  predicate NodeAllowed(t: Tables, row: NodeRow) {
    && row.logID in t.logs
    && forall r | r in t.nodes :: r.id != row.id && !(r.logID == row.logID && r.node.nodeGUID == row.node.nodeGUID)
  }

  /** `nodes_info_node_unique` and the reference to the node. */
  predicate InfoAllowed(t: Tables, row: InfoRow) {
    HasNode(t.nodes, row.nodeID) && forall r | r in t.infos :: r.nodeID != row.nodeID
  }

  predicate SamePlace(a: PortRow, b: PortRow) {
    a.logID == b.logID && a.nodeID == b.nodeID && a.port.portNum == b.port.portNum
  }

  /** Primary key, `idx_ports_log_node_port_unique`, and the references to log and node. */
  predicate PortAllowed(t: Tables, row: PortRow) {
    && row.logID in t.logs
    && HasNode(t.nodes, row.nodeID)
    && forall r | r in t.ports :: r.id != row.id && !SamePlace(r, row)
  }

  // ---- The rows of one log ----

  function NodeRows(t: Tables, logID: int): seq<NodeRow> {
    Filter(t.nodes, (r: NodeRow) => r.logID == logID)
  }

  function NodeIDs(t: Tables, logID: int): set<int> {
    set i | 0 <= i < |t.nodes| && t.nodes[i].logID == logID :: t.nodes[i].id
  }

  function InfoRows(t: Tables, logID: int): seq<InfoRow> {
    var ids := NodeIDs(t, logID);
    Filter(t.infos, (r: InfoRow) => r.nodeID in ids)
  }

  function PortRows(t: Tables, logID: int): seq<PortRow> {
    Filter(t.ports, (r: PortRow) => r.logID == logID)
  }

  function NodesIn(rows: seq<NodeRow>): (s: seq<ParsedNode>)
    ensures |s| == |rows|
  {
    seq(|rows|, i requires 0 <= i < |rows| => rows[i].node)
  }

  function InfosIn(rows: seq<InfoRow>): (s: seq<ParsedInfo>)
    ensures |s| == |rows|
  {
    seq(|rows|, i requires 0 <= i < |rows| => rows[i].info)
  }

  function PortsIn(rows: seq<PortRow>): (s: seq<ParsedPort>)
    ensures |s| == |rows|
  {
    seq(|rows|, i requires 0 <= i < |rows| => rows[i].port)
  }

  /** What the tables hold of a log, without ids. */
  function Contents(t: Tables, logID: int): ParsedLog {
    ParsedLog(NodesIn(NodeRows(t, logID)), PortsIn(PortRows(t, logID)), InfosIn(InfoRows(t, logID)))
  }

  // ---- What every committed state satisfies ----

  /** Rows that can stand in the table together, the first before the second. */
  predicate NodesApart(a: NodeRow, b: NodeRow) {
    a.id != b.id && (a.logID == b.logID ==> a.id < b.id && a.node.nodeGUID != b.node.nodeGUID)
  }

  predicate InfosApart(a: InfoRow, b: InfoRow) {
    a.nodeID != b.nodeID
  }

  predicate PortsApart(a: PortRow, b: PortRow) {
    a.id != b.id && !SamePlace(a, b)
  }

  ghost predicate Pairwise<T>(s: seq<T>, apart: (T, T) -> bool) {
    forall i, j | 0 <= i < j < |s| :: apart(s[i], s[j])
  }

  lemma PairwiseAppend<T>(a: seq<T>, b: seq<T>, apart: (T, T) -> bool)
    requires Pairwise(a, apart) && Pairwise(b, apart)
    requires forall x, y | x in a && y in b :: apart(x, y)
    ensures Pairwise(a + b, apart)
  {
    forall i, j | 0 <= i < j < |a + b| ensures apart((a + b)[i], (a + b)[j]) {
      if i < |a| <= j {
        assert a[i] in a && b[j - |a|] in b;
      }
    }
  }

  /** The id was drawn from the sequence, for this log. */
  predicate Drawn(drawn: seq<int>, id: int, logID: int) {
    1 <= id <= |drawn| && drawn[id - 1] == logID
  }

  predicate IsParsed(logs: map<int, LogRow>, logID: int) {
    logID in logs && logs[logID].status.Parsed?
  }

  predicate NodeOK(logs: map<int, LogRow>, seqs: Sequences, r: NodeRow) {
    r.node.nodeGUID != "" && Drawn(seqs.nodes, r.id, r.logID) && IsParsed(logs, r.logID)
  }

  /** Some node has this id and this GUID. */
  predicate Refers(nodes: seq<NodeRow>, id: int, guid: string) {
    exists i :: 0 <= i < |nodes| && nodes[i].id == id && nodes[i].node.nodeGUID == guid
  }

  /** Some node of this log has this id and this GUID. */
  predicate RefersIn(nodes: seq<NodeRow>, id: int, logID: int, guid: string) {
    exists i :: 0 <= i < |nodes| && nodes[i].id == id && nodes[i].logID == logID && nodes[i].node.nodeGUID == guid
  }

  predicate PortOK(t: Tables, seqs: Sequences, r: PortRow) {
    && Drawn(seqs.ports, r.id, r.logID)
    && IsParsed(t.logs, r.logID)
    && RefersIn(t.nodes, r.nodeID, r.logID, r.port.nodeGUID)
  }

  /** Counts are stored as 32-bit numbers. */
  predicate LogOK(t: Tables, seqs: Sequences, logID: int)
    requires logID in t.logs
  {
    && 1 <= logID <= seqs.logs
    && (t.logs[logID].status.Parsed? ==>
      && t.logs[logID].nodesCount == Int32(|NodeRows(t, logID)|)
      && t.logs[logID].portsCount == Int32(|PortRows(t, logID)|))
  }

  ghost predicate DBInv(t: Tables, seqs: Sequences) {
    && (forall id | id in t.logs :: LogOK(t, seqs, id))
    && (forall r | r in t.nodes :: NodeOK(t.logs, seqs, r))
    && (forall r | r in t.infos :: Refers(t.nodes, r.nodeID, r.info.nodeGUID))
    && (forall r | r in t.ports :: PortOK(t, seqs, r))
    && Pairwise(t.nodes, NodesApart)
    && Pairwise(t.infos, InfosApart)
    && Pairwise(t.ports, PortsApart)
  }

  /** A log has node, info or port rows only if it is parsed. */
  lemma OnlyParsedLogsHaveRows(t: Tables, seqs: Sequences, logID: int)
    requires DBInv(t, seqs) && !IsParsed(t.logs, logID)
    ensures NodeRows(t, logID) == [] && InfoRows(t, logID) == [] && PortRows(t, logID) == []
    ensures NodeIDs(t, logID) == {}
  {
    FilterNone(t.nodes, (r: NodeRow) => r.logID == logID);
    var ids := NodeIDs(t, logID);
    assert forall i | 0 <= i < |t.nodes| :: t.nodes[i] in t.nodes;
    assert ids == {};
    FilterNone(t.infos, (r: InfoRow) => r.nodeID in ids);
    FilterNone(t.ports, (r: PortRow) => r.logID == logID);
  }

  // ---- Inserting the log row ----

  function FreshLog(path: string): LogRow {
    LogRow(path, Processing, 0, 0, "")
  }
}
