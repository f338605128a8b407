/** `GetTopologyData`: what a snapshot of the tables gives to the topology service. */
module Snapshots {
  import opened Domain
  import opened Seqs
  import opened Sorting
  import opened Tables
  import TM = TopologyModel
  import opened TopologyView
  import opened EdgeCounting

  datatype LogData = LogData(log: LogRow, nodes: seq<TM.Node>, ports: seq<TM.Port>)

  /** What the topology service uses of it. */
  function ForTopology(data: LogData): TopologyData {
    TopologyData(data.log.status, data.nodes, data.ports)
  }

  function NodeView(r: NodeRow, info: Option<InfoRow>): TM.Node {
    TM.Node(r.id, r.logID, r.node.nodeGUID, r.node.nodeDesc, r.node.nodeType, r.node.nodeKind, r.node.numPorts,
            match info case None => None case Some(i) => Some(TM.NodeInfo(i.info.serialNumber, i.info.productName)))
  }

  function PortView(r: PortRow): TM.Port {
    TM.Port(r.id, r.logID, r.nodeID, r.port.nodeGUID, r.port.portGUID, r.port.portNum, r.port.portState,
            r.port.linkWidthActive, r.port.linkSpeedActive)
  }

  // ---- The queries ----

  function InfosFor(t: Tables, id: int): seq<InfoRow> {
    Filter(t.infos, (r: InfoRow) => r.nodeID == id)
  }

  /** A left join repeats a node for every matching info, and keeps it without one. */
  function JoinRow(t: Tables, r: NodeRow): seq<TM.Node> {
    var infos := InfosFor(t, r.id);
    if infos == [] then [NodeView(r, None)]
    else seq(|infos|, i requires 0 <= i < |infos| => NodeView(r, Some(infos[i])))
  }

  function Join(t: Tables, rows: seq<NodeRow>): seq<TM.Node> {
    if rows == [] then [] else Join(t, rows[..|rows| - 1]) + JoinRow(t, rows[|rows| - 1])
  }

  predicate NodeRowLess(a: NodeRow, b: NodeRow) {
    a.id < b.id
  }

  /** `ORDER BY node_id, port_num, id`. */
  predicate PortRowLess(a: PortRow, b: PortRow) {
    if a.nodeID != b.nodeID then a.nodeID < b.nodeID
    else if a.port.portNum != b.port.portNum then a.port.portNum < b.port.portNum
    else a.id < b.id
  }

  lemma RowOrdersAreStrictWeak()
    ensures StrictWeak(NodeRowLess) && StrictWeak(PortRowLess)
  {
  }

  function SelectNodes(t: Tables, logID: int): seq<TM.Node> {
    RowOrdersAreStrictWeak();
    Join(t, Sort(NodeRows(t, logID), NodeRowLess))
  }

  function SortedPortRows(t: Tables, logID: int): seq<PortRow> {
    RowOrdersAreStrictWeak();
    Sort(PortRows(t, logID), PortRowLess)
  }

  function SelectPorts(t: Tables, logID: int): seq<TM.Port> {
    var rows := SortedPortRows(t, logID);
    seq(|rows|, i requires 0 <= i < |rows| => PortView(rows[i]))
  }

  /** The three reads of one read-only transaction, all from the same snapshot. */
  function ReadLog(t: Tables, logID: int): Option<LogData> {
    if logID !in t.logs then None else Some(LogData(t.logs[logID], SelectNodes(t, logID), SelectPorts(t, logID)))
  }

  // ---- Row lists of one log ----

  lemma PairwiseFilter<T>(s: seq<T>, keep: T -> bool, apart: (T, T) -> bool)
    requires Pairwise(s, apart)
    ensures Pairwise(Filter(s, keep), apart)
  {
    forall i, j | 0 <= i < j < |Filter(s, keep)| ensures apart(Filter(s, keep)[i], Filter(s, keep)[j]) {
      var a, b := FilterInOrder(s, keep, i, j);
    }
  }

  lemma AtMostOneInfo(t: Tables, seqs: Sequences, id: int)
    requires DBInv(t, seqs)
    ensures |InfosFor(t, id)| <= 1
  {
    var infos := InfosFor(t, id);
    PairwiseFilter(t.infos, (r: InfoRow) => r.nodeID == id, InfosApart);
    assert forall i | 0 <= i < |infos| :: infos[i] in infos;
    assert |infos| > 1 ==> InfosApart(infos[0], infos[1]);
  }

  lemma NodeRowsAreSorted(t: Tables, seqs: Sequences, logID: int)
    requires DBInv(t, seqs)
    ensures Pairwise(NodeRows(t, logID), NodesApart)
    ensures Sort(NodeRows(t, logID), NodeRowLess) == NodeRows(t, logID)
  {
    var rows := NodeRows(t, logID);
    RowOrdersAreStrictWeak();
    PairwiseFilter(t.nodes, (r: NodeRow) => r.logID == logID, NodesApart);
    forall i, j | 0 <= i < j < |rows| ensures rows[i].id < rows[j].id {
      assert rows[i] in rows && rows[j] in rows;
      assert NodesApart(rows[i], rows[j]);
    }
    assert Sorted(rows, NodeRowLess);
    assert Separates(rows, NodeRowLess);
    SortedFormUnique(rows, Sort(rows, NodeRowLess), NodeRowLess);
  }

  predicate ShowsRow(n: TM.Node, r: NodeRow) {
    n.id == r.id && n.logID == r.logID && n.nodeGUID == r.node.nodeGUID
  }

  lemma JoinRowIsOne(t: Tables, seqs: Sequences, r: NodeRow)
    requires DBInv(t, seqs)
    ensures |JoinRow(t, r)| == 1 && ShowsRow(JoinRow(t, r)[0], r)
  {
    AtMostOneInfo(t, seqs, r.id);
  }

  ghost predicate ShowsRows(nodes: seq<TM.Node>, rows: seq<NodeRow>) {
    |nodes| == |rows| && forall i | 0 <= i < |rows| :: ShowsRow(nodes[i], rows[i])
  }

  lemma OneMoreShown(nodes: seq<TM.Node>, rows: seq<NodeRow>, n: seq<TM.Node>, r: NodeRow)
    requires ShowsRows(nodes, rows) && |n| == 1 && ShowsRow(n[0], r)
    ensures ShowsRows(nodes + n, rows + [r])
  {
  }

  lemma JoinStep(t: Tables, rows: seq<NodeRow>, r: NodeRow)
    ensures Join(t, rows + [r]) == Join(t, rows) + JoinRow(t, r)
  {
    assert (rows + [r])[..|rows|] == rows;
  }

  lemma {:induction false} JoinIsRowByRow(t: Tables, seqs: Sequences, rows: seq<NodeRow>)
    requires DBInv(t, seqs)
    ensures ShowsRows(Join(t, rows), rows)
  {
    if rows == [] {
      assert Join(t, rows) == [];
    } else {
      var init, last := rows[..|rows| - 1], rows[|rows| - 1];
      assert rows == init + [last];
      assert ShowsRows(Join(t, init), init) by {
        JoinIsRowByRow(t, seqs, init);
      }
      JoinRowIsOne(t, seqs, last);
      OneMoreShown(Join(t, init), init, JoinRow(t, last), last);
      JoinStep(t, init, last);
    }
  }

  /** Nodes of a snapshot: one per row, in id order. */
  lemma SelectedNodes(t: Tables, seqs: Sequences, logID: int)
    requires DBInv(t, seqs)
    ensures |SelectNodes(t, logID)| == |NodeRows(t, logID)|
    ensures forall i | 0 <= i < |NodeRows(t, logID)| :: ShowsRow(SelectNodes(t, logID)[i], NodeRows(t, logID)[i])
  {
    NodeRowsAreSorted(t, seqs, logID);
    JoinIsRowByRow(t, seqs, NodeRows(t, logID));
  }

  function PortRowID(r: PortRow): int {
    r.id
  }

  lemma PortRowsHaveDistinctIDs(t: Tables, seqs: Sequences, logID: int)
    requires DBInv(t, seqs)
    ensures DistinctBy(PortRows(t, logID), PortRowID)
    ensures forall x, y | x in PortRows(t, logID) && y in PortRows(t, logID) && x != y :: PortsApart(x, y)
  {
    var rows := PortRows(t, logID);
    PairwiseFilter(t.ports, (r: PortRow) => r.logID == logID, PortsApart);
    forall i, j | 0 <= i < j < |rows| ensures PortRowID(rows[i]) != PortRowID(rows[j]) {
      assert PortsApart(rows[i], rows[j]);
    }
    forall x, y | x in rows && y in rows && x != y ensures PortsApart(x, y) {
      var i :| 0 <= i < |rows| && rows[i] == x;
      var j :| 0 <= j < |rows| && rows[j] == y;
      assert i < j ==> PortsApart(rows[i], rows[j]);
      assert j < i ==> PortsApart(rows[j], rows[i]);
    }
  }

  lemma SelectedPorts(t: Tables, seqs: Sequences, logID: int)
    requires DBInv(t, seqs)
    ensures |SelectPorts(t, logID)| == |PortRows(t, logID)|
    ensures forall i | 0 <= i < |SelectPorts(t, logID)| ::
      && SortedPortRows(t, logID)[i] in PortRows(t, logID)
      && SelectPorts(t, logID)[i] == PortView(SortedPortRows(t, logID)[i])
    ensures forall i, j | 0 <= i < j < |SelectPorts(t, logID)| ::
      PortsApart(SortedPortRows(t, logID)[i], SortedPortRows(t, logID)[j])
  {
    var rows, sorted := PortRows(t, logID), SortedPortRows(t, logID);
    assert multiset(sorted) == multiset(rows);
    assert |sorted| == |multiset(sorted)| == |rows|;
    forall i | 0 <= i < |sorted| ensures sorted[i] in rows {
      assert sorted[i] in multiset(sorted);
    }
    PortRowsHaveDistinctIDs(t, seqs, logID);
    DistinctByPermutes(rows, sorted, PortRowID);
    forall i, j | 0 <= i < j < |sorted| ensures PortsApart(sorted[i], sorted[j]) {
      assert PortRowID(sorted[i]) != PortRowID(sorted[j]);
    }
  }

  /** Nodes come by ascending id, ports by ascending node id and then port number. */
  lemma SnapshotsAscend(t: Tables, seqs: Sequences, logID: int)
    requires DBInv(t, seqs)
    ensures forall i, j | 0 <= i < j < |SelectNodes(t, logID)| ::
      SelectNodes(t, logID)[i].id < SelectNodes(t, logID)[j].id
    ensures forall i, j | 0 <= i < j < |SelectPorts(t, logID)| ::
      var p, q := SelectPorts(t, logID)[i], SelectPorts(t, logID)[j];
      p.nodeID < q.nodeID || (p.nodeID == q.nodeID && p.portNum < q.portNum)
  {
    NodeRowsAreSorted(t, seqs, logID);
    SelectedNodes(t, seqs, logID);
    SelectedPorts(t, seqs, logID);
    var rows, sorted := NodeRows(t, logID), SortedPortRows(t, logID);
    forall i, j | 0 <= i < j < |rows| ensures SelectNodes(t, logID)[i].id < SelectNodes(t, logID)[j].id {
      assert ShowsRow(SelectNodes(t, logID)[i], rows[i]) && ShowsRow(SelectNodes(t, logID)[j], rows[j]);
      assert NodesApart(rows[i], rows[j]) && rows[i] in rows && rows[j] in rows;
    }
    forall i, j | 0 <= i < j < |sorted|
      ensures sorted[i].nodeID < sorted[j].nodeID ||
        (sorted[i].nodeID == sorted[j].nodeID && sorted[i].port.portNum < sorted[j].port.portNum)
    {
      assert !PortRowLess(sorted[j], sorted[i]) && PortsApart(sorted[i], sorted[j]);
      assert sorted[i] in PortRows(t, logID) && sorted[j] in PortRows(t, logID);
    }
  }

  // ---- What a snapshot promises ----

  /** Lists as long as the stored counts say, and nothing of a log that is not parsed. */
  predicate AgreesWithCounts(data: LogData) {
    if data.log.status.Parsed? then
      data.log.nodesCount == Int32(|data.nodes|) && data.log.portsCount == Int32(|data.ports|)
    else data.nodes == [] && data.ports == []
  }

  /** Everything the topology service's theorems ask of their input. */
  ghost predicate FitForTopology(data: LogData) {
    && TM.DistinctPortIDs(data.ports)
    && UniquePortNumbers(data.ports)
    && PortsBelongToNodes(data.nodes, data.ports)
  }

  lemma SnapshotAgreesWithCounts(t: Tables, seqs: Sequences, logID: int)
    requires DBInv(t, seqs) && logID in t.logs
    ensures AgreesWithCounts(ReadLog(t, logID).value)
  {
    SelectedNodes(t, seqs, logID);
    SelectedPorts(t, seqs, logID);
    if t.logs[logID].status.Parsed? {
      assert LogOK(t, seqs, logID);
    } else {
      OnlyParsedLogsHaveRows(t, seqs, logID);
    }
  }

  lemma SelectedNodesAreDistinct(t: Tables, seqs: Sequences, logID: int)
    requires DBInv(t, seqs)
    ensures TM.DistinctNodeIDs(SelectNodes(t, logID))
    ensures forall n | n in SelectNodes(t, logID) :: n.id > 0
    ensures forall i, j | 0 <= i < j < |SelectNodes(t, logID)| ::
      SelectNodes(t, logID)[i].nodeGUID != SelectNodes(t, logID)[j].nodeGUID
  {
    var rows, nodes := NodeRows(t, logID), SelectNodes(t, logID);
    SelectedNodes(t, seqs, logID);
    NodeRowsAreSorted(t, seqs, logID);
    forall i, j | 0 <= i < j < |nodes|
      ensures TM.NodeID(nodes[i]) != TM.NodeID(nodes[j]) && nodes[i].nodeGUID != nodes[j].nodeGUID
    {
      assert ShowsRow(nodes[i], rows[i]) && ShowsRow(nodes[j], rows[j]);
      assert NodesApart(rows[i], rows[j]);
      assert rows[i] in rows && rows[j] in rows;
    }
    forall n | n in nodes ensures n.id > 0 {
      var i :| 0 <= i < |nodes| && nodes[i] == n;
      assert ShowsRow(nodes[i], rows[i]);
      assert rows[i] in rows;
      assert NodeOK(t.logs, seqs, rows[i]);
    }
  }

  lemma ReferredNodeIsSelected(t: Tables, seqs: Sequences, logID: int, id: int, guid: string)
    requires DBInv(t, seqs) && RefersIn(t.nodes, id, logID, guid)
    ensures exists n :: n in SelectNodes(t, logID) && n.id == id && n.nodeGUID == guid
  {
    var i :| 0 <= i < |t.nodes| && t.nodes[i].id == id && t.nodes[i].logID == logID && t.nodes[i].node.nodeGUID == guid;
    var rows := NodeRows(t, logID);
    assert t.nodes[i] in rows;
    SelectedNodes(t, seqs, logID);
    var j :| 0 <= j < |rows| && rows[j] == t.nodes[i];
    assert ShowsRow(SelectNodes(t, logID)[j], rows[j]);
  }

  lemma SelectedPortsReferToNodes(t: Tables, seqs: Sequences, logID: int, p: TM.Port)
    requires DBInv(t, seqs) && p in SelectPorts(t, logID)
    ensures exists n :: n in SelectNodes(t, logID) && n.id == p.nodeID && n.nodeGUID == p.nodeGUID
  {
    SelectedPorts(t, seqs, logID);
    var k :| 0 <= k < |SelectPorts(t, logID)| && SelectPorts(t, logID)[k] == p;
    var r := SortedPortRows(t, logID)[k];
    assert PortOK(t, seqs, r) && r.logID == logID;
    ReferredNodeIsSelected(t, seqs, logID, p.nodeID, p.nodeGUID);
  }

  lemma SelectedPortsAreDistinct(t: Tables, seqs: Sequences, logID: int)
    requires DBInv(t, seqs)
    ensures TM.DistinctPortIDs(SelectPorts(t, logID))
    ensures UniquePortNumbers(SelectPorts(t, logID))
  {
    var sorted, ports := SortedPortRows(t, logID), SelectPorts(t, logID);
    SelectedPorts(t, seqs, logID);
    forall i, j | 0 <= i < j < |ports|
      ensures TM.PortID(ports[i]) != TM.PortID(ports[j])
      ensures ports[i].nodeID != ports[j].nodeID || ports[i].portNum != ports[j].portNum
    {
      assert PortsApart(sorted[i], sorted[j]);
      assert sorted[i] in PortRows(t, logID) && sorted[j] in PortRows(t, logID);
    }
  }

  /** A snapshot of a database in order meets every precondition of the topology theorems. */
  lemma SnapshotFitsTopology(t: Tables, seqs: Sequences, logID: int)
    requires DBInv(t, seqs) && logID in t.logs
    ensures FitForTopology(ReadLog(t, logID).value)
  {
    SelectedNodesAreDistinct(t, seqs, logID);
    SelectedPortsAreDistinct(t, seqs, logID);
    forall p | p in SelectPorts(t, logID)
      ensures exists n :: n in SelectNodes(t, logID) && n.id == p.nodeID && n.nodeGUID == p.nodeGUID
    {
      SelectedPortsReferToNodes(t, seqs, logID, p);
    }
  }
}
