/** What was saved is what is read: parsed rows go through the database and come out in the snapshot unchanged. */
module ReadBack {
  import opened Domain
  import opened Tables
  import opened Snapshots
  import TM = TopologyModel

  /** The tables hold exactly this content for the log. */
  ghost predicate Holds(t: Tables, logID: int, parsed: ParsedLog) {
    logID in t.logs && Contents(t, logID) == parsed
  }

  // ---- Nodes ----

  /** The info the log has for a GUID, as the topology service will see it. */
  ghost predicate IsInfoOf(parsed: ParsedLog, guid: string, info: Option<TM.NodeInfo>) {
    match info
    case None => forall k | 0 <= k < |parsed.infos| :: parsed.infos[k].nodeGUID != guid
    case Some(i) =>
      exists k :: 0 <= k < |parsed.infos| && parsed.infos[k].nodeGUID == guid && ShowsInfo(i, parsed.infos[k])
  }

  predicate ShowsInfo(i: TM.NodeInfo, p: ParsedInfo) {
    i.serialNumber == p.serialNumber && i.productName == p.productName
  }

  predicate ShowsNode(n: TM.Node, logID: int, p: ParsedNode) {
    && n.logID == logID && n.nodeGUID == p.nodeGUID && n.nodeDesc == p.nodeDesc && n.nodeType == p.nodeType
    && n.nodeKind == p.nodeKind && n.numPorts == p.numPorts
  }

  lemma ApartUnlessSame<T>(s: seq<T>, x: T, y: T, apart: (T, T) -> bool)
    requires Pairwise(s, apart) && x in s && y in s
    ensures x == y || apart(x, y) || apart(y, x)
  {
    var i :| 0 <= i < |s| && s[i] == x;
    var j :| 0 <= j < |s| && s[j] == y;
    if i < j {
      assert apart(s[i], s[j]);
    } else if j < i {
      assert apart(s[j], s[i]);
    }
  }

  lemma SameIDSameNode(t: Tables, seqs: Sequences, a: NodeRow, b: NodeRow)
    requires DBInv(t, seqs) && a in t.nodes && b in t.nodes && a.id == b.id
    ensures a == b
  {
    ApartUnlessSame(t.nodes, a, b, NodesApart);
  }

  lemma SameGUIDSameNode(t: Tables, seqs: Sequences, a: NodeRow, b: NodeRow)
    requires DBInv(t, seqs) && a in t.nodes && b in t.nodes && a.logID == b.logID && a.node.nodeGUID == b.node.nodeGUID
    ensures a == b
  {
    ApartUnlessSame(t.nodes, a, b, NodesApart);
  }

  /** An info row belongs to a node exactly when it is in the node's log and has the node's GUID. */
  lemma InfoBelongsIff(t: Tables, seqs: Sequences, n: NodeRow, r: InfoRow)
    requires DBInv(t, seqs) && n in t.nodes && r in t.infos
    ensures r.nodeID == n.id <==> r in InfoRows(t, n.logID) && r.info.nodeGUID == n.node.nodeGUID
  {
    assert Refers(t.nodes, r.nodeID, r.info.nodeGUID);
    var i :| 0 <= i < |t.nodes| && t.nodes[i].id == r.nodeID && t.nodes[i].node.nodeGUID == r.info.nodeGUID;
    var m := t.nodes[i];
    assert m in t.nodes;
    if r.nodeID == n.id {
      SameIDSameNode(t, seqs, m, n);
      assert r.nodeID in NodeIDs(t, n.logID);
    } else if r in InfoRows(t, n.logID) && r.info.nodeGUID == n.node.nodeGUID {
      var j :| 0 <= j < |t.nodes| && t.nodes[j].logID == n.logID && t.nodes[j].id == r.nodeID;
      assert t.nodes[j] in t.nodes;
      SameIDSameNode(t, seqs, m, t.nodes[j]);
      SameGUIDSameNode(t, seqs, m, n);
    }
  }

  lemma NoInfoForNode(t: Tables, seqs: Sequences, logID: int, parsed: ParsedLog, n: NodeRow, k: nat)
    requires DBInv(t, seqs) && Holds(t, logID, parsed) && n in NodeRows(t, logID)
    requires InfosFor(t, n.id) == [] && k < |parsed.infos|
    ensures parsed.infos[k].nodeGUID != n.node.nodeGUID
  {
    var rows := InfoRows(t, logID);
    assert InfosIn(rows) == parsed.infos;
    var r := rows[k];
    assert r in rows && r.info == parsed.infos[k];
    InfoBelongsIff(t, seqs, n, r);
    assert r.nodeID == n.id ==> r in InfosFor(t, n.id);
  }

  lemma InfoForNode(t: Tables, seqs: Sequences, logID: int, parsed: ParsedLog, n: NodeRow, r: InfoRow) returns (k: nat)
    requires DBInv(t, seqs) && Holds(t, logID, parsed) && n in NodeRows(t, logID) && r in InfosFor(t, n.id)
    ensures k < |parsed.infos| && parsed.infos[k] == r.info && r.info.nodeGUID == n.node.nodeGUID
  {
    var rows := InfoRows(t, logID);
    assert InfosIn(rows) == parsed.infos;
    InfoBelongsIff(t, seqs, n, r);
    k :| k < |rows| && rows[k] == r;
    assert parsed.infos[k] == rows[k].info;
  }

  lemma InfoIsReadBack(t: Tables, seqs: Sequences, logID: int, parsed: ParsedLog, n: NodeRow)
    requires DBInv(t, seqs) && Holds(t, logID, parsed) && n in NodeRows(t, logID)
    ensures |JoinRow(t, n)| == 1 && IsInfoOf(parsed, n.node.nodeGUID, JoinRow(t, n)[0].info)
  {
    var mine := InfosFor(t, n.id);
    AtMostOneInfo(t, seqs, n.id);
    if mine == [] {
      forall k | 0 <= k < |parsed.infos| ensures parsed.infos[k].nodeGUID != n.node.nodeGUID {
        NoInfoForNode(t, seqs, logID, parsed, n, k);
      }
    } else {
      assert mine[0] in mine;
      var k := InfoForNode(t, seqs, logID, parsed, n, mine[0]);
    }
  }

  lemma {:induction false} JoinAt(t: Tables, seqs: Sequences, rows: seq<NodeRow>, i: nat)
    requires DBInv(t, seqs) && i < |rows|
    ensures |JoinRow(t, rows[i])| == 1
    ensures |Join(t, rows)| == |rows| && Join(t, rows)[i] == JoinRow(t, rows[i])[0]
  {
    hide DBInv, JoinRow;
    var init, last := rows[..|rows| - 1], rows[|rows| - 1];
    JoinRowIsOne(t, seqs, rows[i]);
    JoinIsRowByRow(t, seqs, rows);
    JoinIsRowByRow(t, seqs, init);
    assert rows == init + [last];
    JoinStep(t, init, last);
    if i < |init| {
      JoinAt(t, seqs, init, i);
      StillThere(Join(t, init), JoinRow(t, last), i);
    } else {
      assert rows[i] == last;
    }
  }

  lemma StillThere<T>(a: seq<T>, b: seq<T>, i: nat)
    requires i < |a|
    ensures (a + b)[i] == a[i]
  {
  }

  /** Node `i` of the snapshot is node `i` of the saved log, with the info the log has for it. */
  lemma NodesAreReadBack(t: Tables, seqs: Sequences, logID: int, parsed: ParsedLog, i: nat)
    requires DBInv(t, seqs) && Holds(t, logID, parsed) && i < |parsed.nodes|
    ensures |ReadLog(t, logID).value.nodes| == |parsed.nodes|
    ensures ShowsNode(ReadLog(t, logID).value.nodes[i], logID, parsed.nodes[i])
    ensures IsInfoOf(parsed, parsed.nodes[i].nodeGUID, ReadLog(t, logID).value.nodes[i].info)
  {
    var rows := NodeRows(t, logID);
    assert NodesIn(rows) == parsed.nodes;
    NodeRowsAreSorted(t, seqs, logID);
    JoinAt(t, seqs, rows, i);
    assert rows[i] in rows && rows[i].node == parsed.nodes[i];
    InfoIsReadBack(t, seqs, logID, parsed, rows[i]);
  }

  // ---- Ports ----

  predicate ShowsPort(p: TM.Port, logID: int, q: ParsedPort) {
    && p.logID == logID && p.nodeGUID == q.nodeGUID && p.portGUID == q.portGUID && p.portNum == q.portNum
    && p.portState == q.portState && p.linkWidthActive == q.linkWidthActive && p.linkSpeedActive == q.linkSpeedActive
  }

  predicate WasSaved(p: TM.Port, logID: int, saved: seq<ParsedPort>) {
    exists k :: 0 <= k < |saved| && ShowsPort(p, logID, saved[k])
  }

  predicate IsRead(q: ParsedPort, logID: int, read: seq<TM.Port>) {
    exists j :: 0 <= j < |read| && ShowsPort(read[j], logID, q)
  }

  lemma ReadPortWasSaved(t: Tables, seqs: Sequences, logID: int, parsed: ParsedLog, j: nat)
    requires DBInv(t, seqs) && Holds(t, logID, parsed) && j < |SelectPorts(t, logID)|
    ensures WasSaved(SelectPorts(t, logID)[j], logID, parsed.ports)
  {
    var rows, sorted := PortRows(t, logID), SortedPortRows(t, logID);
    SelectedPorts(t, seqs, logID);
    assert PortsIn(rows) == parsed.ports;
    var k :| 0 <= k < |rows| && rows[k] == sorted[j];
    assert rows[k] in rows && rows[k].logID == logID;
    assert parsed.ports[k] == rows[k].port;
  }

  lemma SavedPortIsRead(t: Tables, seqs: Sequences, logID: int, parsed: ParsedLog, k: nat)
    requires DBInv(t, seqs) && Holds(t, logID, parsed) && k < |parsed.ports|
    ensures IsRead(parsed.ports[k], logID, SelectPorts(t, logID))
  {
    var rows, sorted := PortRows(t, logID), SortedPortRows(t, logID);
    assert PortsIn(rows) == parsed.ports;
    assert rows[k] in rows && rows[k].logID == logID && parsed.ports[k] == rows[k].port;
    assert rows[k] in multiset(sorted);
    var j :| 0 <= j < |sorted| && sorted[j] == rows[k];
    assert SelectPorts(t, logID)[j] == PortView(rows[k]);
  }

  /** Every port of the snapshot is a saved one, and every saved port is in the snapshot, once. */
  lemma PortsAreReadBack(t: Tables, seqs: Sequences, logID: int, parsed: ParsedLog)
    requires DBInv(t, seqs) && Holds(t, logID, parsed)
    ensures |SelectPorts(t, logID)| == |parsed.ports|
    ensures forall j | 0 <= j < |SelectPorts(t, logID)| :: WasSaved(SelectPorts(t, logID)[j], logID, parsed.ports)
    ensures forall k | 0 <= k < |parsed.ports| :: IsRead(parsed.ports[k], logID, SelectPorts(t, logID))
  {
    assert PortsIn(PortRows(t, logID)) == parsed.ports;
    SelectedPorts(t, seqs, logID);
    forall j | 0 <= j < |SelectPorts(t, logID)|
      ensures WasSaved(SelectPorts(t, logID)[j], logID, parsed.ports)
    {
      ReadPortWasSaved(t, seqs, logID, parsed, j);
    }
    forall k | 0 <= k < |parsed.ports|
      ensures IsRead(parsed.ports[k], logID, SelectPorts(t, logID))
    {
      SavedPortIsRead(t, seqs, logID, parsed, k);
    }
  }

  // ---- The whole log ----

  /** The answer shows exactly this log: its nodes in order with their infos, and its ports. */
  ghost predicate ShowsLog(data: LogData, logID: int, parsed: ParsedLog) {
    ShowsNodes(data.nodes, logID, parsed) && ShowsPorts(data.ports, logID, parsed)
  }

  ghost predicate ShowsNodes(nodes: seq<TM.Node>, logID: int, parsed: ParsedLog) {
    && |nodes| == |parsed.nodes|
    && forall i | 0 <= i < |nodes| ::
      ShowsNode(nodes[i], logID, parsed.nodes[i]) && IsInfoOf(parsed, parsed.nodes[i].nodeGUID, nodes[i].info)
  }

  ghost predicate ShowsPorts(ports: seq<TM.Port>, logID: int, parsed: ParsedLog) {
    && |ports| == |parsed.ports|
    && (forall j | 0 <= j < |ports| :: WasSaved(ports[j], logID, parsed.ports))
    && (forall k | 0 <= k < |parsed.ports| :: IsRead(parsed.ports[k], logID, ports))
  }

  /** A snapshot shows exactly what the tables hold of the log. */
  lemma SnapshotShowsLog(t: Tables, seqs: Sequences, logID: int, parsed: ParsedLog)
    requires DBInv(t, seqs) && Holds(t, logID, parsed)
    ensures ShowsLog(ReadLog(t, logID).value, logID, parsed)
  {
    SelectedNodes(t, seqs, logID);
    assert |NodesIn(NodeRows(t, logID))| == |parsed.nodes|;
    forall i | 0 <= i < |parsed.nodes|
      ensures ShowsNode(SelectNodes(t, logID)[i], logID, parsed.nodes[i])
      ensures IsInfoOf(parsed, parsed.nodes[i].nodeGUID, SelectNodes(t, logID)[i].info)
    {
      NodesAreReadBack(t, seqs, logID, parsed, i);
    }
    PortsAreReadBack(t, seqs, logID, parsed);
  }
}
