/** `SaveParsedLog` as a transaction that runs one statement at a time. */
module SaveProgram {
  import opened Domain
  import opened Seqs
  import opened Tables

  datatype Error = NotFound | InvalidStatus(status: Status) | EmptyGUID | UnknownReference | Constraint | Unavailable

  datatype Counts = Counts(nodes: int, ports: int)

  /** A transaction in progress: what it deleted and inserted so far, and its map from GUIDs to node ids. */
  datatype Save = Save(
    logID: int,
    parsed: ParsedLog,
    cleared: bool,
    dropped: set<int>,
    nodes: seq<NodeRow>,
    infos: seq<InfoRow>,
    ports: seq<PortRow>,
    nodeIDs: map<string, int>,
    updated: bool)

  function Begin(logID: int, parsed: ParsedLog): Save {
    Save(logID, parsed, false, {}, [], [], [], map[], false)
  }

  /** The tables as the transaction's own statements see them: deletes cascade to infos and ports. */
  function View(t: Tables, sv: Save): Tables {
    var dropped := sv.dropped;
    Tables(
      t.logs,
      Filter(t.nodes, (r: NodeRow) => r.id !in dropped) + sv.nodes,
      Filter(t.infos, (r: InfoRow) => r.nodeID !in dropped) + sv.infos,
      Filter(t.ports, (r: PortRow) => r.nodeID !in dropped) + sv.ports)
  }

  datatype Progress =
    | Next(save: Save, seqs: Sequences)
    | Stop(error: Error, seqs: Sequences)
    | Ready

  function DrawNode(seqs: Sequences, logID: int): Sequences {
    seqs.(nodes := seqs.nodes + [logID])
  }

  function DrawInfo(seqs: Sequences): Sequences {
    seqs.(infos := seqs.infos + 1)
  }

  function DrawPort(seqs: Sequences, logID: int): Sequences {
    seqs.(ports := seqs.ports + [logID])
  }

  function WithNode(sv: Save, row: NodeRow): Save {
    sv.(nodes := sv.nodes + [row], nodeIDs := sv.nodeIDs[row.node.nodeGUID := row.id])
  }

  function WithInfo(sv: Save, row: InfoRow): Save {
    sv.(infos := sv.infos + [row])
  }

  function WithPort(sv: Save, row: PortRow): Save {
    sv.(ports := sv.ports + [row])
  }

  function InsertNode(t: Tables, seqs: Sequences, sv: Save, node: ParsedNode): Progress {
    if node.nodeGUID == "" then Stop(EmptyGUID, seqs)
    else
      var seqs' := DrawNode(seqs, sv.logID);
      var row := NodeRow(|seqs'.nodes|, sv.logID, node);
      if NodeAllowed(View(t, sv), row) then
        Next(WithNode(sv, row), seqs')
      else Stop(Constraint, seqs')
  }

  function InsertInfo(t: Tables, seqs: Sequences, sv: Save, info: ParsedInfo): Progress {
    if info.nodeGUID == "" then Stop(EmptyGUID, seqs)
    else if info.nodeGUID !in sv.nodeIDs then Stop(UnknownReference, seqs)
    else
      var seqs' := DrawInfo(seqs);
      var row := InfoRow(seqs'.infos, sv.nodeIDs[info.nodeGUID], info);
      if InfoAllowed(View(t, sv), row) then Next(WithInfo(sv, row), seqs')
      else Stop(Constraint, seqs')
  }

  function InsertPort(t: Tables, seqs: Sequences, sv: Save, port: ParsedPort): Progress {
    if port.nodeGUID == "" then Stop(EmptyGUID, seqs)
    else if port.nodeGUID !in sv.nodeIDs then Stop(UnknownReference, seqs)
    else
      var seqs' := DrawPort(seqs, sv.logID);
      var row := PortRow(|seqs'.ports|, sv.logID, sv.nodeIDs[port.nodeGUID], port);
      if PortAllowed(View(t, sv), row) then Next(WithPort(sv, row), seqs')
      else Stop(Constraint, seqs')
  }

  /** The next statement: the delete, one insert after the other, the update of the log row. */
  function Advance(t: Tables, seqs: Sequences, sv: Save): Progress {
    if !sv.cleared then Next(sv.(cleared := true, dropped := NodeIDs(t, sv.logID)), seqs)
    else if |sv.nodes| < |sv.parsed.nodes| then InsertNode(t, seqs, sv, sv.parsed.nodes[|sv.nodes|])
    else if |sv.infos| < |sv.parsed.infos| then InsertInfo(t, seqs, sv, sv.parsed.infos[|sv.infos|])
    else if |sv.ports| < |sv.parsed.ports| then InsertPort(t, seqs, sv, sv.parsed.ports[|sv.ports|])
    else if !sv.updated then
      if sv.logID in t.logs then Next(sv.(updated := true), seqs) else Stop(NotFound, seqs)
    else Ready
  }

  function CountsOf(parsed: ParsedLog): Counts {
    Counts(Int32(|parsed.nodes|), Int32(|parsed.ports|))
  }

  function Finished(row: LogRow, parsed: ParsedLog): LogRow {
    LogRow(row.filePath, Parsed, Int32(|parsed.nodes|), Int32(|parsed.ports|), "")
  }

  /** Committing makes the transaction's view of the tables everybody's. */
  function Commit(t: Tables, sv: Save): Tables
    requires sv.logID in t.logs
  {
    View(t, sv).(logs := t.logs[sv.logID := Finished(t.logs[sv.logID], sv.parsed)])
  }

  // ---- What can be saved ----

  predicate HasGUID(nodes: seq<ParsedNode>, guid: string) {
    exists i :: 0 <= i < |nodes| && nodes[i].nodeGUID == guid
  }

  predicate PortsDiffer(a: ParsedPort, b: ParsedPort) {
    a.nodeGUID != b.nodeGUID || a.portNum != b.portNum
  }

  /** The log fits the schema: sound references, one row per node and per info, no port number used twice on a node. */
  ghost predicate Savable(parsed: ParsedLog) {
    && (forall i | 0 <= i < |parsed.nodes| :: parsed.nodes[i].nodeGUID != "")
    && (forall i, j | 0 <= i < j < |parsed.nodes| :: parsed.nodes[i].nodeGUID != parsed.nodes[j].nodeGUID)
    && (forall i | 0 <= i < |parsed.infos| :: HasGUID(parsed.nodes, parsed.infos[i].nodeGUID))
    && (forall i, j | 0 <= i < j < |parsed.infos| :: parsed.infos[i].nodeGUID != parsed.infos[j].nodeGUID)
    && (forall i | 0 <= i < |parsed.ports| :: HasGUID(parsed.nodes, parsed.ports[i].nodeGUID))
    && (forall i, j | 0 <= i < j < |parsed.ports| :: PortsDiffer(parsed.ports[i], parsed.ports[j]))
  }

  /** The log is parsed and the tables hold exactly this content for it. */
  ghost predicate Stored(t: Tables, logID: int, parsed: ParsedLog) {
    && IsParsed(t.logs, logID)
    && Counts(t.logs[logID].nodesCount, t.logs[logID].portsCount) == CountsOf(parsed)
    && Contents(t, logID) == parsed
    && Savable(parsed)
  }

  // ---- What the transaction keeps ----

  ghost predicate NodesSaved(seqs: Sequences, sv: Save) {
    && |sv.nodes| <= |sv.parsed.nodes|
    && (forall i | 0 <= i < |sv.nodes| :: NodeSaved(seqs, sv.logID, sv.parsed.nodes[i], sv.nodes[i]))
    && Pairwise(sv.nodes, NodesApart)
  }

  predicate NodeSaved(seqs: Sequences, logID: int, node: ParsedNode, r: NodeRow) {
    r.node == node && r.logID == logID && node.nodeGUID != "" && Drawn(seqs.nodes, r.id, logID)
  }

  /** The map holds the nodes inserted so far, under their GUIDs, and nothing else. */
  ghost predicate NodesIndexed(sv: Save) {
    && (forall i | 0 <= i < |sv.nodes| ::
      sv.nodes[i].node.nodeGUID in sv.nodeIDs && sv.nodeIDs[sv.nodes[i].node.nodeGUID] == sv.nodes[i].id)
    && (forall g | g in sv.nodeIDs :: Refers(sv.nodes, sv.nodeIDs[g], g))
  }

  predicate InfoSaved(nodeIDs: map<string, int>, info: ParsedInfo, r: InfoRow) {
    r.info == info && info.nodeGUID in nodeIDs && r.nodeID == nodeIDs[info.nodeGUID]
  }

  ghost predicate InfosSaved(sv: Save) {
    && |sv.infos| <= |sv.parsed.infos|
    && (forall i | 0 <= i < |sv.infos| :: InfoSaved(sv.nodeIDs, sv.parsed.infos[i], sv.infos[i]))
    && Pairwise(sv.infos, InfosApart)
    && (sv.infos != [] ==> |sv.nodes| == |sv.parsed.nodes|)
  }

  predicate PortSaved(seqs: Sequences, logID: int, nodeIDs: map<string, int>, port: ParsedPort, r: PortRow) {
    && r.port == port && r.logID == logID && port.nodeGUID in nodeIDs && r.nodeID == nodeIDs[port.nodeGUID]
    && Drawn(seqs.ports, r.id, logID)
  }

  ghost predicate PortsSaved(seqs: Sequences, sv: Save) {
    && |sv.ports| <= |sv.parsed.ports|
    && (forall i | 0 <= i < |sv.ports| :: PortSaved(seqs, sv.logID, sv.nodeIDs, sv.parsed.ports[i], sv.ports[i]))
    && Pairwise(sv.ports, PortsApart)
    && (sv.ports != [] ==> |sv.nodes| == |sv.parsed.nodes| && |sv.infos| == |sv.parsed.infos|)
  }

  predicate IsComplete(sv: Save) {
    |sv.nodes| == |sv.parsed.nodes| && |sv.infos| == |sv.parsed.infos| && |sv.ports| == |sv.parsed.ports|
  }

  /** The transaction has inserted a prefix of the log, correctly, and deleted nothing. */
  ghost predicate SaveInv(seqs: Sequences, sv: Save) {
    && sv.dropped == {}
    && NodesSaved(seqs, sv) && NodesIndexed(sv) && InfosSaved(sv) && PortsSaved(seqs, sv)
    && (!sv.cleared ==> sv == Begin(sv.logID, sv.parsed))
    && (sv.updated ==> IsComplete(sv))
  }

  predicate IsProcessing(logs: map<int, LogRow>, logID: int) {
    logID in logs && logs[logID].status.Processing?
  }

  lemma BeginSaves(seqs: Sequences, logID: int, parsed: ParsedLog)
    ensures SaveInv(seqs, Begin(logID, parsed))
  {
  }

  // ---- Sequences only grow ----

  ghost predicate Grown(a: Sequences, b: Sequences) {
    a.logs <= b.logs && a.nodes <= b.nodes && a.infos <= b.infos && a.ports <= b.ports
  }

  lemma DrawnStays(a: seq<int>, b: seq<int>, id: int, logID: int)
    requires a <= b && Drawn(a, id, logID)
    ensures Drawn(b, id, logID)
  {
  }

  lemma SaveInvGrows(a: Sequences, b: Sequences, sv: Save)
    requires SaveInv(a, sv) && Grown(a, b)
    ensures SaveInv(b, sv)
  {
    forall i | 0 <= i < |sv.nodes| ensures NodeSaved(b, sv.logID, sv.parsed.nodes[i], sv.nodes[i]) {
      DrawnStays(a.nodes, b.nodes, sv.nodes[i].id, sv.logID);
    }
    forall i | 0 <= i < |sv.ports| ensures PortSaved(b, sv.logID, sv.nodeIDs, sv.parsed.ports[i], sv.ports[i]) {
      DrawnStays(a.ports, b.ports, sv.ports[i].id, sv.logID);
    }
  }

  lemma DBInvGrows(t: Tables, a: Sequences, b: Sequences)
    requires DBInv(t, a) && Grown(a, b)
    ensures DBInv(t, b)
  {
    forall id | id in t.logs ensures LogOK(t, b, id) {
      assert LogOK(t, a, id);
    }
    forall r | r in t.nodes ensures NodeOK(t.logs, b, r) {
      DrawnStays(a.nodes, b.nodes, r.id, r.logID);
    }
    forall r | r in t.ports ensures PortOK(t, b, r) {
      assert PortOK(t, a, r);
      DrawnStays(a.ports, b.ports, r.id, r.logID);
    }
  }
}
