/** From parser to repository to topology: what one service promises is what the next one needs. */
module Pipeline {
  import opened Domain
  import opened Seqs
  import opened KeyedFold
  import opened Merging
  import opened PortKey
  import opened Finalize
  import opened FinalizeProperties
  import opened Incremental
  import opened Tables
  import opened SaveProgram
  import opened Flaws
  import opened SaveSteps
  import opened Snapshots
  import opened Lifecycle
  import opened LifecycleRuns
  import opened Edges
  import opened EdgeCounting
  import TopologyModel
  import opened TopologyView
  import opened TopologyMeaning
  import opened ReadBack
  import opened Storage
  import Text

  // ---- Parser to repository ----

  ghost predicate PortNumbersAreUnique(log: ParsedLog) {
    forall i, j | 0 <= i < j < |log.ports| :: PortsDiffer(log.ports[i], log.ports[j])
  }

  lemma KeysAreGUIDs(nodes: seq<ParsedNode>, g: string)
    ensures g in Keys(nodes, NodeKey) <==> HasGUID(nodes, g)
  {
    if g in Keys(nodes, NodeKey) {
      var i :| 0 <= i < |nodes| && Keys(nodes, NodeKey)[i] == g;
      assert nodes[i].nodeGUID == g;
    }
    if HasGUID(nodes, g) {
      var i :| 0 <= i < |nodes| && nodes[i].nodeGUID == g;
      assert Keys(nodes, NodeKey)[i] == g;
    }
  }

  lemma FinalNodesFit(parsed: ParsedLog, f: ParsedLog)
    requires IsFinal(parsed, f)
    ensures forall i | 0 <= i < |f.nodes| :: f.nodes[i].nodeGUID != ""
    ensures forall i, j | 0 <= i < j < |f.nodes| :: f.nodes[i].nodeGUID != f.nodes[j].nodeGUID
    ensures forall i, j | 0 <= i < j < |f.infos| :: f.infos[i].nodeGUID != f.infos[j].nodeGUID
  {
    FinalLogIsConsistent(parsed, f);
    forall i | 0 <= i < |f.nodes| ensures f.nodes[i].nodeGUID != "" {
      assert f.nodes[i] in f.nodes;
    }
    forall i, j | 0 <= i < j < |f.nodes| ensures f.nodes[i].nodeGUID != f.nodes[j].nodeGUID {
      assert Keys(f.nodes, NodeKey)[i] != Keys(f.nodes, NodeKey)[j];
    }
    forall i, j | 0 <= i < j < |f.infos| ensures f.infos[i].nodeGUID != f.infos[j].nodeGUID {
      assert Keys(f.infos, InfoKey)[i] != Keys(f.infos, InfoKey)[j];
    }
  }

  lemma FinalReferencesFit(parsed: ParsedLog, f: ParsedLog)
    requires IsFinal(parsed, f)
    ensures forall i | 0 <= i < |f.infos| :: HasGUID(f.nodes, f.infos[i].nodeGUID)
    ensures forall i | 0 <= i < |f.ports| :: HasGUID(f.nodes, f.ports[i].nodeGUID)
  {
    FinalReferences(parsed, f);
    forall i | 0 <= i < |f.infos| ensures HasGUID(f.nodes, f.infos[i].nodeGUID) {
      assert f.infos[i] in f.infos;
      KeysAreGUIDs(f.nodes, f.infos[i].nodeGUID);
    }
    forall i | 0 <= i < |f.ports| ensures HasGUID(f.nodes, f.ports[i].nodeGUID) {
      assert f.ports[i] in f.ports;
      KeysAreGUIDs(f.nodes, f.ports[i].nodeGUID);
    }
  }

  /**
   A finalized log fits the schema exactly when no two of its ports share node GUID and port number. The parser
   also tells ports apart by port GUID, the database does not.
   */
  lemma FinalizedLogFitsIff(parsed: ParsedLog, f: ParsedLog)
    requires IsFinal(parsed, f)
    ensures Savable(f) <==> PortNumbersAreUnique(f)
  {
    FinalNodesFit(parsed, f);
    FinalReferencesFit(parsed, f);
  }

  lemma FinalRows(parsed: ParsedLog, f: ParsedLog)
    requires IsFinal(parsed, f)
    ensures forall i: nat | i < |f.nodes| :: NodeFlaw(f, i).None?
    ensures forall i: nat | i < |f.infos| :: InfoFlaw(f, i).None?
    ensures forall i: nat | i < |f.ports| :: PortFlaw(f, i) in {None, Some(Constraint)}
  {
    FinalNodesFit(parsed, f);
    FinalReferencesFit(parsed, f);
    assert !HasGUID(f.nodes, "");
  }

  lemma FinalRowFlaw(parsed: ParsedLog, f: ParsedLog, k: nat)
    requires IsFinal(parsed, f) && k < RowCount(f) && RowFlaw(f, k).Some?
    ensures |f.nodes| + |f.infos| <= k && RowFlaw(f, k) == Some(Constraint)
  {
    FinalRows(parsed, f);
  }

  /** The one flaw a finalized log can have is a refused port. */
  lemma FinalFlawIsAPort(parsed: ParsedLog, f: ParsedLog)
    requires IsFinal(parsed, f)
    ensures FirstFlaw(f) == if PortNumbersAreUnique(f) then None else Some(Constraint)
  {
    FinalizedLogFitsIff(parsed, f);
    SavableIffFlawless(f);
    if FirstFlaw(f).Some? {
      var k := FlawComesFromARow(f, 0);
      FinalRowFlaw(parsed, f, k);
    }
  }

  /** The save of a finalized log can only stop at a port, with every node and info inserted. */
  lemma FinalSaveStopsAtAPort(t: Tables, seqs: Sequences, sv: Save, parsed: ParsedLog)
    requires IsFinal(parsed, sv.parsed) && Working(t, seqs, sv) && Advance(t, seqs, sv).Stop?
    ensures Advance(t, seqs, sv).error == Constraint
    ensures |sv.nodes| == |sv.parsed.nodes| && |sv.infos| == |sv.parsed.infos| && |sv.ports| < |sv.parsed.ports|
  {
    AdvanceIsGood(t, seqs, sv);
    FinalRowFlaw(parsed, sv.parsed, Inserted(sv));
  }

  /** Rows with one node GUID and port number have one port GUID. */
  ghost predicate PortGUIDsAgree(rows: seq<ParsedPort>) {
    forall p, q | p in rows && q in rows && p.nodeGUID == q.nodeGUID && p.portNum == q.portNum ::
      p.portGUID == q.portGUID
  }

  lemma StoredPortsDiffer(rows: seq<ParsedPort>, out: seq<ParsedPort>, i: nat, j: nat)
    requires IsCollapse(rows, PortKeyOf, MergePort, out) && PrefixFree(GUIDsIn(rows)) && PortGUIDsAgree(rows)
    requires i < j < |out|
    ensures PortsDiffer(out[i], out[j])
  {
    var p := StoredPortIsAnInput(rows, out, i);
    var q := StoredPortIsAnInput(rows, out, j);
    DedupElements(Keys(rows, PortKeyOf));
    assert PortKeyOf(p) != PortKeyOf(q);
    assert !PortsDiffer(out[i], out[j]) ==> SamePort(p, q);
  }

  lemma SamePlaceSameIndex(out: seq<ParsedPort>, i: nat, j: nat)
    requires forall x, y | 0 <= x < y < |out| :: PortsDiffer(out[x], out[y])
    requires i < |out| && j < |out| && !PortsDiffer(out[i], out[j])
    ensures i == j
  {
  }

  lemma KeyIsStored(rows: seq<ParsedPort>, out: seq<ParsedPort>, p: ParsedPort) returns (i: nat)
    requires IsCollapse(rows, PortKeyOf, MergePort, out) && PrefixFree(GUIDsIn(rows)) && p in rows
    ensures i < |out| && SamePort(out[i], p)
  {
    DedupElements(Keys(rows, PortKeyOf));
    var x :| 0 <= x < |rows| && rows[x] == p;
    assert Keys(rows, PortKeyOf)[x] == PortKeyOf(p);
    assert PortKeyOf(p) in FirstKeys(rows, PortKeyOf);
    i :| i < |FirstKeys(rows, PortKeyOf)| && FirstKeys(rows, PortKeyOf)[i] == PortKeyOf(p);
    var row := StoredPortIsAnInput(rows, out, i);
    assert row.nodeGUID in GUIDsIn(rows) && p.nodeGUID in GUIDsIn(rows);
    KeyIsInjective(row, p);
  }

  /** Read off the input: with prefix-free port GUIDs, port numbers come out unique exactly when port GUIDs agree. */
  lemma PortNumbersAreUniqueIff(rows: seq<ParsedPort>, out: seq<ParsedPort>)
    requires IsCollapse(rows, PortKeyOf, MergePort, out) && PrefixFree(GUIDsIn(rows))
    ensures (forall i, j | 0 <= i < j < |out| :: PortsDiffer(out[i], out[j])) <==> PortGUIDsAgree(rows)
  {
    if PortGUIDsAgree(rows) {
      forall i, j | 0 <= i < j < |out| ensures PortsDiffer(out[i], out[j]) {
        StoredPortsDiffer(rows, out, i, j);
      }
    }
    if forall i, j | 0 <= i < j < |out| :: PortsDiffer(out[i], out[j]) {
      forall p, q | p in rows && q in rows && p.nodeGUID == q.nodeGUID && p.portNum == q.portNum
        ensures p.portGUID == q.portGUID
      {
        var i := KeyIsStored(rows, out, p);
        var j := KeyIsStored(rows, out, q);
        SamePlaceSameIndex(out, i, j);
      }
    }
  }

  /** Two rows that agree in node GUID and port number and differ in port GUID. */
  function ClashingLog(g: string, a: string, b: string): ParsedLog {
    var p := BLANK.(nodeGUID := g, portNum := 1);
    ParsedLog([], [p.(portGUID := a), p.(portGUID := b)], [])
  }

  /** A finalized log can be unfit for the schema: such rows survive finalization, and the second is refused. */
  lemma FinalizedLogCanBeUnfit(g: string, a: string, b: string) returns (f: ParsedLog)
    requires IsCleanGUID(g) && BAR !in g && a != b
    ensures IsFinal(ClashingLog(g, a, b), f) && FirstFlaw(f) == Some(Constraint) && !Savable(f)
  {
    var log := ClashingLog(g, a, b);
    f := FinalExists(log);
    CleanChangesNothing(log.ports, TidyPort, PortGUIDOf);
    NoBarMeansPrefixFree(GUIDsIn(log.ports));
    assert log.ports[0] in log.ports && log.ports[1] in log.ports;
    PortNumbersAreUniqueIff(log.ports, f.ports);
    FinalFlawIsAPort(log, f);
    FinalizedLogFitsIff(log, f);
  }

  /** Finalize and save: committed exactly when the log is processing and its port numbers are unique. */
  method FinalizeAndSave(store: Store, logID: int, parsed: ParsedLog)
    returns (r: Result<SaveResult, Error>, final: ParsedLog)
    requires store.Valid()
    modifies store
    ensures store.Valid() && IsFinal(parsed, final)
    ensures r.Ok? <==> IsProcessing(old(store.tables).logs, logID) && PortNumbersAreUnique(final)
    ensures PrefixFree(GUIDsIn(CleanPorts(parsed.ports))) ==>
      (r.Ok? <==> IsProcessing(old(store.tables).logs, logID) && PortGUIDsAgree(CleanPorts(parsed.ports)))
    ensures r.Ok? ==> Stored(store.tables, logID, final)
    ensures r.Err? && IsProcessing(old(store.tables).logs, logID) ==> r.error == Constraint
    ensures r.Err? ==> store.tables == old(store.tables)
  {
    final := FinalizeParsedLog(parsed);
    r := store.SaveParsedLog(logID, final);
    FinalizedLogFitsIff(parsed, final);
    FinalFlawIsAPort(parsed, final);
    if PrefixFree(GUIDsIn(CleanPorts(parsed.ports))) {
      PortNumbersAreUniqueIff(CleanPorts(parsed.ports), final.ports);
    }
  }

  // ---- Repository to topology ----

  /** The answer is the topology of what a snapshot of the tables has for the log. */
  ghost predicate ShowsStoredLog(t: Tables, logID: int, topo: Topology) {
    logID in t.logs &&
    exists plan :: IsTopologyOf(topo, logID, ReadLog(t, logID).value.nodes, ReadLog(t, logID).value.ports, plan)
  }

  /** A topology request on a store: the repository's snapshot, handed to the topology service. */
  method ShowTopology(store: Store, logID: int) returns (r: Result<Topology, TopologyError>)
    requires store.Valid()
    ensures r == Err(TopologyError.BadArguments) <==> logID <= 0
    ensures r == Err(Upstream) <==> logID > 0 && logID !in store.tables.logs
    ensures r == Err(LogNotParsed) <==> logID > 0 && logID in store.tables.logs && !IsParsed(store.tables.logs, logID)
    ensures r.Ok? ==> ShowsStoredLog(store.tables, logID, r.value)
    ensures r.Ok? ==> AddsUp(store.tables, logID, r.value)
  {
    var fetched: Option<TopologyData> := None;
    ghost var data: Option<LogData> := None;
    if logID > 0 {
      var answer := store.GetTopologyData(logID);
      if answer.Ok? {
        fetched, data := Some(ForTopology(answer.value)), Some(answer.value);
      }
    }
    ghost var plan;
    r, plan := GetTopology(logID, fetched);
    if r.Ok? {
      assert LogOK(store.tables, store.seqs, logID);
      SavedLogsAddUp(store.tables, store.seqs, logID, r.value, plan);
    }
  }

  /** Nodes and ports of the log are all accounted for, each port once, and no port of it ends two edges. */
  ghost predicate AddsUp(t: Tables, logID: int, topo: Topology) {
    && IsParsed(t.logs, logID)
    && topo.summary.nodesCount == t.logs[logID].nodesCount && |topo.nodes| == |Contents(t, logID).nodes|
    && topo.summary.portsCount == t.logs[logID].portsCount
    && Int32(SumParsed(topo.nodes)) == topo.summary.portsCount
    && (|Contents(t, logID).ports| < 0x8000_0000 ==>
      SumParsed(topo.nodes) == topo.summary.portsCount == |Contents(t, logID).ports|)
    && Distinct(Endpoints(topo.edges))
  }

  /** The topology of a saved log accounts for every saved port once, and no port of it ends two edges. */
  lemma SavedLogsAddUp(t: Tables, seqs: Sequences, logID: int, topo: Topology, plan: Plan)
    requires DBInv(t, seqs) && IsParsed(t.logs, logID)
    requires IsTopologyOf(topo, logID, ReadLog(t, logID).value.nodes, ReadLog(t, logID).value.ports, plan)
    ensures AddsUp(t, logID, topo)
  {
    var data := ReadLog(t, logID).value;
    SelectedNodes(t, seqs, logID);
    SelectedPorts(t, seqs, logID);
    assert LogOK(t, seqs, logID);
    SnapshotFitsTopology(t, seqs, logID);
    ParsedPortCountsAddUp(topo, logID, data.nodes, data.ports, plan);
    EdgeEndpointsAreDistinct(data.nodes, data.ports, plan);
  }

  /** The positions of the saved ports with this node GUID. */
  function SavedUnder(parsed: ParsedLog, guid: string): set<int> {
    set k | 0 <= k < |parsed.ports| && parsed.ports[k].nodeGUID == guid && guid != ""
  }

  lemma CountSavedPorts(t: Tables, seqs: Sequences, logID: int, guid: string)
    requires DBInv(t, seqs)
    ensures |PositionsByGUID(SelectPorts(t, logID), guid)| == |SavedUnder(Contents(t, logID), guid)|
  {
    var rows, sorted := PortRows(t, logID), SortedPortRows(t, logID);
    var named := (r: PortRow) => r.port.nodeGUID == guid && guid != "";
    hide PortRows, DBInv;
    FilterPermutes(sorted, rows, named);
    assert |Filter(sorted, named)| == |multiset(Filter(sorted, named))| == |Filter(rows, named)|;
    FilterSize(sorted, named, PositionsByGUID(SelectPorts(t, logID), guid));
    FilterSize(rows, named, SavedUnder(Contents(t, logID), guid));
  }

  /** View `i` shows the node saved at `i`, its info, and the number of ports saved under its GUID. */
  predicate ShowsSavedNode(v: TopologyNode, logID: int, parsed: ParsedLog, i: nat)
    requires i < |parsed.nodes|
  {
    var n := parsed.nodes[i];
    && v.logID == logID && v.nodeGUID == n.nodeGUID && v.nodeDesc == n.nodeDesc && v.nodeType == n.nodeType
    && v.declaredPortsCount == n.numPorts
    && (if Text.TrimSpace(n.nodeKind) == "" then v.nodeKind == "unknown"
        else v.nodeKind == Text.ToLower(Text.TrimSpace(n.nodeKind)))
    && v.parsedPortsCount == Int32(|SavedUnder(parsed, n.nodeGUID)|)
    && if HasInfo(parsed, n.nodeGUID) then
         exists k :: 0 <= k < |parsed.infos| && parsed.infos[k].nodeGUID == n.nodeGUID
           && v.serialNumber == parsed.infos[k].serialNumber && v.productName == parsed.infos[k].productName
       else v.serialNumber == v.productName == ""
  }

  predicate HasInfo(parsed: ParsedLog, guid: string) {
    exists k :: 0 <= k < |parsed.infos| && parsed.infos[k].nodeGUID == guid
  }

  /** From the saved log to the answer: every node is shown as it was saved, in order. */
  lemma TopologyShowsSavedNodes(t: Tables, seqs: Sequences, logID: int, topo: Topology, i: nat)
    requires DBInv(t, seqs) && ShowsStoredLog(t, logID, topo) && i < |Contents(t, logID).nodes|
    ensures |topo.nodes| == |Contents(t, logID).nodes|
    ensures ShowsSavedNode(topo.nodes[i], logID, Contents(t, logID), i)
  {
    var data, parsed := ReadLog(t, logID).value, Contents(t, logID);
    var plan :| IsTopologyOf(topo, logID, data.nodes, data.ports, plan);
    NodesAreReadBack(t, seqs, logID, parsed, i);
    ViewsShowNodes(topo, logID, data.nodes, data.ports, plan, i);
    SavedCountIsShown(t, seqs, logID, data.nodes[i]);
    assert topo.nodes[i] == ViewOf(data.ports, data.nodes[i]);
  }

  lemma SavedCountIsShown(t: Tables, seqs: Sequences, logID: int, n: TopologyModel.Node)
    requires DBInv(t, seqs) && logID in t.logs && n in SelectNodes(t, logID)
    ensures ParsedPorts(SelectPorts(t, logID), n) ==
      Int32(|SavedUnder(Contents(t, logID), n.nodeGUID)|)
  {
    var nodes, ports := SelectNodes(t, logID), SelectPorts(t, logID);
    SnapshotFitsTopology(t, seqs, logID);
    FallbackNeverContributes(nodes, ports, n);
    SameCountByGUID(nodes, ports, n);
    CountsArePositions(ports, n.id, n.nodeGUID);
    CountSavedPorts(t, seqs, logID, n.nodeGUID);
    SelectedNodesHaveGUIDs(t, seqs, logID, n);
  }

  lemma SelectedNodesHaveGUIDs(t: Tables, seqs: Sequences, logID: int, n: TopologyModel.Node)
    requires DBInv(t, seqs) && n in SelectNodes(t, logID)
    ensures n.nodeGUID != ""
  {
    SelectedNodes(t, seqs, logID);
    var k :| 0 <= k < |SelectNodes(t, logID)| && SelectNodes(t, logID)[k] == n;
    assert ShowsRow(n, NodeRows(t, logID)[k]) && NodeRows(t, logID)[k] in NodeRows(t, logID);
    assert NodeOK(t.logs, seqs, NodeRows(t, logID)[k]);
  }

  /** In every run, whatever a topology request reads of a parsed log adds up in the same way. */
  lemma ReadLogsAddUp(states: seq<State>, actions: seq<Action>, i: nat, c: nat, topo: Topology, plan: Plan)
    requires IsRun(states, actions) && i < |states| && c < |states[i].calls|
    requires states[i].calls[c].TopoDone? && states[i].calls[c].data.Ok?
    requires var data := states[i].calls[c].data.value;
      && data.log.status.Parsed?
      && IsTopologyOf(topo, states[i].calls[c].logID, data.nodes, data.ports, plan)
    ensures var data := states[i].calls[c].data.value;
      && Int32(SumParsed(topo.nodes)) == topo.summary.portsCount == data.log.portsCount
      && (|data.ports| < 0x8000_0000 ==> SumParsed(topo.nodes) == topo.summary.portsCount)
      && topo.summary.nodesCount == data.log.nodesCount
      && Distinct(Endpoints(topo.edges))
  {
    var data := states[i].calls[c].data.value;
    RepliesAreTrue(states, actions, i, c);
    ParsedPortCountsAddUp(topo, states[i].calls[c].logID, data.nodes, data.ports, plan);
    EdgeEndpointsAreDistinct(data.nodes, data.ports, plan);
  }
}
