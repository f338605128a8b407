/** Committing a save: one log turns parsed with exactly its contents, and nothing else changes. */
module SaveCommit {
  import opened Seqs
  import opened Tables
  import opened SaveProgram
  import opened SaveSteps

  /** Tables with the rows of a save appended. */
  function Appended(t: Tables, sv: Save, logs: map<int, LogRow>): Tables {
    Tables(logs, t.nodes + sv.nodes, t.infos + sv.infos, t.ports + sv.ports)
  }

  lemma CommitAppends(t: Tables, sv: Save)
    requires sv.dropped == {} && sv.logID in t.logs
    ensures Commit(t, sv) == Appended(t, sv, t.logs[sv.logID := Finished(t.logs[sv.logID], sv.parsed)])
  {
    CleanView(t, sv);
  }

  // ---- Rows of the saved log ----

  lemma OwnRow(seqs: Sequences, sv: Save, r: NodeRow)
    requires NodesSaved(seqs, sv) && r in sv.nodes
    ensures r.logID == sv.logID && Drawn(seqs.nodes, r.id, sv.logID) && r.node.nodeGUID != ""
  {
    var i :| 0 <= i < |sv.nodes| && sv.nodes[i] == r;
    assert NodeSaved(seqs, sv.logID, sv.parsed.nodes[i], sv.nodes[i]);
  }

  lemma OwnPort(seqs: Sequences, sv: Save, r: PortRow)
    requires PortsSaved(seqs, sv) && r in sv.ports
    ensures r.logID == sv.logID && Drawn(seqs.ports, r.id, sv.logID)
    ensures r.port.nodeGUID in sv.nodeIDs && r.nodeID == sv.nodeIDs[r.port.nodeGUID]
  {
    var i :| 0 <= i < |sv.ports| && sv.ports[i] == r;
    assert PortSaved(seqs, sv.logID, sv.nodeIDs, sv.parsed.ports[i], sv.ports[i]);
  }

  lemma OwnInfo(sv: Save, r: InfoRow)
    requires InfosSaved(sv) && r in sv.infos
    ensures r.info.nodeGUID in sv.nodeIDs && r.nodeID == sv.nodeIDs[r.info.nodeGUID]
  {
    var i :| 0 <= i < |sv.infos| && sv.infos[i] == r;
    assert InfoSaved(sv.nodeIDs, sv.parsed.infos[i], sv.infos[i]);
  }

  lemma SavedNodeRows(t: Tables, seqs: Sequences, sv: Save, logs: map<int, LogRow>)
    requires Working(t, seqs, sv)
    ensures NodeRows(Appended(t, sv, logs), sv.logID) == sv.nodes
  {
    hide DBInv, NodesSaved, InfosSaved, PortsSaved;
    OnlyParsedLogsHaveRows(t, seqs, sv.logID);
    var id := sv.logID;
    FilterAppend(t.nodes, sv.nodes, (r: NodeRow) => r.logID == id);
    forall r | r in sv.nodes ensures r.logID == id { OwnRow(seqs, sv, r); }
    FilterAll(sv.nodes, (r: NodeRow) => r.logID == id);
  }

  lemma SavedPortRows(t: Tables, seqs: Sequences, sv: Save, logs: map<int, LogRow>)
    requires Working(t, seqs, sv)
    ensures PortRows(Appended(t, sv, logs), sv.logID) == sv.ports
  {
    OnlyParsedLogsHaveRows(t, seqs, sv.logID);
    var id := sv.logID;
    FilterAppend(t.ports, sv.ports, (r: PortRow) => r.logID == id);
    forall r | r in sv.ports ensures r.logID == id { OwnPort(seqs, sv, r); }
    FilterAll(sv.ports, (r: PortRow) => r.logID == id);
  }

  /** Node ids of one log are drawn for that log. */
  lemma NodeIDsAreDrawn(t: Tables, seqs: Sequences, sv: Save, logs: map<int, LogRow>, logID: int, id: int)
    requires Working(t, seqs, sv) && id in NodeIDs(Appended(t, sv, logs), logID)
    ensures Drawn(seqs.nodes, id, logID)
  {
    var nodes := t.nodes + sv.nodes;
    var i :| 0 <= i < |nodes| && nodes[i].logID == logID && nodes[i].id == id;
    if i < |t.nodes| {
      assert nodes[i] in t.nodes;
      assert NodeOK(t.logs, seqs, nodes[i]);
    } else {
      assert nodes[i] in sv.nodes;
      OwnRow(seqs, sv, nodes[i]);
    }
  }

  lemma CommittedInfoIsNotOwn(t: Tables, seqs: Sequences, sv: Save, logs: map<int, LogRow>, r: InfoRow)
    requires Working(t, seqs, sv) && r in t.infos
    ensures r.nodeID !in NodeIDs(Appended(t, sv, logs), sv.logID)
  {
    if r.nodeID in NodeIDs(Appended(t, sv, logs), sv.logID) {
      NodeIDsAreDrawn(t, seqs, sv, logs, sv.logID, r.nodeID);
      CommittedInfoIsElsewhere(t, seqs, r, r.nodeID, sv.logID);
    }
  }

  lemma SavedInfoIsOwn(t: Tables, seqs: Sequences, sv: Save, logs: map<int, LogRow>, r: InfoRow)
    requires Working(t, seqs, sv) && r in sv.infos
    ensures r.nodeID in NodeIDs(Appended(t, sv, logs), sv.logID)
  {
    hide DBInv, PortsSaved, InfosSaved;
    OwnInfo(sv, r);
    IndexedIDIsOwn(seqs, sv, r.info.nodeGUID);
    var i :| 0 <= i < |sv.nodes| && sv.nodes[i].id == r.nodeID && sv.nodes[i].logID == sv.logID;
    assert (t.nodes + sv.nodes)[|t.nodes| + i] == sv.nodes[i];
  }

  lemma SavedInfoRows(t: Tables, seqs: Sequences, sv: Save, logs: map<int, LogRow>)
    requires Working(t, seqs, sv)
    ensures InfoRows(Appended(t, sv, logs), sv.logID) == sv.infos
  {
    hide Working, NodeIDs;
    var ids := NodeIDs(Appended(t, sv, logs), sv.logID);
    FilterAppend(t.infos, sv.infos, (r: InfoRow) => r.nodeID in ids);
    forall r | r in t.infos ensures r.nodeID !in ids {
      CommittedInfoIsNotOwn(t, seqs, sv, logs, r);
    }
    FilterNone(t.infos, (r: InfoRow) => r.nodeID in ids);
    forall r | r in sv.infos ensures r.nodeID in ids {
      SavedInfoIsOwn(t, seqs, sv, logs, r);
    }
    FilterAll(sv.infos, (r: InfoRow) => r.nodeID in ids);
  }

  lemma SavedContents(t: Tables, seqs: Sequences, sv: Save, logs: map<int, LogRow>)
    requires Working(t, seqs, sv) && IsComplete(sv)
    ensures Contents(Appended(t, sv, logs), sv.logID) == sv.parsed
  {
    SavedNodeRows(t, seqs, sv, logs);
    SavedInfoRows(t, seqs, sv, logs);
    SavedPortRows(t, seqs, sv, logs);
    forall i | 0 <= i < |sv.nodes| ensures sv.nodes[i].node == sv.parsed.nodes[i] {
      assert NodeSaved(seqs, sv.logID, sv.parsed.nodes[i], sv.nodes[i]);
    }
    forall i | 0 <= i < |sv.infos| ensures sv.infos[i].info == sv.parsed.infos[i] {
      assert InfoSaved(sv.nodeIDs, sv.parsed.infos[i], sv.infos[i]);
    }
    forall i | 0 <= i < |sv.ports| ensures sv.ports[i].port == sv.parsed.ports[i] {
      assert PortSaved(seqs, sv.logID, sv.nodeIDs, sv.parsed.ports[i], sv.ports[i]);
    }
    assert NodesIn(sv.nodes) == sv.parsed.nodes && InfosIn(sv.infos) == sv.parsed.infos;
    assert PortsIn(sv.ports) == sv.parsed.ports;
  }

  // ---- Rows of every other log ----

  lemma OtherNodeIDs(t: Tables, seqs: Sequences, sv: Save, logs: map<int, LogRow>, logID: int)
    requires Working(t, seqs, sv) && logID != sv.logID
    ensures NodeIDs(Appended(t, sv, logs), logID) == NodeIDs(t, logID)
  {
    var nodes := t.nodes + sv.nodes;
    forall i | |t.nodes| <= i < |nodes| ensures nodes[i].logID == sv.logID {
      assert nodes[i] in sv.nodes;
      OwnRow(seqs, sv, nodes[i]);
    }
    forall i | 0 <= i < |t.nodes| ensures nodes[i] == t.nodes[i] {}
    assert forall id :: id in NodeIDs(t, logID) ==> id in NodeIDs(Appended(t, sv, logs), logID) by {
      forall id | id in NodeIDs(t, logID) ensures id in NodeIDs(Appended(t, sv, logs), logID) {
        var i :| 0 <= i < |t.nodes| && t.nodes[i].logID == logID && t.nodes[i].id == id;
        assert nodes[i].logID == logID && nodes[i].id == id;
      }
    }
  }

  lemma OtherRows(t: Tables, seqs: Sequences, sv: Save, logs: map<int, LogRow>, logID: int)
    requires Working(t, seqs, sv) && logID != sv.logID
    ensures NodeRows(Appended(t, sv, logs), logID) == NodeRows(t, logID)
    ensures PortRows(Appended(t, sv, logs), logID) == PortRows(t, logID)
  {
    FilterAppend(t.nodes, sv.nodes, (r: NodeRow) => r.logID == logID);
    forall r | r in sv.nodes ensures r.logID != logID { OwnRow(seqs, sv, r); }
    FilterNone(sv.nodes, (r: NodeRow) => r.logID == logID);
    FilterAppend(t.ports, sv.ports, (r: PortRow) => r.logID == logID);
    forall r | r in sv.ports ensures r.logID != logID { OwnPort(seqs, sv, r); }
    FilterNone(sv.ports, (r: PortRow) => r.logID == logID);
  }

  lemma OtherInfoRows(t: Tables, seqs: Sequences, sv: Save, logs: map<int, LogRow>, logID: int)
    requires Working(t, seqs, sv) && logID != sv.logID
    ensures InfoRows(Appended(t, sv, logs), logID) == InfoRows(t, logID)
  {
    OtherNodeIDs(t, seqs, sv, logs, logID);
    var ids := NodeIDs(t, logID);
    FilterAppend(t.infos, sv.infos, (r: InfoRow) => r.nodeID in ids);
    forall r | r in sv.infos ensures r.nodeID !in ids {
      OwnInfo(sv, r);
      IndexedIDIsOwn(seqs, sv, r.info.nodeGUID);
      if r.nodeID in ids {
        NodeIDsAreDrawn(t, seqs, sv, logs, logID, r.nodeID);
      }
    }
    FilterNone(sv.infos, (r: InfoRow) => r.nodeID in ids);
  }

  lemma OtherContents(t: Tables, seqs: Sequences, sv: Save, logs: map<int, LogRow>, logID: int)
    requires Working(t, seqs, sv) && logID != sv.logID
    ensures Contents(Appended(t, sv, logs), logID) == Contents(t, logID)
  {
    OtherRows(t, seqs, sv, logs, logID);
    OtherInfoRows(t, seqs, sv, logs, logID);
  }

  // ---- The invariant after the commit ----

  /** Only the saved log's row changes, and it is parsed now. */
  ghost predicate Marks(logs: map<int, LogRow>, logs': map<int, LogRow>, sv: Save) {
    sv.logID in logs && logs' == logs[sv.logID := Finished(logs[sv.logID], sv.parsed)]
  }

  lemma NodesStayInOrder(t: Tables, seqs: Sequences, sv: Save, logs': map<int, LogRow>)
    requires Working(t, seqs, sv) && Marks(t.logs, logs', sv)
    ensures forall r | r in t.nodes + sv.nodes :: NodeOK(logs', seqs, r)
  {
    forall r | r in t.nodes + sv.nodes ensures NodeOK(logs', seqs, r) {
      if r in t.nodes {
        assert NodeOK(t.logs, seqs, r);
      } else {
        OwnRow(seqs, sv, r);
      }
    }
  }

  lemma NodesStayApart(t: Tables, seqs: Sequences, sv: Save)
    requires Working(t, seqs, sv)
    ensures Pairwise(t.nodes + sv.nodes, NodesApart)
  {
    forall x, y | x in t.nodes && y in sv.nodes ensures NodesApart(x, y) {
      assert NodeOK(t.logs, seqs, x);
      OwnRow(seqs, sv, y);
    }
    PairwiseAppend(t.nodes, sv.nodes, NodesApart);
  }

  lemma RefersInAppend(a: seq<NodeRow>, b: seq<NodeRow>, id: int, logID: int, guid: string)
    requires RefersIn(a, id, logID, guid) || RefersIn(b, id, logID, guid)
    ensures RefersIn(a + b, id, logID, guid)
  {
    if i :| 0 <= i < |a| && a[i].id == id && a[i].logID == logID && a[i].node.nodeGUID == guid {
      assert (a + b)[i] == a[i];
    } else {
      var j :| 0 <= j < |b| && b[j].id == id && b[j].logID == logID && b[j].node.nodeGUID == guid;
      assert (a + b)[|a| + j] == b[j];
    }
  }

  lemma RefersBothAppend(a: seq<NodeRow>, b: seq<NodeRow>, id: int, guid: string)
    requires Refers(a, id, guid) || Refers(b, id, guid)
    ensures Refers(a + b, id, guid)
  {
    if i :| 0 <= i < |a| && a[i].id == id && a[i].node.nodeGUID == guid {
      assert (a + b)[i] == a[i];
    } else {
      var j :| 0 <= j < |b| && b[j].id == id && b[j].node.nodeGUID == guid;
      assert (a + b)[|a| + j] == b[j];
    }
  }

  lemma InfosStayInOrder(t: Tables, seqs: Sequences, sv: Save)
    requires Working(t, seqs, sv)
    ensures forall r | r in t.infos + sv.infos :: Refers(t.nodes + sv.nodes, r.nodeID, r.info.nodeGUID)
    ensures Pairwise(t.infos + sv.infos, InfosApart)
  {
    forall r | r in t.infos + sv.infos ensures Refers(t.nodes + sv.nodes, r.nodeID, r.info.nodeGUID) {
      if r in sv.infos {
        OwnInfo(sv, r);
      }
      RefersBothAppend(t.nodes, sv.nodes, r.nodeID, r.info.nodeGUID);
    }
    forall x, y | x in t.infos && y in sv.infos ensures InfosApart(x, y) {
      OwnInfo(sv, y);
      IndexedIDIsOwn(seqs, sv, y.info.nodeGUID);
      CommittedInfoIsElsewhere(t, seqs, x, y.nodeID, sv.logID);
    }
    PairwiseAppend(t.infos, sv.infos, InfosApart);
  }

  lemma PortsStayInOrder(t: Tables, seqs: Sequences, sv: Save, logs': map<int, LogRow>)
    requires Working(t, seqs, sv) && Marks(t.logs, logs', sv)
    ensures forall r | r in t.ports + sv.ports :: PortOK(Appended(t, sv, logs'), seqs, r)
  {
    forall r | r in t.ports + sv.ports ensures PortOK(Appended(t, sv, logs'), seqs, r) {
      if r in t.ports {
        assert PortOK(t, seqs, r);
      } else {
        OwnPort(seqs, sv, r);
        IndexedIDIsOwn(seqs, sv, r.port.nodeGUID);
      }
      RefersInAppend(t.nodes, sv.nodes, r.nodeID, r.logID, r.port.nodeGUID);
    }
  }

  lemma PortsStayApart(t: Tables, seqs: Sequences, sv: Save)
    requires Working(t, seqs, sv)
    ensures Pairwise(t.ports + sv.ports, PortsApart)
  {
    forall x, y | x in t.ports && y in sv.ports ensures PortsApart(x, y) {
      assert PortOK(t, seqs, x);
      OwnPort(seqs, sv, y);
    }
    PairwiseAppend(t.ports, sv.ports, PortsApart);
  }

  lemma LogsStayInOrder(t: Tables, seqs: Sequences, sv: Save, logs': map<int, LogRow>)
    requires Working(t, seqs, sv) && Marks(t.logs, logs', sv) && IsComplete(sv)
    ensures forall id | id in logs' :: LogOK(Appended(t, sv, logs'), seqs, id)
  {
    forall id | id in logs' ensures LogOK(Appended(t, sv, logs'), seqs, id) {
      assert LogOK(t, seqs, id);
      if id == sv.logID {
        SavedNodeRows(t, seqs, sv, logs');
        SavedPortRows(t, seqs, sv, logs');
      } else {
        OtherRows(t, seqs, sv, logs', id);
      }
    }
  }

  /** The committed tables are in order again. */
  lemma CommitKeepsOrder(t: Tables, seqs: Sequences, sv: Save)
    requires Working(t, seqs, sv) && IsComplete(sv)
    ensures DBInv(Commit(t, sv), seqs)
  {
    var logs' := t.logs[sv.logID := Finished(t.logs[sv.logID], sv.parsed)];
    CommitAppends(t, sv);
    NodesStayInOrder(t, seqs, sv, logs');
    NodesStayApart(t, seqs, sv);
    InfosStayInOrder(t, seqs, sv);
    PortsStayInOrder(t, seqs, sv, logs');
    PortsStayApart(t, seqs, sv);
    LogsStayInOrder(t, seqs, sv, logs');
  }

  /**
   A commit stores exactly the parsed log under its id, with its counts, and leaves every other log with the rows
   it had. That the log was fit to be saved is part of the conclusion.
   */
  lemma CommitSavesExactly(t: Tables, seqs: Sequences, sv: Save)
    requires Working(t, seqs, sv) && IsComplete(sv)
    ensures Savable(sv.parsed)
    ensures Commit(t, sv).logs == t.logs[sv.logID := Finished(t.logs[sv.logID], sv.parsed)]
    ensures Contents(Commit(t, sv), sv.logID) == sv.parsed
    ensures forall id | id != sv.logID :: Contents(Commit(t, sv), id) == Contents(t, id)
  {
    var logs' := t.logs[sv.logID := Finished(t.logs[sv.logID], sv.parsed)];
    CompleteMeansSavable(seqs, sv);
    CommitAppends(t, sv);
    SavedContents(t, seqs, sv, logs');
    forall id | id != sv.logID ensures Contents(Commit(t, sv), id) == Contents(t, id) {
      OtherContents(t, seqs, sv, logs', id);
    }
  }
}
