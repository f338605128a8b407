/** Every statement of a save keeps its invariant, and fails only with the first flaw of a log that cannot be saved. */
module SaveSteps {
  import opened Domain
  import opened Seqs
  import opened Tables
  import opened SaveProgram
  import opened Flaws

  lemma CleanView(t: Tables, sv: Save)
    requires sv.dropped == {}
    ensures View(t, sv) == Tables(t.logs, t.nodes + sv.nodes, t.infos + sv.infos, t.ports + sv.ports)
  {
    var dropped := sv.dropped;
    FilterAll(t.nodes, (r: NodeRow) => r.id !in dropped);
    FilterAll(t.infos, (r: InfoRow) => r.nodeID !in dropped);
    FilterAll(t.ports, (r: PortRow) => r.nodeID !in dropped);
  }

  /** A save in the middle of a database in order. */
  ghost predicate Working(t: Tables, seqs: Sequences, sv: Save) {
    DBInv(t, seqs) && SaveInv(seqs, sv) && IsProcessing(t.logs, sv.logID)
  }

  /** The row to be inserted next. */
  function Inserted(sv: Save): nat {
    |sv.nodes| + |sv.infos| + |sv.ports|
  }

  /** The row to be inserted has the first flaw of the log, and it calls for this error. */
  ghost predicate StuckOn(sv: Save, e: Error) {
    && Inserted(sv) < RowCount(sv.parsed) && RowFlaw(sv.parsed, Inserted(sv)) == Some(e)
    && FirstFlaw(sv.parsed) == Some(e)
  }

  /** What one statement may do: go on correctly, or stop with the first flaw because the log cannot be saved. */
  ghost predicate GoodProgress(p: Progress, t: Tables, seqs: Sequences, sv: Save) {
    match p
    case Next(sv', seqs') =>
      && Grown(seqs, seqs') && SaveInv(seqs', sv')
      && sv'.logID == sv.logID && sv'.parsed == sv.parsed && seqs'.logs == seqs.logs
    case Stop(e, seqs') =>
      && Grown(seqs, seqs') && !Savable(sv.parsed) && StuckOn(sv, e)
      && e in {EmptyGUID, UnknownReference, Constraint} && seqs'.logs == seqs.logs
    case Ready => IsComplete(sv) && sv.updated
  }

  // ---- Rows that went in had no flaw ----

  lemma InsertedNodeIsClean(seqs: Sequences, sv: Save, i: nat)
    requires SaveInv(seqs, sv) && i < |sv.nodes|
    ensures NodeFlaw(sv.parsed, i).None?
  {
    assert NodeSaved(seqs, sv.logID, sv.parsed.nodes[i], sv.nodes[i]);
    forall j | 0 <= j < i ensures sv.parsed.nodes[j].nodeGUID != sv.parsed.nodes[i].nodeGUID {
      assert NodeSaved(seqs, sv.logID, sv.parsed.nodes[j], sv.nodes[j]);
      assert NodesApart(sv.nodes[j], sv.nodes[i]);
    }
  }

  lemma InsertedInfoIsClean(seqs: Sequences, sv: Save, i: nat)
    requires SaveInv(seqs, sv) && i < |sv.infos|
    ensures InfoFlaw(sv.parsed, i).None?
  {
    assert InfoSaved(sv.nodeIDs, sv.parsed.infos[i], sv.infos[i]);
    KnownIff(seqs, sv, sv.parsed.infos[i].nodeGUID);
    NoEmptyGUID(seqs, sv);
    forall j | 0 <= j < i ensures sv.parsed.infos[j].nodeGUID != sv.parsed.infos[i].nodeGUID {
      assert InfoSaved(sv.nodeIDs, sv.parsed.infos[j], sv.infos[j]);
      assert InfosApart(sv.infos[j], sv.infos[i]);
    }
  }

  lemma InsertedPortIsClean(seqs: Sequences, sv: Save, i: nat)
    requires SaveInv(seqs, sv) && i < |sv.ports|
    ensures PortFlaw(sv.parsed, i).None?
  {
    assert PortSaved(seqs, sv.logID, sv.nodeIDs, sv.parsed.ports[i], sv.ports[i]);
    KnownIff(seqs, sv, sv.parsed.ports[i].nodeGUID);
    NoEmptyGUID(seqs, sv);
    forall j | 0 <= j < i ensures PortsDiffer(sv.parsed.ports[j], sv.parsed.ports[i]) {
      assert PortSaved(seqs, sv.logID, sv.nodeIDs, sv.parsed.ports[j], sv.ports[j]);
      assert PortsApart(sv.ports[j], sv.ports[i]);
    }
  }

  lemma InsertedRowsAreClean(seqs: Sequences, sv: Save)
    requires SaveInv(seqs, sv)
    ensures Inserted(sv) <= RowCount(sv.parsed) && CleanUpTo(sv.parsed, Inserted(sv))
  {
    var n, m := |sv.parsed.nodes|, |sv.parsed.infos|;
    forall k: nat | k < Inserted(sv) ensures RowFlaw(sv.parsed, k).None? {
      if k < n {
        InsertedNodeIsClean(seqs, sv, k);
      } else if k < n + m {
        InsertedInfoIsClean(seqs, sv, k - n);
      } else {
        InsertedPortIsClean(seqs, sv, k - n - m);
      }
    }
  }

  /** If the row to be inserted has a flaw, it is the first one of the log. */
  lemma FlawStops(seqs: Sequences, sv: Save)
    requires SaveInv(seqs, sv) && Inserted(sv) < RowCount(sv.parsed) && RowFlaw(sv.parsed, Inserted(sv)).Some?
    ensures StuckOn(sv, RowFlaw(sv.parsed, Inserted(sv)).value) && !Savable(sv.parsed)
  {
    InsertedRowsAreClean(seqs, sv);
    FlawAfterCleanRows(sv.parsed, Inserted(sv));
  }

  // ---- The delete ----

  lemma ClearStep(t: Tables, seqs: Sequences, sv: Save)
    requires Working(t, seqs, sv) && !sv.cleared
    ensures NodeIDs(t, sv.logID) == {}
    ensures GoodProgress(Advance(t, seqs, sv), t, seqs, sv)
  {
    OnlyParsedLogsHaveRows(t, seqs, sv.logID);
  }

  // ---- Nodes ----

  lemma NodeAllowedIff(t: Tables, seqs: Sequences, sv: Save, node: ParsedNode)
    requires Working(t, seqs, sv)
    ensures NodeAllowed(View(t, sv), NodeRow(|seqs.nodes| + 1, sv.logID, node)) <==>
      forall i | 0 <= i < |sv.nodes| :: sv.nodes[i].node.nodeGUID != node.nodeGUID
  {
    var row := NodeRow(|seqs.nodes| + 1, sv.logID, node);
    CleanView(t, sv);
    forall r | r in t.nodes ensures r.id != row.id && r.logID != row.logID {
      assert NodeOK(t.logs, seqs, r);
    }
    forall r | r in sv.nodes ensures r.id != row.id && r.logID == row.logID {
      var i :| 0 <= i < |sv.nodes| && sv.nodes[i] == r;
      assert NodeSaved(seqs, sv.logID, sv.parsed.nodes[i], r);
    }
    if forall i | 0 <= i < |sv.nodes| :: sv.nodes[i].node.nodeGUID != node.nodeGUID {
      forall r | r in t.nodes + sv.nodes
        ensures r.id != row.id && !(r.logID == row.logID && r.node.nodeGUID == node.nodeGUID)
      {
        if r !in t.nodes {
          assert r in sv.nodes;
        }
      }
    } else {
      var i :| 0 <= i < |sv.nodes| && sv.nodes[i].node.nodeGUID == node.nodeGUID;
      assert sv.nodes[i] in sv.nodes && sv.nodes[i] in t.nodes + sv.nodes;
    }
  }

  lemma NodeAppended(seqs: Sequences, sv: Save, node: ParsedNode)
    requires NodesSaved(seqs, sv) && |sv.nodes| < |sv.parsed.nodes| && node == sv.parsed.nodes[|sv.nodes|]
    requires node.nodeGUID != "" && forall i | 0 <= i < |sv.nodes| :: sv.nodes[i].node.nodeGUID != node.nodeGUID
    ensures NodesSaved(DrawNode(seqs, sv.logID), sv.(nodes := sv.nodes + [NodeRow(|seqs.nodes| + 1, sv.logID, node)]))
  {
    var row, seqs' := NodeRow(|seqs.nodes| + 1, sv.logID, node), DrawNode(seqs, sv.logID);
    assert NodeSaved(seqs', sv.logID, node, row);
    forall i | 0 <= i < |sv.nodes|
      ensures NodeSaved(seqs', sv.logID, sv.parsed.nodes[i], sv.nodes[i]) && NodesApart(sv.nodes[i], row)
    {
      assert NodeSaved(seqs, sv.logID, sv.parsed.nodes[i], sv.nodes[i]);
      DrawnStays(seqs.nodes, seqs'.nodes, sv.nodes[i].id, sv.logID);
    }
    PairwiseAppend(sv.nodes, [row], NodesApart);
  }

  lemma RefersAppend(rows: seq<NodeRow>, row: NodeRow, id: int, guid: string)
    requires Refers(rows, id, guid)
    ensures Refers(rows + [row], id, guid)
  {
    var i :| 0 <= i < |rows| && rows[i].id == id && rows[i].node.nodeGUID == guid;
    assert (rows + [row])[i] == rows[i];
  }

  lemma IndexAppended(sv: Save, row: NodeRow)
    requires NodesIndexed(sv)
    requires forall i | 0 <= i < |sv.nodes| :: sv.nodes[i].node.nodeGUID != row.node.nodeGUID
    ensures NodesIndexed(WithNode(sv, row))
  {
    var nodeIDs' := sv.nodeIDs[row.node.nodeGUID := row.id];
    forall g | g in nodeIDs' ensures Refers(sv.nodes + [row], nodeIDs'[g], g) {
      if g == row.node.nodeGUID {
        assert (sv.nodes + [row])[|sv.nodes|] == row;
      } else {
        RefersAppend(sv.nodes, row, sv.nodeIDs[g], g);
      }
    }
  }

  lemma NodeClash(seqs: Sequences, sv: Save, i: nat)
    requires SaveInv(seqs, sv) && i < |sv.nodes| < |sv.parsed.nodes|
    requires sv.nodes[i].node.nodeGUID == sv.parsed.nodes[|sv.nodes|].nodeGUID != ""
    ensures NodeFlaw(sv.parsed, |sv.nodes|) == Some(Constraint)
  {
    assert NodeSaved(seqs, sv.logID, sv.parsed.nodes[i], sv.nodes[i]);
    assert sv.parsed.nodes[i].nodeGUID == sv.parsed.nodes[|sv.nodes|].nodeGUID;
  }

  lemma NodeRefused(seqs: Sequences, sv: Save, e: Error)
    requires SaveInv(seqs, sv) && |sv.nodes| < |sv.parsed.nodes|
    requires NodeFlaw(sv.parsed, |sv.nodes|) == Some(e)
    ensures StuckOn(sv, e) && !Savable(sv.parsed)
  {
    assert Inserted(sv) == |sv.nodes|;
    FlawStops(seqs, sv);
  }

  lemma NodeGoesIn(seqs: Sequences, sv: Save, node: ParsedNode, row: NodeRow)
    requires SaveInv(seqs, sv) && sv.cleared && |sv.nodes| < |sv.parsed.nodes| && node == sv.parsed.nodes[|sv.nodes|]
    requires row == NodeRow(|seqs.nodes| + 1, sv.logID, node)
    requires node.nodeGUID != "" && forall i | 0 <= i < |sv.nodes| :: sv.nodes[i].node.nodeGUID != node.nodeGUID
    ensures SaveInv(DrawNode(seqs, sv.logID), WithNode(sv, row))
  {
    NodeAppended(seqs, sv, node);
    IndexAppended(sv, row);
  }

  lemma NodeStep(t: Tables, seqs: Sequences, sv: Save)
    requires Working(t, seqs, sv) && sv.cleared && |sv.nodes| < |sv.parsed.nodes|
    ensures GoodProgress(InsertNode(t, seqs, sv, sv.parsed.nodes[|sv.nodes|]), t, seqs, sv)
  {
    var node := sv.parsed.nodes[|sv.nodes|];
    var row := NodeRow(|seqs.nodes| + 1, sv.logID, node);
    if node.nodeGUID != "" {
      NodeAllowedIff(t, seqs, sv, node);
      if i: nat :| i < |sv.nodes| && sv.nodes[i].node.nodeGUID == node.nodeGUID {
        NodeClash(seqs, sv, i);
        NodeRefused(seqs, sv, Constraint);
      } else {
        NodeGoesIn(seqs, sv, node, row);
      }
      NodeProgress(t, seqs, sv, node, row);
    } else {
      NodeRefused(seqs, sv, EmptyGUID);
    }
  }

  lemma NodeProgress(t: Tables, seqs: Sequences, sv: Save, node: ParsedNode, row: NodeRow)
    requires node.nodeGUID != "" && row == NodeRow(|seqs.nodes| + 1, sv.logID, node)
    requires NodeAllowed(View(t, sv), row) ==>
      SaveInv(DrawNode(seqs, sv.logID), WithNode(sv, row))
    requires !NodeAllowed(View(t, sv), row) ==> StuckOn(sv, Constraint) && !Savable(sv.parsed)
    ensures GoodProgress(InsertNode(t, seqs, sv, node), t, seqs, sv)
  {
  }

  // ---- References ----

  lemma KnownIff(seqs: Sequences, sv: Save, guid: string)
    requires NodesSaved(seqs, sv) && NodesIndexed(sv) && |sv.nodes| == |sv.parsed.nodes|
    ensures guid in sv.nodeIDs <==> HasGUID(sv.parsed.nodes, guid)
  {
    if guid in sv.nodeIDs {
      var i :| 0 <= i < |sv.nodes| && sv.nodes[i].id == sv.nodeIDs[guid] && sv.nodes[i].node.nodeGUID == guid;
      assert NodeSaved(seqs, sv.logID, sv.parsed.nodes[i], sv.nodes[i]);
      assert sv.parsed.nodes[i].nodeGUID == guid;
    }
    if HasGUID(sv.parsed.nodes, guid) {
      var i :| 0 <= i < |sv.parsed.nodes| && sv.parsed.nodes[i].nodeGUID == guid;
      assert NodeSaved(seqs, sv.logID, sv.parsed.nodes[i], sv.nodes[i]);
    }
  }

  lemma IndexInjective(seqs: Sequences, sv: Save, g: string, h: string)
    requires NodesSaved(seqs, sv) && NodesIndexed(sv)
    requires g in sv.nodeIDs && h in sv.nodeIDs && sv.nodeIDs[g] == sv.nodeIDs[h]
    ensures g == h
  {
    var i :| 0 <= i < |sv.nodes| && sv.nodes[i].id == sv.nodeIDs[g] && sv.nodes[i].node.nodeGUID == g;
    var j :| 0 <= j < |sv.nodes| && sv.nodes[j].id == sv.nodeIDs[h] && sv.nodes[j].node.nodeGUID == h;
    assert i < j ==> NodesApart(sv.nodes[i], sv.nodes[j]);
    assert j < i ==> NodesApart(sv.nodes[j], sv.nodes[i]);
  }

  lemma IndexedIDIsOwn(seqs: Sequences, sv: Save, guid: string)
    requires NodesSaved(seqs, sv) && NodesIndexed(sv) && guid in sv.nodeIDs
    ensures Drawn(seqs.nodes, sv.nodeIDs[guid], sv.logID)
    ensures RefersIn(sv.nodes, sv.nodeIDs[guid], sv.logID, guid)
  {
    var i :| 0 <= i < |sv.nodes| && sv.nodes[i].id == sv.nodeIDs[guid] && sv.nodes[i].node.nodeGUID == guid;
    assert NodeSaved(seqs, sv.logID, sv.parsed.nodes[i], sv.nodes[i]);
  }

  /** A committed info refers to a committed node, whose id was drawn for a parsed log. */
  lemma CommittedInfoIsElsewhere(t: Tables, seqs: Sequences, r: InfoRow, id: int, logID: int)
    requires DBInv(t, seqs) && r in t.infos && Drawn(seqs.nodes, id, logID) && IsProcessing(t.logs, logID)
    ensures r.nodeID != id
  {
    assert Refers(t.nodes, r.nodeID, r.info.nodeGUID);
    var i :| 0 <= i < |t.nodes| && t.nodes[i].id == r.nodeID && t.nodes[i].node.nodeGUID == r.info.nodeGUID;
    assert t.nodes[i] in t.nodes;
    assert NodeOK(t.logs, seqs, t.nodes[i]);
  }

  lemma HasOwnNode(t: Tables, seqs: Sequences, sv: Save, guid: string)
    requires NodesSaved(seqs, sv) && NodesIndexed(sv) && guid in sv.nodeIDs
    ensures HasNode(t.nodes + sv.nodes, sv.nodeIDs[guid])
  {
    var i :| 0 <= i < |sv.nodes| && sv.nodes[i].id == sv.nodeIDs[guid] && sv.nodes[i].node.nodeGUID == guid;
    assert (t.nodes + sv.nodes)[|t.nodes| + i] == sv.nodes[i];
  }

  // ---- Infos ----

  lemma InfoAllowedIff(t: Tables, seqs: Sequences, sv: Save, row: InfoRow)
    requires Working(t, seqs, sv)
    requires row.info.nodeGUID in sv.nodeIDs && row.nodeID == sv.nodeIDs[row.info.nodeGUID]
    ensures InfoAllowed(View(t, sv), row) <==>
      forall i | 0 <= i < |sv.infos| :: sv.infos[i].info.nodeGUID != row.info.nodeGUID
  {
    CleanView(t, sv);
    HasOwnNode(t, seqs, sv, row.info.nodeGUID);
    IndexedIDIsOwn(seqs, sv, row.info.nodeGUID);
    forall r | r in t.infos ensures r.nodeID != row.nodeID {
      CommittedInfoIsElsewhere(t, seqs, r, row.nodeID, sv.logID);
    }
    forall i | 0 <= i < |sv.infos|
      ensures sv.infos[i].nodeID == row.nodeID <==> sv.infos[i].info.nodeGUID == row.info.nodeGUID
    {
      assert InfoSaved(sv.nodeIDs, sv.parsed.infos[i], sv.infos[i]);
      if sv.infos[i].nodeID == row.nodeID {
        IndexInjective(seqs, sv, sv.infos[i].info.nodeGUID, row.info.nodeGUID);
      }
    }
    assert forall i | 0 <= i < |sv.infos| :: sv.infos[i] in t.infos + sv.infos;
  }

  lemma InfoAppended(sv: Save, row: InfoRow)
    requires InfosSaved(sv) && |sv.infos| < |sv.parsed.infos| && |sv.nodes| == |sv.parsed.nodes|
    requires InfoSaved(sv.nodeIDs, sv.parsed.infos[|sv.infos|], row)
    requires forall i | 0 <= i < |sv.infos| :: sv.infos[i].nodeID != row.nodeID
    ensures InfosSaved(WithInfo(sv, row))
  {
    PairwiseAppend(sv.infos, [row], InfosApart);
  }

  lemma InfoClash(seqs: Sequences, sv: Save, i: nat)
    requires SaveInv(seqs, sv) && i < |sv.infos| < |sv.parsed.infos|
    requires sv.infos[i].info.nodeGUID == sv.parsed.infos[|sv.infos|].nodeGUID
    ensures StuckOn(sv, Constraint) && !Savable(sv.parsed)
  {
    assert Inserted(sv) == |sv.parsed.nodes| + |sv.infos|;
    KnownIff(seqs, sv, sv.infos[i].info.nodeGUID);
    NoEmptyGUID(seqs, sv);
    assert InfoSaved(sv.nodeIDs, sv.parsed.infos[i], sv.infos[i]);
    assert sv.parsed.infos[i].nodeGUID == sv.parsed.infos[|sv.infos|].nodeGUID;
    FlawStops(seqs, sv);
  }

  lemma InfoGoesIn(t: Tables, seqs: Sequences, sv: Save, row: InfoRow)
    requires Working(t, seqs, sv) && sv.cleared && |sv.nodes| == |sv.parsed.nodes| && |sv.infos| < |sv.parsed.infos|
    requires InfoSaved(sv.nodeIDs, sv.parsed.infos[|sv.infos|], row) && InfoAllowed(View(t, sv), row)
    ensures SaveInv(DrawInfo(seqs), WithInfo(sv, row))
  {
    CleanView(t, sv);
    assert forall i | 0 <= i < |sv.infos| :: sv.infos[i] in View(t, sv).infos;
    InfoAppended(sv, row);
    SaveInvGrows(seqs, DrawInfo(seqs), sv);
  }

  lemma InfoRefused(seqs: Sequences, sv: Save, info: ParsedInfo)
    requires SaveInv(seqs, sv) && |sv.nodes| == |sv.parsed.nodes| && |sv.infos| < |sv.parsed.infos|
    requires info == sv.parsed.infos[|sv.infos|] && (info.nodeGUID == "" || info.nodeGUID !in sv.nodeIDs)
    ensures StuckOn(sv, if info.nodeGUID == "" then EmptyGUID else UnknownReference) && !Savable(sv.parsed)
  {
    assert Inserted(sv) == |sv.parsed.nodes| + |sv.infos|;
    KnownIff(seqs, sv, info.nodeGUID);
    FlawStops(seqs, sv);
  }

  lemma InfoStep(t: Tables, seqs: Sequences, sv: Save)
    requires Working(t, seqs, sv) && sv.cleared && |sv.nodes| == |sv.parsed.nodes| && |sv.infos| < |sv.parsed.infos|
    ensures GoodProgress(InsertInfo(t, seqs, sv, sv.parsed.infos[|sv.infos|]), t, seqs, sv)
  {
    var info := sv.parsed.infos[|sv.infos|];
    if info.nodeGUID == "" || info.nodeGUID !in sv.nodeIDs {
      InfoRefused(seqs, sv, info);
    } else {
      var row := InfoRow(seqs.infos + 1, sv.nodeIDs[info.nodeGUID], info);
      assert InfoAllowed(View(t, sv), row) ==> SaveInv(DrawInfo(seqs), WithInfo(sv, row)) by {
        if InfoAllowed(View(t, sv), row) {
          InfoGoesIn(t, seqs, sv, row);
        }
      }
      assert !InfoAllowed(View(t, sv), row) ==> StuckOn(sv, Constraint) && !Savable(sv.parsed) by {
        InfoAllowedIff(t, seqs, sv, row);
        if i: nat :| i < |sv.infos| && sv.infos[i].info.nodeGUID == info.nodeGUID {
          InfoClash(seqs, sv, i);
        }
      }
      InfoProgress(t, seqs, sv, info, row);
    }
  }

  lemma GoesOn(t: Tables, seqs: Sequences, sv: Save, sv': Save, seqs': Sequences)
    requires SaveInv(seqs', sv') && Grown(seqs, seqs') && seqs'.logs == seqs.logs
    requires sv'.logID == sv.logID && sv'.parsed == sv.parsed
    ensures GoodProgress(Next(sv', seqs'), t, seqs, sv)
  {
  }

  lemma InfoProgress(t: Tables, seqs: Sequences, sv: Save, info: ParsedInfo, row: InfoRow)
    requires info.nodeGUID != ""
    requires info.nodeGUID in sv.nodeIDs && row == InfoRow(seqs.infos + 1, sv.nodeIDs[info.nodeGUID], info)
    requires InfoAllowed(View(t, sv), row) ==> SaveInv(DrawInfo(seqs), WithInfo(sv, row))
    requires !InfoAllowed(View(t, sv), row) ==> StuckOn(sv, Constraint) && !Savable(sv.parsed)
    ensures GoodProgress(InsertInfo(t, seqs, sv, info), t, seqs, sv)
  {
    if InfoAllowed(View(t, sv), row) {
      GoesOn(t, seqs, sv, WithInfo(sv, row), DrawInfo(seqs));
      assert InsertInfo(t, seqs, sv, info) == Next(WithInfo(sv, row), DrawInfo(seqs));
    }
  }

  /** No saved node has an empty GUID, so nothing can refer to one. */
  lemma NoEmptyGUID(seqs: Sequences, sv: Save)
    requires NodesSaved(seqs, sv) && |sv.nodes| == |sv.parsed.nodes|
    ensures !HasGUID(sv.parsed.nodes, "")
  {
    forall i | 0 <= i < |sv.parsed.nodes| ensures sv.parsed.nodes[i].nodeGUID != "" {
      assert NodeSaved(seqs, sv.logID, sv.parsed.nodes[i], sv.nodes[i]);
    }
  }

  // ---- Ports ----

  lemma PortAllowedIff(t: Tables, seqs: Sequences, sv: Save, port: ParsedPort)
    requires Working(t, seqs, sv) && port.nodeGUID in sv.nodeIDs
    ensures PortAllowed(View(t, sv), PortRow(|seqs.ports| + 1, sv.logID, sv.nodeIDs[port.nodeGUID], port)) <==>
      forall i | 0 <= i < |sv.ports| :: PortsDiffer(sv.ports[i].port, port)
  {
    var row := PortRow(|seqs.ports| + 1, sv.logID, sv.nodeIDs[port.nodeGUID], port);
    CleanView(t, sv);
    HasOwnNode(t, seqs, sv, port.nodeGUID);
    forall r | r in t.ports ensures r.id != row.id && !SamePlace(r, row) {
      assert PortOK(t, seqs, r);
    }
    forall i | 0 <= i < |sv.ports|
      ensures sv.ports[i].id != row.id && (SamePlace(sv.ports[i], row) <==> !PortsDiffer(sv.ports[i].port, port))
    {
      assert PortSaved(seqs, sv.logID, sv.nodeIDs, sv.parsed.ports[i], sv.ports[i]);
      if sv.ports[i].nodeID == row.nodeID {
        IndexInjective(seqs, sv, sv.ports[i].port.nodeGUID, port.nodeGUID);
      }
    }
    assert forall i | 0 <= i < |sv.ports| :: sv.ports[i] in t.ports + sv.ports;
  }

  lemma PortAppended(seqs: Sequences, sv: Save, row: PortRow)
    requires PortsSaved(seqs, sv) && |sv.ports| < |sv.parsed.ports|
    requires |sv.nodes| == |sv.parsed.nodes| && |sv.infos| == |sv.parsed.infos|
    requires PortSaved(DrawPort(seqs, sv.logID), sv.logID, sv.nodeIDs, sv.parsed.ports[|sv.ports|], row)
    requires forall i | 0 <= i < |sv.ports| :: PortsApart(sv.ports[i], row)
    ensures PortsSaved(DrawPort(seqs, sv.logID), WithPort(sv, row))
  {
    var seqs' := DrawPort(seqs, sv.logID);
    forall i | 0 <= i < |sv.ports| ensures PortSaved(seqs', sv.logID, sv.nodeIDs, sv.parsed.ports[i], sv.ports[i]) {
      assert PortSaved(seqs, sv.logID, sv.nodeIDs, sv.parsed.ports[i], sv.ports[i]);
      DrawnStays(seqs.ports, seqs'.ports, sv.ports[i].id, sv.logID);
    }
    PairwiseAppend(sv.ports, [row], PortsApart);
  }

  lemma PortClash(seqs: Sequences, sv: Save, i: nat)
    requires SaveInv(seqs, sv) && i < |sv.ports| < |sv.parsed.ports|
    requires !PortsDiffer(sv.ports[i].port, sv.parsed.ports[|sv.ports|])
    ensures StuckOn(sv, Constraint) && !Savable(sv.parsed)
  {
    assert Inserted(sv) == |sv.parsed.nodes| + |sv.parsed.infos| + |sv.ports|;
    KnownIff(seqs, sv, sv.ports[i].port.nodeGUID);
    NoEmptyGUID(seqs, sv);
    assert PortSaved(seqs, sv.logID, sv.nodeIDs, sv.parsed.ports[i], sv.ports[i]);
    assert !PortsDiffer(sv.parsed.ports[i], sv.parsed.ports[|sv.ports|]);
    FlawStops(seqs, sv);
  }

  lemma PortGoesIn(t: Tables, seqs: Sequences, sv: Save, row: PortRow)
    requires Working(t, seqs, sv) && sv.cleared && |sv.nodes| == |sv.parsed.nodes| && |sv.infos| == |sv.parsed.infos|
    requires |sv.ports| < |sv.parsed.ports|
    requires PortSaved(DrawPort(seqs, sv.logID), sv.logID, sv.nodeIDs, sv.parsed.ports[|sv.ports|], row)
    requires PortAllowed(View(t, sv), row)
    ensures SaveInv(DrawPort(seqs, sv.logID), WithPort(sv, row))
  {
    CleanView(t, sv);
    assert forall i | 0 <= i < |sv.ports| :: sv.ports[i] in View(t, sv).ports;
    PortAppended(seqs, sv, row);
    SaveInvGrows(seqs, DrawPort(seqs, sv.logID), sv);
  }

  lemma PortStep(t: Tables, seqs: Sequences, sv: Save)
    requires Working(t, seqs, sv) && sv.cleared && |sv.nodes| == |sv.parsed.nodes| && |sv.infos| == |sv.parsed.infos|
    requires |sv.ports| < |sv.parsed.ports|
    ensures GoodProgress(InsertPort(t, seqs, sv, sv.parsed.ports[|sv.ports|]), t, seqs, sv)
  {
    var port := sv.parsed.ports[|sv.ports|];
    if port.nodeGUID == "" || port.nodeGUID !in sv.nodeIDs {
      PortRefused(seqs, sv, port);
    } else {
      var row := PortRow(|seqs.ports| + 1, sv.logID, sv.nodeIDs[port.nodeGUID], port);
      assert PortAllowed(View(t, sv), row) ==> SaveInv(DrawPort(seqs, sv.logID), WithPort(sv, row)) by {
        if PortAllowed(View(t, sv), row) {
          PortGoesIn(t, seqs, sv, row);
        }
      }
      assert !PortAllowed(View(t, sv), row) ==> StuckOn(sv, Constraint) && !Savable(sv.parsed) by {
        PortAllowedIff(t, seqs, sv, port);
        if i: nat :| i < |sv.ports| && !PortsDiffer(sv.ports[i].port, port) {
          PortClash(seqs, sv, i);
        }
      }
      PortProgress(t, seqs, sv, port, row);
    }
  }

  lemma PortRefused(seqs: Sequences, sv: Save, port: ParsedPort)
    requires SaveInv(seqs, sv) && |sv.nodes| == |sv.parsed.nodes| && |sv.ports| < |sv.parsed.ports|
    requires |sv.infos| == |sv.parsed.infos|
    requires port == sv.parsed.ports[|sv.ports|] && (port.nodeGUID == "" || port.nodeGUID !in sv.nodeIDs)
    ensures StuckOn(sv, if port.nodeGUID == "" then EmptyGUID else UnknownReference) && !Savable(sv.parsed)
  {
    assert Inserted(sv) == |sv.parsed.nodes| + |sv.parsed.infos| + |sv.ports|;
    KnownIff(seqs, sv, port.nodeGUID);
    FlawStops(seqs, sv);
  }

  lemma PortProgress(t: Tables, seqs: Sequences, sv: Save, port: ParsedPort, row: PortRow)
    requires port.nodeGUID != "" && port.nodeGUID in sv.nodeIDs
    requires row == PortRow(|seqs.ports| + 1, sv.logID, sv.nodeIDs[port.nodeGUID], port)
    requires PortAllowed(View(t, sv), row) ==> SaveInv(DrawPort(seqs, sv.logID), WithPort(sv, row))
    requires !PortAllowed(View(t, sv), row) ==> StuckOn(sv, Constraint) && !Savable(sv.parsed)
    ensures GoodProgress(InsertPort(t, seqs, sv, port), t, seqs, sv)
  {
  }

  // ---- All statements ----

  lemma AdvanceIsGood(t: Tables, seqs: Sequences, sv: Save)
    requires Working(t, seqs, sv)
    ensures GoodProgress(Advance(t, seqs, sv), t, seqs, sv)
  {
    if !sv.cleared {
      ClearStep(t, seqs, sv);
    } else if |sv.nodes| < |sv.parsed.nodes| {
      NodeStep(t, seqs, sv);
    } else if |sv.infos| < |sv.parsed.infos| {
      InfoStep(t, seqs, sv);
    } else if |sv.ports| < |sv.parsed.ports| {
      PortStep(t, seqs, sv);
    }
  }

  /** A transaction that inserted everything shows that the log could be saved. */
  lemma CompleteMeansSavable(seqs: Sequences, sv: Save)
    requires SaveInv(seqs, sv) && IsComplete(sv)
    ensures Savable(sv.parsed)
  {
    InsertedRowsAreClean(seqs, sv);
    CleanMeansSavable(sv.parsed);
  }
}
