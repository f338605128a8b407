/** The repository's storage and the service on top of it, one call at a time. */
module Storage {
  import opened Domain
  import opened Tables
  import opened SaveProgram
  import opened Flaws
  import opened SaveSteps
  import opened SaveCommit
  import opened Snapshots
  import opened LifecycleInv
  import opened LifecycleSteps
  import TM = TopologyModel
  import Text

  datatype SaveResult = SaveResult(logID: int, counts: Counts)

  lemma DeleteIsHarmless(t: Tables, seqs: Sequences, sv: Save)
    requires DBInv(t, seqs) && sv == Begin(sv.logID, sv.parsed) && IsProcessing(t.logs, sv.logID)
    ensures Working(t, seqs, sv.(cleared := true, dropped := NodeIDs(t, sv.logID)))
  {
    BeginSaves(seqs, sv.logID, sv.parsed);
    ClearStep(t, seqs, sv);
  }

  class Store {
    var tables: Tables
    var seqs: Sequences

    ghost predicate Valid()
      reads this
    {
      DBInv(tables, seqs)
    }

    constructor ()
      ensures Valid() && tables == EMPTY && seqs == UNDRAWN
    {
      tables, seqs := EMPTY, UNDRAWN;
    }

    method CreateLog(path: string) returns (id: int)
      requires Valid()
      modifies this
      ensures Valid() && id > 0 && id !in old(tables).logs
      ensures tables == old(tables).(logs := old(tables).logs[id := FreshLog(path)])
      ensures tables.logs[id].filePath == path && tables.logs[id].status == Processing
      ensures tables.logs[id].nodesCount == tables.logs[id].portsCount == 0 && tables.logs[id].errorText == ""
    {
      assert forall k | k in tables.logs :: LogOK(tables, seqs, k);
      ghost var before := tables;
      ghost var drawn := seqs;
      seqs := seqs.(logs := seqs.logs + 1);
      id := seqs.logs;
      tables := tables.(logs := tables.logs[id := FreshLog(path)]);
      LogChangeKeepsOrder(before, drawn, tables.logs, seqs);
    }

    /**
     Saves exactly the logs that fit the schema, onto logs that are processing; otherwise nothing changes.
     */
    method SaveParsedLog(logID: int, parsed: ParsedLog) returns (r: Result<SaveResult, Error>)
      requires Valid()
      modifies this
      ensures Valid()
      ensures r == Err(NotFound) <==> logID !in old(tables).logs
      ensures r.Err? && r.error.InvalidStatus? <==> IsTerminal(old(tables).logs, logID)
      ensures IsTerminal(old(tables).logs, logID) ==> r == Err(InvalidStatus(old(tables).logs[logID].status))
      ensures r.Ok? <==> IsProcessing(old(tables).logs, logID) && Savable(parsed)
      ensures r.Err? && IsProcessing(old(tables).logs, logID) ==> FirstFlaw(parsed) == Some(r.error)
      ensures r.Ok? ==> r.value == SaveResult(logID, CountsOf(parsed))
      ensures r.Ok? ==> Stored(tables, logID, parsed)
      ensures r.Ok? ==> tables.logs == old(tables).logs[logID := Finished(old(tables).logs[logID], parsed)]
      ensures r.Ok? ==>
        tables.logs[logID].filePath == old(tables).logs[logID].filePath && tables.logs[logID].errorText == ""
      ensures r.Ok? ==> forall id | id != logID :: Contents(tables, id) == Contents(old(tables), id)
      ensures r.Err? ==> tables == old(tables)
    {
      if logID !in tables.logs {
        return Err(NotFound);
      }
      if tables.logs[logID].status != Processing {
        return Err(InvalidStatus(tables.logs[logID].status));
      }
      var failed := WriteLog(logID, parsed);
      if failed.Some? {
        return Err(failed.value);
      }
      r := Ok(SaveResult(logID, Counts(Int32(|parsed.nodes|), Int32(|parsed.ports|))));
    }

    /** The transaction on a locked, processing log: delete, inserts, update, commit. */
    method WriteLog(logID: int, parsed: ParsedLog) returns (failed: Option<Error>)
      requires Valid() && IsProcessing(tables.logs, logID)
      modifies this
      ensures Valid()
      ensures failed == FirstFlaw(parsed)
      ensures failed.None? <==> Savable(parsed)
      ensures failed.Some? ==> failed.value in {EmptyGUID, UnknownReference, Constraint} && tables == old(tables)
      ensures failed.None? ==> Stored(tables, logID, parsed)
      ensures failed.None? ==> tables.logs == old(tables).logs[logID := Finished(old(tables).logs[logID], parsed)]
      ensures failed.None? ==> forall id | id != logID :: Contents(tables, id) == Contents(old(tables), id)
    {
      var sv := Begin(logID, parsed);
      DeleteIsHarmless(tables, seqs, sv);
      sv := sv.(cleared := true, dropped := NodeIDs(tables, logID));
      sv, failed := InsertNodes(sv);
      if failed.Some? {
        return;
      }
      sv, failed := InsertInfos(sv);
      if failed.Some? {
        return;
      }
      sv, failed := InsertPorts(sv);
      if failed.Some? {
        return;
      }
      SavableIffFlawless(parsed);
      CommitEvolves(tables, seqs, sv);
      CommitSavesExactly(tables, seqs, sv);
      CommitSave(sv);
    }

    method CommitSave(sv: Save)
      requires Working(tables, seqs, sv) && IsComplete(sv)
      modifies this`tables
      ensures Valid() && tables == Commit(old(tables), sv)
    {
      CommitKeepsOrder(tables, seqs, sv);
      tables := Commit(tables, sv);
    }

    /** The transaction is in order. */
    ghost predicate InTransaction(sv: Save, logID: int, parsed: ParsedLog)
      reads this
    {
      Working(tables, seqs, sv) && sv.logID == logID && sv.parsed == parsed && sv.cleared && !sv.updated
    }

    method InsertNodes(sv0: Save) returns (sv: Save, failed: Option<Error>)
      requires Working(tables, seqs, sv0) && sv0.cleared && !sv0.updated && sv0.nodes == []
      modifies this`seqs
      ensures failed.None? ==> InTransaction(sv, sv0.logID, sv0.parsed)
      ensures failed.None? ==> |sv.nodes| == |sv.parsed.nodes| && sv.infos == sv0.infos && sv.ports == sv0.ports
      ensures failed.Some? ==> failed.value in {EmptyGUID, Constraint} && !Savable(sv0.parsed) && DBInv(tables, seqs)
      ensures failed.Some? ==> failed == FirstFlaw(sv0.parsed)
    {
      sv, failed := sv0, None;
      for i := 0 to |sv0.parsed.nodes|
        invariant InTransaction(sv, sv0.logID, sv0.parsed)
        invariant |sv.nodes| == i && sv.infos == sv0.infos && sv.ports == sv0.ports
      {
        var node := sv.parsed.nodes[i];
        NodeStep(tables, seqs, sv);
        if node.nodeGUID == "" {
          failed := Some(EmptyGUID);
          return;
        }
        ghost var drawn := seqs;
        seqs := DrawNode(seqs, sv.logID);
        DBInvGrows(tables, drawn, seqs);
        var row := NodeRow(|seqs.nodes|, sv.logID, node);
        if !NodeAllowed(View(tables, sv), row) {
          failed := Some(Constraint);
          return;
        }
        sv := WithNode(sv, row);
      }
    }

    method InsertInfos(sv0: Save) returns (sv: Save, failed: Option<Error>)
      requires Working(tables, seqs, sv0) && sv0.cleared
      requires !sv0.updated && |sv0.nodes| == |sv0.parsed.nodes| && sv0.infos == []
      modifies this`seqs
      ensures failed.None? ==> InTransaction(sv, sv0.logID, sv0.parsed)
      ensures failed.None? ==> |sv.infos| == |sv.parsed.infos| && sv.nodes == sv0.nodes && sv.ports == sv0.ports
      ensures failed.Some? ==>
        failed.value in {EmptyGUID, UnknownReference, Constraint} && !Savable(sv0.parsed) && DBInv(tables, seqs)
      ensures failed.Some? ==> failed == FirstFlaw(sv0.parsed)
    {
      sv, failed := sv0, None;
      for i := 0 to |sv0.parsed.infos|
        invariant InTransaction(sv, sv0.logID, sv0.parsed)
        invariant |sv.infos| == i && sv.nodes == sv0.nodes && sv.ports == sv0.ports
      {
        var info := sv.parsed.infos[i];
        InfoStep(tables, seqs, sv);
        if info.nodeGUID == "" {
          failed := Some(EmptyGUID);
          return;
        }
        if info.nodeGUID !in sv.nodeIDs {
          failed := Some(UnknownReference);
          return;
        }
        ghost var drawn := seqs;
        seqs := DrawInfo(seqs);
        DBInvGrows(tables, drawn, seqs);
        var row := InfoRow(seqs.infos, sv.nodeIDs[info.nodeGUID], info);
        if !InfoAllowed(View(tables, sv), row) {
          failed := Some(Constraint);
          return;
        }
        sv := WithInfo(sv, row);
      }
    }

    method InsertPorts(sv0: Save) returns (sv: Save, failed: Option<Error>)
      requires Working(tables, seqs, sv0) && sv0.cleared && !sv0.updated && sv0.ports == []
      requires |sv0.nodes| == |sv0.parsed.nodes| && |sv0.infos| == |sv0.parsed.infos|
      modifies this`seqs
      ensures failed.None? ==> InTransaction(sv, sv0.logID, sv0.parsed)
      ensures failed.None? ==> IsComplete(sv)
      ensures failed.Some? ==>
        failed.value in {EmptyGUID, UnknownReference, Constraint} && !Savable(sv0.parsed) && DBInv(tables, seqs)
      ensures failed.Some? ==> failed == FirstFlaw(sv0.parsed)
    {
      sv, failed := sv0, None;
      for i := 0 to |sv0.parsed.ports|
        invariant InTransaction(sv, sv0.logID, sv0.parsed)
        invariant |sv.ports| == i && sv.nodes == sv0.nodes && sv.infos == sv0.infos
      {
        var port := sv.parsed.ports[i];
        PortStep(tables, seqs, sv);
        if port.nodeGUID == "" {
          failed := Some(EmptyGUID);
          return;
        }
        if port.nodeGUID !in sv.nodeIDs {
          failed := Some(UnknownReference);
          return;
        }
        ghost var drawn := seqs;
        seqs := DrawPort(seqs, sv.logID);
        DBInvGrows(tables, drawn, seqs);
        var row := PortRow(|seqs.ports|, sv.logID, sv.nodeIDs[port.nodeGUID], port);
        if !PortAllowed(View(tables, sv), row) {
          failed := Some(Constraint);
          return;
        }
        sv := WithPort(sv, row);
      }
    }

    method FailLog(logID: int, text: string) returns (r: Result<int, Error>)
      requires Valid()
      modifies this`tables
      ensures Valid()
      ensures r.Ok? <==> IsProcessing(old(tables).logs, logID)
      ensures r.Ok? ==>
        var row := old(tables).logs[logID].(status := Failed, errorText := text);
        tables == old(tables).(logs := old(tables).logs[logID := row])
      ensures r.Err? ==> tables == old(tables)
      ensures r == Err(NotFound) <==> logID !in old(tables).logs
      ensures IsTerminal(old(tables).logs, logID) ==> r == Err(InvalidStatus(old(tables).logs[logID].status))
    {
      if logID in tables.logs && tables.logs[logID].status == Processing {
        ghost var before := tables;
        assert LogOK(tables, seqs, logID);
        assert forall k | k in tables.logs :: LogOK(tables, seqs, k);
        tables := tables.(logs := tables.logs[logID := tables.logs[logID].(status := Failed, errorText := text)]);
        LogChangeKeepsOrder(before, seqs, tables.logs, seqs);
        return Ok(logID);
      }
      if logID !in tables.logs {
        return Err(NotFound);
      }
      r := Err(InvalidStatus(tables.logs[logID].status));
    }

    static method ViewPorts(rows: seq<PortRow>) returns (ports: seq<TM.Port>)
      ensures |ports| == |rows| && forall i | 0 <= i < |rows| :: ports[i] == PortView(rows[i])
    {
      ports := [];
      for i := 0 to |rows|
        invariant |ports| == i && forall j | 0 <= j < i :: ports[j] == PortView(rows[j])
      {
        ports := ports + [PortView(rows[i])];
      }
    }

    /** A parsed log comes back with as many nodes and ports as were saved, fit for the topology service. */
    method GetTopologyData(logID: int) returns (r: Result<LogData, Error>)
      requires Valid()
      ensures r.Err? <==> logID !in tables.logs
      ensures r.Err? ==> r.error == NotFound
      ensures r.Ok? ==> ReadLog(tables, logID) == Some(r.value)
      ensures r.Ok? ==> AgreesWithCounts(r.value) && FitForTopology(r.value)
    {
      if logID !in tables.logs {
        return Err(NotFound);
      }
      var nodes := SelectNodes(tables, logID);
      var ports := ViewPorts(SortedPortRows(tables, logID));
      assert ports == SelectPorts(tables, logID);
      SnapshotAgreesWithCounts(tables, seqs, logID);
      SnapshotFitsTopology(tables, seqs, logID);
      r := Ok(LogData(tables.logs[logID], nodes, ports));
    }
  }

  datatype ParseLogResult = ParseLogResult(logID: int, counts: Counts, infosCount: int)

  datatype ParseLogError = BadArguments | ParserError(text: string) | SaveError(error: Error)

  /** The service; `outcome` is what the parser makes of the file, `describe` the text of a repository error. */
  class Service {
    const repository: Store
    const describe: Error -> string

    constructor (repository: Store, describe: Error -> string)
      ensures this.repository == repository && this.describe == describe
    {
      this.repository, this.describe := repository, describe;
    }

    function FailedTables(t: Tables, logID: int, text: string): Tables {
      if logID > 0 && IsProcessing(t.logs, logID)
      then t.(logs := t.logs[logID := t.logs[logID].(status := Failed, errorText := text)])
      else t
    }

    method FailLog(logID: int, cause: string)
      requires repository.Valid()
      modifies repository
      ensures repository.Valid()
      ensures repository.tables == FailedTables(old(repository.tables), logID, cause)
    {
      if logID <= 0 {
        return;
      }
      var _ := repository.FailLog(logID, cause);
    }

    /**
     Left to itself, `ParseLog` brings a new log to a terminal status: parsed with exactly the parser's log if that
     fits the schema, failed otherwise. It touches no other log.
     */
    method ParseLog(path: string, outcome: Result<ParsedLog, string>)
      returns (r: Result<ParseLogResult, ParseLogError>, ghost id: int)
      requires repository.Valid()
      modifies repository
      ensures repository.Valid()
      ensures r == Err(BadArguments) <==> Text.TrimSpace(path) == ""
      ensures r == Err(BadArguments) ==> repository.tables == old(repository.tables)
      ensures r.Ok? <==> Text.TrimSpace(path) != "" && outcome.Ok? && Savable(outcome.value)
      ensures Text.TrimSpace(path) != "" && outcome.Err? ==> r == Err(ParserError(outcome.error))
      ensures Text.TrimSpace(path) != "" && outcome.Ok? && FirstFlaw(outcome.value).Some? ==>
        r == Err(SaveError(FirstFlaw(outcome.value).value))
      ensures r.Ok? ==>
        && r.value == ParseLogResult(id, CountsOf(outcome.value), Int32(|outcome.value.infos|))
        && Stored(repository.tables, id, outcome.value)
      ensures Text.TrimSpace(path) != "" ==>
        && id !in old(repository.tables).logs && IsTerminal(repository.tables.logs, id)
        && repository.tables.logs[id].filePath == Text.TrimSpace(path)
        && repository.tables.logs[id].errorText ==
           (match r
            case Err(ParserError(text)) => text
            case Err(SaveError(e)) => describe(e)
            case _ => "")
        && (repository.tables.logs[id].status.Parsed? <==> r.Ok?)
        && repository.tables.logs.Keys == old(repository.tables).logs.Keys + {id}
        && (forall k | k in old(repository.tables).logs :: repository.tables.logs[k] == old(repository.tables).logs[k])
        && (forall k | k != id :: Contents(repository.tables, k) == Contents(old(repository.tables), k))
    {
      var trimmed := Text.TrimSpace(path);
      id := 0;
      if trimmed == "" {
        return Err(BadArguments), 0;
      }
      ghost var before := repository.tables;
      var logID := repository.CreateLog(trimmed);
      id := logID;
      forall k ensures Contents(repository.tables, k) == Contents(before, k) {
        LogChangeKeepsContents(before, repository.tables.logs, k);
      }
      if outcome.Err? {
        FailFreshLog(logID, outcome.error, before);
        return Err(ParserError(outcome.error)), logID;
      }
      SavableIffFlawless(outcome.value);
      var saved := repository.SaveParsedLog(logID, outcome.value);
      if saved.Err? {
        FailFreshLog(logID, describe(saved.error), before);
        return Err(SaveError(saved.error)), logID;
      }
      r := Ok(ParseLogResult(saved.value.logID, saved.value.counts, Int32(|outcome.value.infos|)));
    }

    method FailFreshLog(logID: int, cause: string, ghost before: Tables)
      requires repository.Valid()
      requires logID > 0 && logID !in before.logs && IsProcessing(repository.tables.logs, logID)
      requires repository.tables.logs.Keys == before.logs.Keys + {logID}
      requires forall k | k in before.logs :: repository.tables.logs[k] == before.logs[k]
      requires forall k :: Contents(repository.tables, k) == Contents(before, k)
      modifies repository
      ensures repository.Valid()
      ensures logID in repository.tables.logs && repository.tables.logs[logID].status.Failed?
      ensures repository.tables.logs[logID].filePath == old(repository.tables).logs[logID].filePath
      ensures repository.tables.logs[logID].errorText == cause
      ensures repository.tables.logs.Keys == before.logs.Keys + {logID}
      ensures forall k | k in before.logs :: repository.tables.logs[k] == before.logs[k]
      ensures forall k :: Contents(repository.tables, k) == Contents(before, k)
    {
      ghost var now := repository.tables;
      FailLog(logID, cause);
      forall k ensures Contents(repository.tables, k) == Contents(before, k) {
        LogChangeKeepsContents(now, repository.tables.logs, k);
      }
    }
  }
}
