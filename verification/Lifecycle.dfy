/**
 The log lifecycle under concurrency. Calls reach the repository in any order and advance one database step at a
 time. Assumed of the database: a row locked with FOR UPDATE keeps other writers and lockers of that row waiting;
 an UPDATE that waited for a row checks its condition again before changing it; a repeatable-read transaction
 sees one committed snapshot; constraints are checked per statement; rollback discards the transaction's writes.
 */
module Lifecycle {
  import opened Domain
  import opened Tables
  import opened SaveProgram
  import opened Snapshots

  /** A call to the repository, from request to reply. `effective` records whether it changed the log's status. */
  datatype Call =
    | CreateReq(path: string)
    | CreateDone(created: Option<int>, id: Result<int, Error>)
    | SaveReq(logID: int, parsed: ParsedLog)
    | Saving(save: Save)
    | SaveDone(logID: int, parsed: ParsedLog, effective: bool, counts: Result<Counts, Error>)
    | FailReq(logID: int, text: string)
    | FailWaiting(logID: int, text: string)
    | FailMissed(logID: int, existed: bool)
    | FailDone(logID: int, effective: bool, failed: Result<int, Error>)
    | TopoReq(logID: int)
    | TopoReading(logID: int, snapshot: Tables)
    | TopoDone(logID: int, data: Result<LogData, Error>)

  datatype State = State(db: Tables, seqs: Sequences, calls: seq<Call>)

  const INITIAL := State(EMPTY, UNDRAWN, [])

  /** `acknowledged` is false when the statement took effect but its caller is told of an error. */
  datatype Action =
    | Issue(call: Call)
    | Lose(c: nat)
    | Create(c: nat, acknowledged: bool)
    | Lock(c: nat)
    | Statement(c: nat)
    | Abort(c: nat)
    | CommitSave(c: nat, acknowledged: bool)
    | Scan(c: nat)
    | Update(c: nat, acknowledged: bool)
    | Look(c: nat)
    | BreakOff(c: nat)
    | Snapshot(c: nat)
    | Read(c: nat)

  predicate IsRequest(call: Call) {
    call.CreateReq? || call.SaveReq? || call.FailReq? || call.TopoReq?
  }

  predicate IsDone(call: Call) {
    call.CreateDone? || call.SaveDone? || call.FailDone? || call.TopoDone?
  }

  /** No transaction holds the row lock of the log. */
  predicate LockFree(calls: seq<Call>, logID: int) {
    forall i | 0 <= i < |calls| :: !(calls[i].Saving? && calls[i].save.logID == logID)
  }

  predicate Enabled(s: State, a: Action) {
    if a.Issue? then IsRequest(a.call)
    else a.c < |s.calls| && EnabledFor(s, a, s.calls[a.c])
  }

  predicate EnabledFor(s: State, a: Action, call: Call) {
    match a
    case Issue(_) => false
    case Lose(_) => IsRequest(call)
    case Create(_, _) => call.CreateReq?
    case Lock(_) => call.SaveReq? && LockFree(s.calls, call.logID)
    case Statement(_) => call.Saving? && !Advance(s.db, s.seqs, call.save).Ready?
    case Abort(_) => call.Saving?
    case CommitSave(_, _) => call.Saving? && Advance(s.db, s.seqs, call.save).Ready? && call.save.logID in s.db.logs
    case Scan(_) => call.FailReq?
    case Update(_, _) => call.FailWaiting? && LockFree(s.calls, call.logID)
    case Look(_) => call.FailMissed?
    case BreakOff(_) => call.FailWaiting? || call.FailMissed? || call.TopoReading?
    case Snapshot(_) => call.TopoReq?
    case Read(_) => call.TopoReading?
  }

  /** The reply to a call that got nowhere. */
  function GivenUp(call: Call): Call {
    match call
    case CreateReq(_) => CreateDone(None, Err(Unavailable))
    case SaveReq(id, parsed) => SaveDone(id, parsed, false, Err(Unavailable))
    case Saving(sv) => SaveDone(sv.logID, sv.parsed, false, Err(Unavailable))
    case FailReq(id, _) => FailDone(id, false, Err(Unavailable))
    case FailWaiting(id, _) => FailDone(id, false, Err(Unavailable))
    case FailMissed(id, _) => FailDone(id, false, Err(Unavailable))
    case TopoReq(id) => TopoDone(id, Err(Unavailable))
    case TopoReading(id, _) => TopoDone(id, Err(Unavailable))
    case _ => call
  }

  function BrokenRow(row: LogRow, text: string): LogRow {
    row.(status := Failed, errorText := text)
  }

  ghost function Do(s: State, a: Action): State
    requires Enabled(s, a)
  {
    if a.Issue? then s.(calls := s.calls + [a.call])
    else
      var (db, seqs, call) := Effect(s, a, s.calls[a.c]);
      State(db, seqs, s.calls[a.c := call])
  }

  /** Tables, sequences and the call after the step. */
  ghost function Effect(s: State, a: Action, call: Call): (Tables, Sequences, Call)
    requires EnabledFor(s, a, call)
  {
    match a
    case Lose(_) => (s.db, s.seqs, GivenUp(call))
    case Abort(_) => (s.db, s.seqs, GivenUp(call))
    case BreakOff(_) => (s.db, s.seqs, GivenUp(call))
    case Create(_, acknowledged) =>
      var id := s.seqs.logs + 1;
      (s.db.(logs := s.db.logs[id := FreshLog(call.path)]), s.seqs.(logs := id),
       CreateDone(Some(id), if acknowledged then Ok(id) else Err(Unavailable)))
    case Lock(_) =>
      (s.db, s.seqs,
       if call.logID !in s.db.logs then SaveDone(call.logID, call.parsed, false, Err(NotFound))
       else if !s.db.logs[call.logID].status.Processing? then
         SaveDone(call.logID, call.parsed, false, Err(InvalidStatus(s.db.logs[call.logID].status)))
       else Saving(Begin(call.logID, call.parsed)))
    case Statement(_) =>
      (match Advance(s.db, s.seqs, call.save)
       case Next(sv, seqs) => (s.db, seqs, Saving(sv))
       case Stop(e, seqs) => (s.db, seqs, SaveDone(call.save.logID, call.save.parsed, false, Err(e))))
    case CommitSave(_, acknowledged) =>
      (Commit(s.db, call.save), s.seqs,
       SaveDone(call.save.logID, call.save.parsed, true,
                if acknowledged then Ok(CountsOf(call.save.parsed)) else Err(Unavailable)))
    case Scan(_) =>
      (s.db, s.seqs,
       if IsProcessing(s.db.logs, call.logID) then FailWaiting(call.logID, call.text)
       else FailMissed(call.logID, call.logID in s.db.logs))
    case Update(_, acknowledged) =>
      if IsProcessing(s.db.logs, call.logID) then
        (s.db.(logs := s.db.logs[call.logID := BrokenRow(s.db.logs[call.logID], call.text)]), s.seqs,
         FailDone(call.logID, true, if acknowledged then Ok(call.logID) else Err(Unavailable)))
      else (s.db, s.seqs, FailMissed(call.logID, call.logID in s.db.logs))
    case Look(_) =>
      (s.db, s.seqs,
       FailDone(call.logID, false,
                if call.logID in s.db.logs then Err(InvalidStatus(s.db.logs[call.logID].status)) else Err(NotFound)))
    case Snapshot(_) => (s.db, s.seqs, TopoReading(call.logID, s.db))
    case Read(_) =>
      (s.db, s.seqs,
       match ReadLog(call.snapshot, call.logID)
       case None => TopoDone(call.logID, Err(NotFound))
       case Some(data) => TopoDone(call.logID, Ok(data)))
  }

  // ---- Runs ----

  ghost predicate IsRun(states: seq<State>, actions: seq<Action>) {
    && |states| == |actions| + 1
    && states[0] == INITIAL
    && forall i | 0 <= i < |actions| :: Enabled(states[i], actions[i]) && states[i + 1] == Do(states[i], actions[i])
  }
}
