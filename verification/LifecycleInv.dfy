/** The invariant of the lifecycle, kept by every step. */
module LifecycleInv {
  import opened Domain
  import opened Tables
  import opened SaveProgram
  import opened Flaws
  import opened ReadBack
  import opened Snapshots
  import opened Lifecycle

  // ---- Claims: what at most one call can have ----

  /** The row lock of a log, the creation of a log, the one effective save or fail of a log. */
  datatype Claim = Locks(logID: int) | Creates(logID: int) | Finishes(logID: int)

  function ClaimOf(call: Call): Option<Claim> {
    match call
    case Saving(sv) => Some(Locks(sv.logID))
    case CreateDone(Some(id), _) => Some(Creates(id))
    case SaveDone(id, _, true, _) => Some(Finishes(id))
    case FailDone(id, true, _) => Some(Finishes(id))
    case _ => None
  }

  predicate Unclaimed(calls: seq<Call>, claim: Option<Claim>) {
    claim.Some? ==> forall i | 0 <= i < |calls| :: ClaimOf(calls[i]) != claim
  }

  ghost predicate NoSharedClaims(calls: seq<Call>) {
    forall i, j | 0 <= i < j < |calls| && ClaimOf(calls[i]).Some? :: ClaimOf(calls[i]) != ClaimOf(calls[j])
  }

  predicate Claimed(calls: seq<Call>, claim: Claim) {
    exists i :: 0 <= i < |calls| && ClaimOf(calls[i]) == Some(claim)
  }

  // ---- How tables evolve ----

  predicate IsTerminal(logs: map<int, LogRow>, logID: int) {
    logID in logs && !logs[logID].status.Processing?
  }

  /** Logs stay, and terminal logs stay as they are. */
  ghost predicate Evolves(t: Tables, t': Tables) {
    && (forall id | id in t.logs :: id in t'.logs)
    && (forall id | IsTerminal(t.logs, id) :: t'.logs[id] == t.logs[id] && Contents(t', id) == Contents(t, id))
  }

  // ---- One call against the tables ----

  ghost predicate Faithful(data: LogData) {
    AgreesWithCounts(data) && FitForTopology(data)
  }

  /** What was read of a terminal log is that log as it still is. */
  ghost predicate ReportsLog(t: Tables, logID: int, data: LogData) {
    !data.log.status.Processing? ==>
      IsTerminal(t.logs, logID) && data.log == t.logs[logID] && ShowsLog(data, logID, Contents(t, logID))
  }

  /** A terminal status in an error message is the status of the log. */
  predicate ReportIsTrue(logs: map<int, LogRow>, logID: int, error: Error) {
    error.InvalidStatus? && !error.status.Processing? ==> logID in logs && logs[logID].status == error.status
  }

  ghost predicate CallOK(t: Tables, seqs: Sequences, call: Call) {
    match call
    case CreateDone(created, id) =>
      (created.Some? ==> created.value in t.logs) && (id.Ok? ==> created == Some(id.value))
    case Saving(sv) => SaveInv(seqs, sv) && IsProcessing(t.logs, sv.logID)
    case SaveDone(id, parsed, effective, counts) =>
      && (effective ==> Stored(t, id, parsed))
      && (counts.Ok? ==> effective && counts.value == CountsOf(parsed))
      && (counts.Err? && counts.error in {EmptyGUID, UnknownReference, Constraint} ==>
        !Savable(parsed) && FirstFlaw(parsed) == Some(counts.error))
      && (counts.Err? ==> ReportIsTrue(t.logs, id, counts.error))
    case FailWaiting(id, _) => id in t.logs
    case FailMissed(id, existed) => existed ==> IsTerminal(t.logs, id)
    case FailDone(id, effective, failed) =>
      && (effective ==> id in t.logs && t.logs[id].status.Failed?)
      && (failed.Ok? ==> effective)
      && (failed.Err? ==> ReportIsTrue(t.logs, id, failed.error))
    case TopoReading(_, snapshot) => DBInv(snapshot, seqs) && Evolves(snapshot, t)
    case TopoDone(id, data) => data.Ok? ==> Faithful(data.value) && ReportsLog(t, id, data.value)
    case _ => true
  }

  /** Every log has the call that created it, and every terminal log the call that finished it. */
  ghost predicate Explained(logs: map<int, LogRow>, calls: seq<Call>) {
    && (forall id | id in logs :: Claimed(calls, Creates(id)))
    && (forall id | IsTerminal(logs, id) :: Claimed(calls, Finishes(id)))
  }

  ghost predicate CallsOK(t: Tables, seqs: Sequences, calls: seq<Call>) {
    forall i | 0 <= i < |calls| :: CallOK(t, seqs, calls[i])
  }

  ghost predicate Inv(s: State) {
    && DBInv(s.db, s.seqs)
    && CallsOK(s.db, s.seqs, s.calls)
    && NoSharedClaims(s.calls)
    && Explained(s.db.logs, s.calls)
  }

  lemma LogStays(t: Tables, t': Tables, logID: int)
    requires logID in t.logs && Evolves(t, t')
    ensures logID in t'.logs
  {
  }

  lemma TerminalStays(t: Tables, t': Tables, logID: int)
    requires IsTerminal(t.logs, logID) && Evolves(t, t')
    ensures logID in t'.logs && t'.logs[logID] == t.logs[logID]
  {
    assert Contents(t', logID) == Contents(t, logID);
  }

  lemma EvolvesTransitively(t: Tables, u: Tables, v: Tables)
    requires Evolves(t, u) && Evolves(u, v)
    ensures Evolves(t, v)
  {
    forall id | id in t.logs ensures id in v.logs {
      LogStays(t, u, id);
    }
    forall id | IsTerminal(t.logs, id) ensures v.logs[id] == t.logs[id] && Contents(v, id) == Contents(t, id) {
      TerminalStays(t, u, id);
      TerminalStays(u, v, id);
      assert Contents(u, id) == Contents(t, id);
    }
  }

  lemma StillTheSame(t: Tables)
    ensures Evolves(t, t)
  {
  }

  lemma ReportsStay(t: Tables, t': Tables, logID: int)
    requires Evolves(t, t')
    ensures IsTerminal(t.logs, logID) ==>
      logID in t'.logs && t'.logs[logID] == t.logs[logID] && Contents(t', logID) == Contents(t, logID)
  {
    if IsTerminal(t.logs, logID) {
      TerminalStays(t, t', logID);
    }
  }

  lemma StoredStays(t: Tables, t': Tables, logID: int, parsed: ParsedLog)
    requires Stored(t, logID, parsed) && Evolves(t, t')
    ensures Stored(t', logID, parsed)
  {
    assert IsTerminal(t.logs, logID);
  }

  lemma CallStays(t: Tables, seqs: Sequences, t': Tables, seqs': Sequences, call: Call)
    requires CallOK(t, seqs, call) && Evolves(t, t') && Grown(seqs, seqs')
    requires call.Saving? ==> IsProcessing(t'.logs, call.save.logID)
    ensures CallOK(t', seqs', call)
  {
    match call {
      case Saving(sv) => SaveInvGrows(seqs, seqs', sv);
      case TopoReading(_, snapshot) =>
        DBInvGrows(snapshot, seqs, seqs');
        EvolvesTransitively(snapshot, t, t');
      case SaveDone(id, parsed, effective, _) =>
        if effective {
          StoredStays(t, t', id, parsed);
        }
        ReportsStay(t, t', id);
      case FailDone(id, effective, _) =>
        ReportsStay(t, t', id);
      case FailMissed(id, existed) =>
        if existed {
          TerminalStays(t, t', id);
        }
      case CreateDone(created, id) =>
        if created.Some? {
          LogStays(t, t', created.value);
        }
      case FailWaiting(id, _) => assert id in t'.logs;
      case TopoDone(id, _) => ReportsStay(t, t', id);
      case CreateReq(_) =>
      case SaveReq(_, _) =>
      case FailReq(_, _) =>
      case TopoReq(_) =>
    }
  }

  /** A step rewrites one call; whatever else holds a lock must keep its log in processing. */
  ghost predicate OthersKeepLogs(calls: seq<Call>, c: nat, logs: map<int, LogRow>) {
    forall i | 0 <= i < |calls| && i != c && calls[i].Saving? :: IsProcessing(logs, calls[i].save.logID)
  }

  lemma CallsStay(s: State, c: nat, call: Call, t': Tables, seqs': Sequences)
    requires CallsOK(s.db, s.seqs, s.calls) && c < |s.calls|
    requires Evolves(s.db, t') && Grown(s.seqs, seqs') && OthersKeepLogs(s.calls, c, t'.logs)
    requires CallOK(t', seqs', call)
    ensures CallsOK(t', seqs', s.calls[c := call])
  {
    var calls' := s.calls[c := call];
    forall i | 0 <= i < |calls'| ensures CallOK(t', seqs', calls'[i]) {
      if i != c {
        CallStays(s.db, s.seqs, t', seqs', s.calls[i]);
      }
    }
  }

  /** A rewritten call may keep its claim, give it up, or take one that nobody has. */
  predicate ClaimMoves(calls: seq<Call>, c: nat, call: Call)
    requires c < |calls|
  {
    ClaimOf(call).None? || ClaimOf(call) == ClaimOf(calls[c]) || Unclaimed(calls, ClaimOf(call))
  }

  lemma ClaimsStay(calls: seq<Call>, c: nat, call: Call)
    requires NoSharedClaims(calls) && c < |calls| && ClaimMoves(calls, c, call)
    ensures NoSharedClaims(calls[c := call])
  {
  }

  lemma ClaimedStays(calls: seq<Call>, c: nat, call: Call, claim: Claim)
    requires c < |calls| && (ClaimOf(calls[c]) == Some(claim) ==> ClaimOf(call) == Some(claim))
    requires Claimed(calls, claim)
    ensures Claimed(calls[c := call], claim)
  {
    var i :| 0 <= i < |calls| && ClaimOf(calls[i]) == Some(claim);
    assert ClaimOf(calls[c := call][i]) == Some(claim);
  }

  /** The step explains whatever it newly creates or finishes. */
  ghost predicate Explains(logs: map<int, LogRow>, logs': map<int, LogRow>, call: Call) {
    && (forall id | id in logs' && id !in logs :: ClaimOf(call) == Some(Creates(id)))
    && (forall id | IsTerminal(logs', id) && !IsTerminal(logs, id) :: ClaimOf(call) == Some(Finishes(id)))
  }

  lemma ExplainedStays(calls: seq<Call>, c: nat, call: Call, logs: map<int, LogRow>, logs': map<int, LogRow>)
    requires c < |calls| && !IsDone(calls[c])
    requires Explained(logs, calls) && Explains(logs, logs', call)
    ensures Explained(logs', calls[c := call])
  {
    var calls' := calls[c := call];
    assert calls'[c] == call;
    forall id | id in logs' ensures Claimed(calls', Creates(id)) {
      if id in logs {
        ClaimedStays(calls, c, call, Creates(id));
      }
    }
    forall id | IsTerminal(logs', id) ensures Claimed(calls', Finishes(id)) {
      if IsTerminal(logs, id) {
        ClaimedStays(calls, c, call, Finishes(id));
      }
    }
  }

  /** What a step has to show for the invariant to be kept. */
  lemma StepKeepsInv(s: State, c: nat, call: Call, t': Tables, seqs': Sequences)
    requires Inv(s) && c < |s.calls| && !IsDone(s.calls[c])
    requires DBInv(t', seqs') && CallOK(t', seqs', call)
    requires Evolves(s.db, t') && Grown(s.seqs, seqs') && OthersKeepLogs(s.calls, c, t'.logs)
    requires ClaimMoves(s.calls, c, call) && Explains(s.db.logs, t'.logs, call)
    ensures Inv(State(t', seqs', s.calls[c := call]))
  {
    CallsStay(s, c, call, t', seqs');
    ClaimsStay(s.calls, c, call);
    ExplainedStays(s.calls, c, call, s.db.logs, t'.logs);
  }

  /** The frequent case: the tables do not change. */
  lemma QuietStepKeepsInv(s: State, c: nat, call: Call, seqs': Sequences)
    requires Inv(s) && c < |s.calls| && !IsDone(s.calls[c])
    requires Grown(s.seqs, seqs') && CallOK(s.db, seqs', call) && ClaimMoves(s.calls, c, call)
    ensures Inv(State(s.db, seqs', s.calls[c := call]))
  {
    DBInvGrows(s.db, s.seqs, seqs');
    forall i | 0 <= i < |s.calls| && i != c && s.calls[i].Saving?
      ensures IsProcessing(s.db.logs, s.calls[i].save.logID)
    {
      assert CallOK(s.db, s.seqs, s.calls[i]);
    }
    StepKeepsInv(s, c, call, s.db, seqs');
  }

  // ---- Changing only log rows ----

  /** Some log rows change or are added, none of them parsed before or after. */
  ghost predicate OnlyOpenLogsChange(logs: map<int, LogRow>, logs': map<int, LogRow>, bound: nat) {
    && (forall id | IsParsed(logs, id) :: id in logs' && logs'[id] == logs[id])
    && (forall id | IsParsed(logs', id) :: IsParsed(logs, id))
    && (forall id | id in logs' :: 1 <= id <= bound)
  }

  lemma LogChangeKeepsOrder(t: Tables, seqs: Sequences, logs': map<int, LogRow>, seqs': Sequences)
    requires DBInv(t, seqs) && Grown(seqs, seqs') && OnlyOpenLogsChange(t.logs, logs', seqs'.logs)
    ensures DBInv(t.(logs := logs'), seqs')
  {
    var t' := t.(logs := logs');
    DBInvGrows(t, seqs, seqs');
    forall id | id in logs' ensures LogOK(t', seqs', id) {
      assert IsParsed(logs', id) ==> LogOK(t, seqs', id);
    }
    forall r | r in t.nodes ensures NodeOK(logs', seqs', r) {
      assert NodeOK(t.logs, seqs', r);
    }
    forall r | r in t.ports ensures PortOK(t', seqs', r) {
      assert PortOK(t, seqs', r);
    }
  }

  lemma LogChangeKeepsContents(t: Tables, logs': map<int, LogRow>, id: int)
    ensures Contents(t.(logs := logs'), id) == Contents(t, id)
  {
    assert NodeIDs(t.(logs := logs'), id) == NodeIDs(t, id);
  }
}
