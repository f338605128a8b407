/** Every step keeps the invariant and refines one atomic change, or none, of one log. */
module LifecycleSteps {
  import opened Domain
  import opened Tables
  import opened SaveProgram
  import opened SaveSteps
  import opened SaveCommit
  import opened ReadBack
  import opened Snapshots
  import opened Lifecycle
  import opened LifecycleInv

  // ---- Steps without effect on the tables ----

  lemma IssueKeepsInv(s: State, request: Call)
    requires Inv(s) && IsRequest(request)
    ensures Inv(s.(calls := s.calls + [request]))
  {
    var calls' := s.calls + [request];
    forall i | 0 <= i < |calls'| ensures CallOK(s.db, s.seqs, calls'[i]) {
      if i < |s.calls| {
        assert CallOK(s.db, s.seqs, s.calls[i]);
      }
    }
    forall claim | Claimed(s.calls, claim) ensures Claimed(calls', claim) {
      var i :| 0 <= i < |s.calls| && ClaimOf(s.calls[i]) == Some(claim);
      assert ClaimOf(calls'[i]) == Some(claim);
    }
  }

  lemma GivingUpKeepsInv(s: State, c: nat)
    requires Inv(s) && c < |s.calls| && !IsDone(s.calls[c])
    ensures Inv(s.(calls := s.calls[c := GivenUp(s.calls[c])]))
  {
    QuietStepKeepsInv(s, c, GivenUp(s.calls[c]), s.seqs);
  }

  lemma LockKeepsInv(s: State, a: Action)
    requires Inv(s) && Enabled(s, a) && a.Lock?
    ensures Inv(Do(s, a))
  {
    var call := s.calls[a.c];
    BeginSaves(s.seqs, call.logID, call.parsed);
    var after := Effect(s, a, call).2;
    assert after.Saving? ==> Unclaimed(s.calls, ClaimOf(after));
    QuietStepKeepsInv(s, a.c, after, s.seqs);
  }

  lemma StatementKeepsInv(s: State, a: Action)
    requires Inv(s) && Enabled(s, a) && a.Statement?
    ensures Inv(Do(s, a))
  {
    var call := s.calls[a.c];
    assert CallOK(s.db, s.seqs, call);
    AdvanceIsGood(s.db, s.seqs, call.save);
    var (_, seqs', after) := Effect(s, a, call);
    assert CallOK(s.db, seqs', after);
    QuietStepKeepsInv(s, a.c, after, seqs');
  }

  lemma MissKeepsInv(s: State, c: nat, logID: int)
    requires Inv(s) && c < |s.calls| && !IsDone(s.calls[c]) && !IsProcessing(s.db.logs, logID)
    ensures Inv(s.(calls := s.calls[c := FailMissed(logID, logID in s.db.logs)]))
  {
    QuietStepKeepsInv(s, c, FailMissed(logID, logID in s.db.logs), s.seqs);
  }

  lemma ScanKeepsInv(s: State, a: Action)
    requires Inv(s) && Enabled(s, a) && a.Scan?
    ensures Inv(Do(s, a))
  {
    var call := s.calls[a.c];
    if IsProcessing(s.db.logs, call.logID) {
      QuietStepKeepsInv(s, a.c, FailWaiting(call.logID, call.text), s.seqs);
    } else {
      MissKeepsInv(s, a.c, call.logID);
    }
  }

  lemma LookKeepsInv(s: State, a: Action)
    requires Inv(s) && Enabled(s, a) && a.Look?
    ensures Inv(Do(s, a))
  {
    QuietStepKeepsInv(s, a.c, Effect(s, a, s.calls[a.c]).2, s.seqs);
  }

  lemma SnapshotKeepsInv(s: State, a: Action)
    requires Inv(s) && Enabled(s, a) && a.Snapshot?
    ensures Inv(Do(s, a))
  {
    StillTheSame(s.db);
    QuietStepKeepsInv(s, a.c, TopoReading(s.calls[a.c].logID, s.db), s.seqs);
  }

  /** An old snapshot of a log that was terminal by then still shows the log. */
  lemma ReadShowsLog(s: State, snapshot: Tables, logID: int)
    requires DBInv(snapshot, s.seqs) && Evolves(snapshot, s.db) && logID in snapshot.logs
    ensures ReportsLog(s.db, logID, ReadLog(snapshot, logID).value)
  {
    ReportsStay(snapshot, s.db, logID);
    SnapshotShowsLog(snapshot, s.seqs, logID, Contents(snapshot, logID));
  }

  lemma ReadKeepsInv(s: State, a: Action)
    requires Inv(s) && Enabled(s, a) && a.Read?
    ensures Inv(Do(s, a))
  {
    var call := s.calls[a.c];
    assert CallOK(s.db, s.seqs, call);
    if call.logID in call.snapshot.logs {
      SnapshotAgreesWithCounts(call.snapshot, s.seqs, call.logID);
      SnapshotFitsTopology(call.snapshot, s.seqs, call.logID);
      ReadShowsLog(s, call.snapshot, call.logID);
    }
    QuietStepKeepsInv(s, a.c, Effect(s, a, call).2, s.seqs);
  }

  // ---- Creating a log ----

  lemma NextIDIsFresh(s: State)
    requires Inv(s)
    ensures s.seqs.logs + 1 !in s.db.logs
    ensures Unclaimed(s.calls, Some(Creates(s.seqs.logs + 1)))
  {
    var id := s.seqs.logs + 1;
    assert forall k | k in s.db.logs :: LogOK(s.db, s.seqs, k);
    forall i | 0 <= i < |s.calls| ensures ClaimOf(s.calls[i]) != Some(Creates(id)) {
      assert CallOK(s.db, s.seqs, s.calls[i]);
    }
  }

  lemma LogIDsAreDrawn(s: State)
    requires Inv(s)
    ensures forall k | k in s.db.logs :: 1 <= k <= s.seqs.logs
  {
    assert forall k | k in s.db.logs :: LogOK(s.db, s.seqs, k);
  }

  lemma SavingLogsAreProcessing(s: State)
    requires Inv(s)
    ensures forall i | 0 <= i < |s.calls| && s.calls[i].Saving? :: IsProcessing(s.db.logs, s.calls[i].save.logID)
  {
    forall i | 0 <= i < |s.calls| && s.calls[i].Saving? ensures IsProcessing(s.db.logs, s.calls[i].save.logID) {
      assert CallOK(s.db, s.seqs, s.calls[i]);
    }
  }

  lemma LogChangeEvolves(t: Tables, logs': map<int, LogRow>)
    requires forall id | id in t.logs :: id in logs'
    requires forall id | IsTerminal(t.logs, id) :: logs'[id] == t.logs[id]
    ensures Evolves(t, t.(logs := logs'))
  {
    forall id | IsTerminal(t.logs, id) ensures Contents(t.(logs := logs'), id) == Contents(t, id) {
      LogChangeKeepsContents(t, logs', id);
    }
  }

  lemma CreateKeepsInv(s: State, a: Action)
    requires Inv(s) && Enabled(s, a) && a.Create?
    ensures Inv(Do(s, a))
  {
    hide DBInv, Evolves, Explained, NoSharedClaims;
    var (t', seqs', after) := Effect(s, a, s.calls[a.c]);
    NextIDIsFresh(s);
    SavingLogsAreProcessing(s);
    LogIDsAreDrawn(s);
    LogChangeKeepsOrder(s.db, s.seqs, t'.logs, seqs');
    LogChangeEvolves(s.db, t'.logs);
    StepKeepsInv(s, a.c, after, t', seqs');
  }

  // ---- Failing a log ----

  lemma ProcessingIsUnfinished(s: State, logID: int)
    requires Inv(s) && IsProcessing(s.db.logs, logID)
    ensures Unclaimed(s.calls, Some(Finishes(logID)))
  {
    forall i | 0 <= i < |s.calls| ensures ClaimOf(s.calls[i]) != Some(Finishes(logID)) {
      assert CallOK(s.db, s.seqs, s.calls[i]);
    }
  }

  lemma UpdateKeepsInv(s: State, a: Action)
    requires Inv(s) && Enabled(s, a) && a.Update?
    ensures Inv(Do(s, a))
  {
    hide DBInv, Evolves, Explained, NoSharedClaims;
    var call := s.calls[a.c];
    if IsProcessing(s.db.logs, call.logID) {
      var (t', seqs', after) := Effect(s, a, call);
      ProcessingIsUnfinished(s, call.logID);
      SavingLogsAreProcessing(s);
      LogIDsAreDrawn(s);
      LogChangeKeepsOrder(s.db, s.seqs, t'.logs, seqs');
      LogChangeEvolves(s.db, t'.logs);
      StepKeepsInv(s, a.c, after, t', seqs');
    } else {
      MissKeepsInv(s, a.c, call.logID);
    }
  }

  // ---- Committing a save ----

  lemma CommitEvolves(t: Tables, seqs: Sequences, sv: Save)
    requires Working(t, seqs, sv) && IsComplete(sv)
    ensures Evolves(t, Commit(t, sv))
    ensures Stored(Commit(t, sv), sv.logID, sv.parsed)
  {
    CommitSavesExactly(t, seqs, sv);
  }

  lemma OtherSavesAreElsewhere(s: State, c: nat)
    requires Inv(s) && c < |s.calls| && s.calls[c].Saving?
    ensures forall i | 0 <= i < |s.calls| && i != c && s.calls[i].Saving? ::
      s.calls[i].save.logID != s.calls[c].save.logID
  {
    forall i | 0 <= i < |s.calls| && i != c && s.calls[i].Saving?
      ensures s.calls[i].save.logID != s.calls[c].save.logID
    {
      assert ClaimOf(s.calls[i]) == Some(Locks(s.calls[i].save.logID));
      assert ClaimOf(s.calls[c]) == Some(Locks(s.calls[c].save.logID));
    }
  }

  lemma CommitKeepsInv(s: State, a: Action)
    requires Inv(s) && Enabled(s, a) && a.CommitSave?
    ensures Inv(Do(s, a))
  {
    hide DBInv, Evolves, Explained, NoSharedClaims;
    var call := s.calls[a.c];
    var sv := call.save;
    assert CallOK(s.db, s.seqs, call);
    AdvanceIsGood(s.db, s.seqs, sv);
    var (t', seqs', after) := Effect(s, a, call);
    CommitKeepsOrder(s.db, s.seqs, sv);
    CommitEvolves(s.db, s.seqs, sv);
    CommitSavesExactly(s.db, s.seqs, sv);
    SavingLogsAreProcessing(s);
    OtherSavesAreElsewhere(s, a.c);
    ProcessingIsUnfinished(s, sv.logID);
    StepKeepsInv(s, a.c, after, t', seqs');
  }

  // ---- All steps ----

  lemma InitialInv()
    ensures Inv(INITIAL)
  {
  }

  lemma StepInv(s: State, a: Action)
    requires Inv(s) && Enabled(s, a)
    ensures Inv(Do(s, a))
  {
    match a
    case Issue(call) => IssueKeepsInv(s, call);
    case Lose(c) => GivingUpKeepsInv(s, c);
    case Abort(c) => GivingUpKeepsInv(s, c);
    case BreakOff(c) => GivingUpKeepsInv(s, c);
    case Create(_, _) => CreateKeepsInv(s, a);
    case Lock(_) => LockKeepsInv(s, a);
    case Statement(_) => StatementKeepsInv(s, a);
    case CommitSave(_, _) => CommitKeepsInv(s, a);
    case Scan(_) => ScanKeepsInv(s, a);
    case Update(_, _) => UpdateKeepsInv(s, a);
    case Look(_) => LookKeepsInv(s, a);
    case Snapshot(_) => SnapshotKeepsInv(s, a);
    case Read(_) => ReadKeepsInv(s, a);
  }

  /** Every state of every run satisfies the invariant. */
  lemma {:induction false} RunInv(states: seq<State>, actions: seq<Action>, i: nat)
    requires IsRun(states, actions) && i < |states|
    ensures Inv(states[i])
  {
    if i == 0 {
      InitialInv();
    } else {
      RunInv(states, actions, i - 1);
      StepInv(states[i - 1], actions[i - 1]);
    }
  }
}
