/** What holds in every run: refinement of atomic changes, one winner per log, faithful snapshots, no deadlock. */
module LifecycleRuns {
  import opened Domain
  import opened Tables
  import opened SaveProgram
  import opened Flaws
  import opened SaveSteps
  import opened SaveCommit
  import opened ReadBack
  import opened Snapshots
  import opened Lifecycle
  import opened LifecycleInv
  import opened LifecycleSteps

  // ---- Refinement ----

  /** A log as its users think of it: still open, closed with what was parsed, or broken. */
  datatype AbsLog = Open | Closed(parsed: ParsedLog) | Broken(text: string)

  datatype Change = Opens | Stores(parsed: ParsedLog) | Breaks(text: string)

  ghost function AbsOf(t: Tables, id: int): AbsLog
    requires id in t.logs
  {
    match t.logs[id].status
    case Processing => Open
    case Parsed => Closed(Contents(t, id))
    case Failed => Broken(t.logs[id].errorText)
  }

  ghost function Abs(t: Tables): map<int, AbsLog> {
    map id | id in t.logs :: AbsOf(t, id)
  }

  /** One atomic change of one log; closing and breaking need an open log, closing needs a log fit to be saved. */
  ghost predicate AbsStep(a: map<int, AbsLog>, id: int, change: Change, a': map<int, AbsLog>) {
    match change
    case Opens => id !in a && a' == a[id := Open]
    case Stores(parsed) => id in a && a[id] == Open && Savable(parsed) && a' == a[id := Closed(parsed)]
    case Breaks(text) => id in a && a[id] == Open && a' == a[id := Broken(text)]
  }

  /** The atomic change a step stands for. All other steps, every statement of a save among them, stand for none. */
  ghost function ChangeOf(s: State, a: Action): Option<(int, Change)>
    requires Enabled(s, a)
  {
    match a
    case Create(_, _) => Some((s.seqs.logs + 1, Opens))
    case CommitSave(c, _) => Some((s.calls[c].save.logID, Stores(s.calls[c].save.parsed)))
    case Update(c, _) =>
      if IsProcessing(s.db.logs, s.calls[c].logID) then Some((s.calls[c].logID, Breaks(s.calls[c].text))) else None
    case _ => None
  }

  lemma LogChangeAbs(t: Tables, id: int, row: LogRow)
    requires !row.status.Parsed?
    ensures Abs(t.(logs := t.logs[id := row])) ==
      Abs(t)[id := if row.status.Processing? then Open else Broken(row.errorText)]
  {
    var t' := t.(logs := t.logs[id := row]);
    forall k | k in t'.logs ensures Contents(t', k) == Contents(t, k) {
      LogChangeKeepsContents(t, t'.logs, k);
    }
  }

  lemma OneLogCloses(t: Tables, t': Tables, id: int, row: LogRow, parsed: ParsedLog)
    requires row.status.Parsed? && t'.logs == t.logs[id := row]
    requires Contents(t', id) == parsed && forall k | k != id :: Contents(t', k) == Contents(t, k)
    ensures Abs(t') == Abs(t)[id := Closed(parsed)]
  {
    forall k | k in t'.logs && k != id ensures AbsOf(t', k) == AbsOf(t, k) {
      assert Contents(t', k) == Contents(t, k);
    }
  }

  lemma CommitAbs(t: Tables, seqs: Sequences, sv: Save)
    requires Working(t, seqs, sv) && IsComplete(sv)
    ensures AbsStep(Abs(t), sv.logID, Stores(sv.parsed), Abs(Commit(t, sv)))
  {
    CommitSavesExactly(t, seqs, sv);
    OneLogCloses(t, Commit(t, sv), sv.logID, Finished(t.logs[sv.logID], sv.parsed), sv.parsed);
    OpenLog(t, sv.logID);
  }

  lemma OpenLog(t: Tables, id: int)
    requires IsProcessing(t.logs, id)
    ensures id in Abs(t) && Abs(t)[id] == Open
  {
  }

  lemma CommitRefines(s: State, a: Action)
    requires Inv(s) && Enabled(s, a) && a.CommitSave?
    ensures AbsStep(Abs(s.db), s.calls[a.c].save.logID, Stores(s.calls[a.c].save.parsed), Abs(Do(s, a).db))
  {
    hide DBInv;
    var sv := s.calls[a.c].save;
    assert CallOK(s.db, s.seqs, s.calls[a.c]);
    AdvanceIsGood(s.db, s.seqs, sv);
    CommitAbs(s.db, s.seqs, sv);
  }

  lemma CreateRefines(s: State, a: Action)
    requires Inv(s) && Enabled(s, a) && a.Create?
    ensures AbsStep(Abs(s.db), s.seqs.logs + 1, Opens, Abs(Do(s, a).db))
  {
    NextIDIsFresh(s);
    LogChangeAbs(s.db, s.seqs.logs + 1, FreshLog(s.calls[a.c].path));
  }

  lemma UpdateRefines(s: State, a: Action)
    requires Enabled(s, a) && a.Update? && IsProcessing(s.db.logs, s.calls[a.c].logID)
    ensures AbsStep(Abs(s.db), s.calls[a.c].logID, Breaks(s.calls[a.c].text), Abs(Do(s, a).db))
  {
    var call := s.calls[a.c];
    LogChangeAbs(s.db, call.logID, BrokenRow(s.db.logs[call.logID], call.text));
    assert Abs(s.db)[call.logID] == Open;
  }

  /**
   Refinement: interleaved with any other calls, each step of the fine-grained protocol is either invisible or one
   atomic change of one log. In particular a save is invisible up to its commit, and is then one change from open
   to closed with exactly the log that was to be saved.
   */
  lemma StepRefines(s: State, a: Action)
    requires Inv(s) && Enabled(s, a)
    ensures match ChangeOf(s, a)
      case None => Abs(Do(s, a).db) == Abs(s.db)
      case Some(change) => AbsStep(Abs(s.db), change.0, change.1, Abs(Do(s, a).db))
  {
    hide Inv, AbsStep, Advance;
    if a.Create? {
      CreateRefines(s, a);
    } else if a.CommitSave? {
      CommitRefines(s, a);
    } else if ChangeOf(s, a).Some? {
      UpdateRefines(s, a);
    }
  }

  lemma RunRefines(states: seq<State>, actions: seq<Action>, i: nat)
    requires IsRun(states, actions) && i < |actions|
    ensures match ChangeOf(states[i], actions[i])
      case None => Abs(states[i + 1].db) == Abs(states[i].db)
      case Some(change) => AbsStep(Abs(states[i].db), change.0, change.1, Abs(states[i + 1].db))
  {
    RunInv(states, actions, i);
    StepRefines(states[i], actions[i]);
  }

  // ---- Terminal logs ----

  lemma StepEvolves(s: State, a: Action)
    requires Inv(s) && Enabled(s, a)
    ensures Evolves(s.db, Do(s, a).db)
  {
    if a.CommitSave? {
      assert CallOK(s.db, s.seqs, s.calls[a.c]);
      AdvanceIsGood(s.db, s.seqs, s.calls[a.c].save);
      CommitEvolves(s.db, s.seqs, s.calls[a.c].save);
    } else if a.Create? {
      NextIDIsFresh(s);
      LogChangeEvolves(s.db, Do(s, a).db.logs);
    } else if a.Update? && IsProcessing(s.db.logs, s.calls[a.c].logID) {
      LogChangeEvolves(s.db, Do(s, a).db.logs);
    }
  }

  ghost predicate EachEvolves(ts: seq<Tables>) {
    forall k | 0 <= k < |ts| - 1 :: Evolves(ts[k], ts[k + 1])
  }

  lemma {:induction false} EvolvesAlong(ts: seq<Tables>, i: nat, j: nat)
    requires EachEvolves(ts) && i <= j < |ts|
    ensures Evolves(ts[i], ts[j])
  {
    if i == j {
      StillTheSame(ts[i]);
    } else {
      EvolvesAlong(ts, i, j - 1);
      assert Evolves(ts[j - 1], ts[j - 1 + 1]);
      EvolvesTransitively(ts[i], ts[j - 1], ts[j]);
    }
  }

  lemma OneStepEvolves(states: seq<State>, actions: seq<Action>, i: nat)
    requires IsRun(states, actions) && i < |actions|
    ensures Evolves(states[i].db, states[i + 1].db)
  {
    RunInv(states, actions, i);
    StepEvolves(states[i], actions[i]);
  }

  lemma RunEvolves(states: seq<State>, actions: seq<Action>, i: nat, j: nat)
    requires IsRun(states, actions) && i <= j < |states|
    ensures Evolves(states[i].db, states[j].db)
  {
    var ts := seq(|states|, k requires 0 <= k < |states| => states[k].db);
    forall k | 0 <= k < |ts| - 1 ensures Evolves(ts[k], ts[k + 1]) {
      OneStepEvolves(states, actions, k);
    }
    EvolvesAlong(ts, i, j);
  }

  /** Terminal statuses never change, nor does what a parsed log holds. */
  lemma TerminalForever(states: seq<State>, actions: seq<Action>, i: nat, j: nat, id: int)
    requires IsRun(states, actions) && i <= j < |states| && IsTerminal(states[i].db.logs, id)
    ensures id in states[j].db.logs && states[j].db.logs[id] == states[i].db.logs[id]
    ensures Contents(states[j].db, id) == Contents(states[i].db, id)
  {
    RunEvolves(states, actions, i, j);
    TerminalStays(states[i].db, states[j].db, id);
  }

  // ---- Every reachable database ----

  /** Rows only under parsed logs; counts as many as rows; every port's node in the port's log with the port's GUID. */
  lemma ReachableDatabase(states: seq<State>, actions: seq<Action>, i: nat, id: int)
    requires IsRun(states, actions) && i < |states| && id in states[i].db.logs
    ensures var t := states[i].db;
      && (!t.logs[id].status.Parsed? ==> NodeRows(t, id) == [] && InfoRows(t, id) == [] && PortRows(t, id) == [])
      && (t.logs[id].status.Parsed? ==>
        t.logs[id].nodesCount == Int32(|NodeRows(t, id)|) && t.logs[id].portsCount == Int32(|PortRows(t, id)|))
      && (forall r | r in PortRows(t, id) :: exists n ::
        n in NodeRows(t, id) && n.id == r.nodeID && n.node.nodeGUID == r.port.nodeGUID)
  {
    var t := states[i].db;
    RunInv(states, actions, i);
    assert LogOK(t, states[i].seqs, id);
    if !t.logs[id].status.Parsed? {
      OnlyParsedLogsHaveRows(t, states[i].seqs, id);
    }
    forall r | r in PortRows(t, id)
      ensures exists n :: n in NodeRows(t, id) && n.id == r.nodeID && n.node.nodeGUID == r.port.nodeGUID
    {
      assert PortOK(t, states[i].seqs, r);
      var k :| 0 <= k < |t.nodes| && t.nodes[k].id == r.nodeID && t.nodes[k].logID == r.logID &&
        t.nodes[k].node.nodeGUID == r.port.nodeGUID;
      assert t.nodes[k] in NodeRows(t, id);
    }
  }

  // ---- Rows of the logs table ----

  /** A log that is not parsed has no counts, and only a failed one has an error text. */
  predicate FitsItsStatus(row: LogRow) {
    && (!row.status.Parsed? ==> row.nodesCount == 0 && row.portsCount == 0)
    && (!row.status.Failed? ==> row.errorText == "")
  }

  /** A step gives a log row its path when it creates it, and never changes the path again. */
  lemma RowAfterStep(s: State, a: Action, id: int)
    requires Inv(s) && Enabled(s, a) && id in Do(s, a).db.logs
    ensures (id in s.db.logs ==> FitsItsStatus(s.db.logs[id])) ==> FitsItsStatus(Do(s, a).db.logs[id])
    ensures id in s.db.logs ==> Do(s, a).db.logs[id].filePath == s.db.logs[id].filePath
    ensures id !in s.db.logs ==>
      && a.Create? && s.calls[a.c] == CreateReq(Do(s, a).db.logs[id].filePath)
      && Do(s, a).calls[a.c].created == Some(id)
  {
    NextIDIsFresh(s);
    hide Inv, DBInv;
  }

  /**
   Every log row was made by a create call, still has that call's path, and has counts and an error text only as its
   status allows; the counts of a parsed log are those of what it holds.
   */
  lemma {:induction false} LogRowsInOrder(states: seq<State>, actions: seq<Action>, i: nat, id: int) returns (k: nat)
    requires IsRun(states, actions) && i < |states| && id in states[i].db.logs
    ensures k < i && actions[k].Create?
    ensures states[k].calls[actions[k].c] == CreateReq(states[i].db.logs[id].filePath)
    ensures states[k + 1].calls[actions[k].c].created == Some(id)
    ensures FitsItsStatus(states[i].db.logs[id])
    ensures states[i].db.logs[id].status.Parsed? ==>
      && states[i].db.logs[id].nodesCount == Int32(|Contents(states[i].db, id).nodes|)
      && states[i].db.logs[id].portsCount == Int32(|Contents(states[i].db, id).ports|)
  {
    RunInv(states, actions, i);
    RunInv(states, actions, i - 1);
    assert LogOK(states[i].db, states[i].seqs, id);
    if id in states[i - 1].db.logs {
      k := LogRowsInOrder(states, actions, i - 1, id);
    } else {
      k := i - 1;
    }
    RowAfterStep(states[i - 1], actions[i - 1], id);
  }

  /** The delete at the start of a save never removes a row. */
  lemma DeleteRemovesNothing(states: seq<State>, actions: seq<Action>, i: nat, c: nat)
    requires IsRun(states, actions) && i < |states| && c < |states[i].calls|
    requires states[i].calls[c].Saving? && !states[i].calls[c].save.cleared
    ensures NodeIDs(states[i].db, states[i].calls[c].save.logID) == {}
  {
    RunInv(states, actions, i);
    assert CallOK(states[i].db, states[i].seqs, states[i].calls[c]);
    ClearStep(states[i].db, states[i].seqs, states[i].calls[c].save);
  }

  /** Two saves in progress are for different logs, so no insert ever waits for another save's rows. */
  lemma SavesInProgressDoNotMeet(states: seq<State>, actions: seq<Action>, i: nat, c: nat, d: nat)
    requires IsRun(states, actions) && i < |states| && c < |states[i].calls| && d < |states[i].calls| && c != d
    requires states[i].calls[c].Saving? && states[i].calls[d].Saving?
    ensures states[i].calls[c].save.logID != states[i].calls[d].save.logID
  {
    RunInv(states, actions, i);
    OtherSavesAreElsewhere(states[i], c);
  }

  // ---- One winner ----

  /** The call is a save or fail that took effect on this log. */
  predicate Wins(call: Call, id: int) {
    ClaimOf(call) == Some(Finishes(id))
  }

  /**
   A log is terminal exactly when one save or fail took effect on it, never two; its status and contents are what
   that one made them.
   */
  lemma ExactlyOneWinner(states: seq<State>, actions: seq<Action>, i: nat, id: int)
    requires IsRun(states, actions) && i < |states|
    ensures var s := states[i];
      && (IsTerminal(s.db.logs, id) <==> exists c :: 0 <= c < |s.calls| && Wins(s.calls[c], id))
      && (forall c, d | 0 <= c < d < |s.calls| :: !(Wins(s.calls[c], id) && Wins(s.calls[d], id)))
      && (forall c | 0 <= c < |s.calls| && Wins(s.calls[c], id) ::
        if s.calls[c].SaveDone? then Stored(s.db, id, s.calls[c].parsed) else s.db.logs[id].status.Failed?)
  {
    RunInv(states, actions, i);
    var s := states[i];
    if IsTerminal(s.db.logs, id) {
      assert Claimed(s.calls, Finishes(id));
    }
    forall c | 0 <= c < |s.calls| && Wins(s.calls[c], id)
      ensures IsTerminal(s.db.logs, id)
      ensures if s.calls[c].SaveDone? then Stored(s.db, id, s.calls[c].parsed) else s.db.logs[id].status.Failed?
    {
      assert CallOK(s.db, s.seqs, s.calls[c]);
    }
  }

  /**
   A reply of success is never a lie, a reported terminal status stays true, and a reply that blames the log names its
   first flaw.
   */
  lemma RepliesAreTrue(states: seq<State>, actions: seq<Action>, i: nat, c: nat)
    requires IsRun(states, actions) && i < |states| && c < |states[i].calls|
    ensures var s := states[i]; var call := s.calls[c];
      && (call.SaveDone? && call.counts.Ok? ==> Wins(call, call.logID) && call.counts.value == CountsOf(call.parsed))
      && (call.SaveDone? && call.effective ==> Savable(call.parsed) && Stored(s.db, call.logID, call.parsed))
      && (call.SaveDone? && call.counts.Err? && call.counts.error in {EmptyGUID, UnknownReference, Constraint} ==>
        !Savable(call.parsed) && FirstFlaw(call.parsed) == Some(call.counts.error))
      && (call.FailDone? && call.failed.Ok? ==> Wins(call, call.logID))
      && (call.SaveDone? && call.counts.Err? ==> ReportIsTrue(s.db.logs, call.logID, call.counts.error))
      && (call.FailDone? && call.failed.Err? ==> ReportIsTrue(s.db.logs, call.logID, call.failed.error))
      && (call.TopoDone? && call.data.Ok? ==> AgreesWithCounts(call.data.value) && FitForTopology(call.data.value))
  {
    RunInv(states, actions, i);
    assert CallOK(states[i].db, states[i].seqs, states[i].calls[c]);
  }

  /**
   What a topology request is told of a parsed log is exactly what the one effective save of that log was given:
   its nodes in order with their infos, and its ports.
   */
  lemma TopologyShowsTheWinner(states: seq<State>, actions: seq<Action>, i: nat, c: nat) returns (w: nat)
    requires IsRun(states, actions) && i < |states| && c < |states[i].calls|
    requires states[i].calls[c].TopoDone? && states[i].calls[c].data.Ok?
    requires states[i].calls[c].data.value.log.status.Parsed?
    ensures var call := states[i].calls[c];
      && w < |states[i].calls| && states[i].calls[w].SaveDone? && Wins(states[i].calls[w], call.logID)
      && ShowsLog(call.data.value, call.logID, states[i].calls[w].parsed)
      && call.logID in states[i].db.logs && call.data.value.log == states[i].db.logs[call.logID]
  {
    RunInv(states, actions, i);
    var s, call := states[i], states[i].calls[c];
    assert CallOK(s.db, s.seqs, call);
    assert Claimed(s.calls, Finishes(call.logID));
    w :| w < |s.calls| && ClaimOf(s.calls[w]) == Some(Finishes(call.logID));
    assert CallOK(s.db, s.seqs, s.calls[w]);
  }

  /**
   A call is turned away only for cause, and told which: a save finds no log, or one whose terminal status it is told; a
   topology request finds no log in its snapshot.
   */
  lemma RefusalsNameTheCause(s: State, a: Action)
    requires Enabled(s, a)
    ensures a.Lock? ==>
      var call, after := s.calls[a.c], Do(s, a).calls[a.c];
      && (after.Saving? <==> IsProcessing(s.db.logs, call.logID))
      && (after.SaveDone? && after.counts == Err(NotFound) <==> call.logID !in s.db.logs)
      && (IsTerminal(s.db.logs, call.logID) ==>
            after.SaveDone? && after.counts == Err(InvalidStatus(s.db.logs[call.logID].status)))
    ensures a.Read? ==>
      var call, after := s.calls[a.c], Do(s, a).calls[a.c];
      && after.TopoDone? && (after.data == Err(NotFound) <==> call.logID !in call.snapshot.logs)
      && (after.data.Err? ==> after.data == Err(NotFound))
  {
    hide Advance, Join;
  }

  /** Nothing but an abort can stop the save of a log that fits the schema. */
  lemma SavableSavesGoThrough(s: State, c: nat)
    requires Inv(s) && c < |s.calls| && s.calls[c].Saving? && Savable(s.calls[c].save.parsed)
    ensures Enabled(s, CommitSave(c, true)) || (Enabled(s, Statement(c)) && Do(s, Statement(c)).calls[c].Saving?)
  {
    assert CallOK(s.db, s.seqs, s.calls[c]);
    AdvanceIsGood(s.db, s.seqs, s.calls[c].save);
  }

  // ---- Missed fails ----

  /**
   A fail that updated no row reports what it reads afterwards. If the log existed when the update looked for it,
   the report is always a terminal status; it is "processing" exactly when the log was created in between.
   */
  lemma MissedFailReports(states: seq<State>, actions: seq<Action>, i: nat, c: nat)
    requires IsRun(states, actions) && i < |states| && c < |states[i].calls| && states[i].calls[c].FailMissed?
    ensures var s := states[i]; var call := s.calls[c]; var after := Do(s, Look(c)).calls[c];
      && after.FailDone? && !after.effective
      && (call.existed ==> after.failed in {Err(InvalidStatus(Parsed)), Err(InvalidStatus(Failed))})
      && (after.failed == Err(NotFound) <==> call.logID !in s.db.logs)
      && (after.failed == Err(InvalidStatus(Processing)) <==> !call.existed && IsProcessing(s.db.logs, call.logID))
  {
    RunInv(states, actions, i);
    var s, call := states[i], states[i].calls[c];
    assert CallOK(s.db, s.seqs, call);
    assert Enabled(s, Look(c));
    assert IsTerminal(s.db.logs, call.logID) ==> s.db.logs[call.logID].status in {Parsed, Failed};
  }

  lemma RunOf(s: State, actions: seq<Action>, a: Action, states: seq<State>) returns (next: seq<State>)
    requires IsRun(states, actions) && states[|states| - 1] == s && Enabled(s, a)
    ensures next == states + [Do(s, a)] && IsRun(next, actions + [a])
  {
    next := states + [Do(s, a)];
    forall i | 0 <= i < |actions + [a]|
      ensures Enabled(next[i], (actions + [a])[i]) && next[i + 1] == Do(next[i], (actions + [a])[i])
    {
      assert i < |actions| ==> Enabled(states[i], actions[i]) && states[i + 1] == Do(states[i], actions[i]);
    }
  }

  /** A fail aimed at an id that is created only while it looks does report "processing". */
  lemma GuessedFailCanReportProcessing() returns (states: seq<State>, actions: seq<Action>)
    ensures IsRun(states, actions)
    ensures states[|actions|].calls == [FailDone(1, false, Err(InvalidStatus(Processing))), CreateDone(Some(1), Ok(1))]
  {
    states, actions := [INITIAL], [];
    states := RunOf(INITIAL, actions, Issue(FailReq(1, "")), states);
    actions := actions + [Issue(FailReq(1, ""))];
    var s := State(EMPTY, UNDRAWN, [FailReq(1, "")]);
    states := RunOf(s, actions, Scan(0), states);
    actions := actions + [Scan(0)];
    s := State(EMPTY, UNDRAWN, [FailMissed(1, false)]);
    states := RunOf(s, actions, Issue(CreateReq("")), states);
    actions := actions + [Issue(CreateReq(""))];
    s := State(EMPTY, UNDRAWN, [FailMissed(1, false), CreateReq("")]);
    states := RunOf(s, actions, Create(1, true), states);
    actions := actions + [Create(1, true)];
    s := State(EMPTY.(logs := map[1 := FreshLog("")]), UNDRAWN.(logs := 1),
               [FailMissed(1, false), CreateDone(Some(1), Ok(1))]);
    states := RunOf(s, actions, Look(0), states);
    actions := actions + [Look(0)];
  }

  // ---- No deadlock ----

  /** A call that is not done can take a step, or waits for a save that can. */
  lemma NoDeadlock(s: State, c: nat) returns (a: Action)
    requires Inv(s) && c < |s.calls| && !IsDone(s.calls[c])
    ensures Enabled(s, a) && !a.Issue? && !a.Lose? && !a.Abort? && !a.BreakOff?
    ensures a.c == c || s.calls[a.c].Saving?
  {
    match s.calls[c]
    case CreateReq(_) => a := Create(c, true);
    case SaveReq(id, _) => a := LockOrHolder(s, c, id, Lock(c));
    case Saving(_) => a := SaveMoves(s, c);
    case FailReq(_, _) => a := Scan(c);
    case FailWaiting(id, _) => a := LockOrHolder(s, c, id, Update(c, true));
    case FailMissed(_, _) => a := Look(c);
    case TopoReq(_) => a := Snapshot(c);
    case TopoReading(_, _) => a := Read(c);
  }

  lemma SaveMoves(s: State, c: nat) returns (a: Action)
    requires Inv(s) && c < |s.calls| && s.calls[c].Saving?
    ensures Enabled(s, a) && a in {Statement(c), CommitSave(c, true)}
  {
    assert CallOK(s.db, s.seqs, s.calls[c]);
    a := if Advance(s.db, s.seqs, s.calls[c].save).Ready? then CommitSave(c, true) else Statement(c);
  }

  lemma LockOrHolder(s: State, c: nat, id: int, wanted: Action) returns (a: Action)
    requires Inv(s) && c < |s.calls| && (LockFree(s.calls, id) ==> Enabled(s, wanted))
    ensures Enabled(s, a)
    ensures a == wanted || exists d: nat ::
      d < |s.calls| && s.calls[d].Saving? && a in {Statement(d), CommitSave(d, true)}
  {
    if LockFree(s.calls, id) {
      a := wanted;
    } else {
      var d: nat :| d < |s.calls| && s.calls[d].Saving? && s.calls[d].save.logID == id;
      a := SaveMoves(s, d);
    }
  }
}
