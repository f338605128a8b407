/**
 `ParseLog` as a client of the repository: create the log, parse, save, and on any error try to fail the log.
 Requests and replies can be lost; other users issue whatever they like.
 */
module Clients {
  import opened Domain
  import opened Tables
  import opened SaveProgram
  import opened Lifecycle
  import opened LifecycleInv
  import opened LifecycleSteps
  import opened LifecycleRuns
  import Text

  /** A save that was tried and brought no success. */
  datatype Attempt = Attempt(parsed: ParsedLog, save: nat)

  /** Where a run of `ParseLog` stands. The numbers are the repository calls it made. */
  datatype Client =
    | Creating(create: nat)
    | Parsing(create: nat, logID: int)
    | SavingLog(create: nat, logID: int, parsed: ParsedLog, save: nat)
    | Failing(create: nat, logID: int, attempt: Option<Attempt>, fail: nat)
    | Abandoned(create: nat)
    | Succeeded(create: nat, logID: int, parsed: ParsedLog, save: nat, counts: Counts)
    | GaveUp(create: nat, logID: int, attempt: Option<Attempt>, fail: nat)

  datatype System = System(repo: State, clients: seq<Client>)

  const NOTHING := System(Lifecycle.INITIAL, [])

  datatype Move =
    | Repository(a: Action)
    | Start(path: string)
    | Take(k: nat, text: string)
    | Miss(k: nat, text: string)
    | Parses(k: nat, parsed: ParsedLog)
    | ParseFails(k: nat, text: string)

  predicate IsOver(cl: Client) {
    cl.Abandoned? || cl.Succeeded? || cl.GaveUp?
  }

  function Awaited(cl: Client): Option<nat> {
    match cl
    case Creating(c) => Some(c)
    case SavingLog(_, _, _, c) => Some(c)
    case Failing(_, _, _, c) => Some(c)
    case _ => None
  }

  predicate CanTake(calls: seq<Call>, cl: Client) {
    match cl
    case Creating(c) => c < |calls| && calls[c].CreateDone?
    case SavingLog(_, _, _, c) => c < |calls| && calls[c].SaveDone?
    case Failing(_, _, _, c) => c < |calls| && calls[c].FailDone?
    case _ => false
  }

  predicate Allowed(sys: System, m: Move) {
    match m
    case Repository(a) => Enabled(sys.repo, a)
    case Start(path) => Text.TrimSpace(path) != ""
    case Take(k, _) => k < |sys.clients| && CanTake(sys.repo.calls, sys.clients[k])
    case Miss(k, _) => k < |sys.clients| && Awaited(sys.clients[k]).Some?
    case Parses(k, _) => k < |sys.clients| && sys.clients[k].Parsing?
    case ParseFails(k, _) => k < |sys.clients| && sys.clients[k].Parsing?
  }

  function Issued(repo: State, request: Call): State {
    repo.(calls := repo.calls + [request])
  }

  /** On an error after the log exists the client turns to `FailLog`; its guard `logID <= 0` never applies. */
  function TurnToFail(repo: State, create: nat, logID: int, attempt: Option<Attempt>, text: string): (State, Client) {
    (Issued(repo, FailReq(logID, text)), Failing(create, logID, attempt, |repo.calls|))
  }

  /** The client after a reply, or after waiting in vain: an error in either case but the first. */
  function AfterReply(repo: State, cl: Client, received: bool, text: string): (State, Client)
    requires Awaited(cl).Some? && (received ==> CanTake(repo.calls, cl))
  {
    match cl
    case Creating(c) =>
      if received && repo.calls[c].id.Ok? then (repo, Parsing(c, repo.calls[c].id.value)) else (repo, Abandoned(c))
    case SavingLog(create, id, parsed, c) =>
      if received && repo.calls[c].counts.Ok? then (repo, Succeeded(create, id, parsed, c, repo.calls[c].counts.value))
      else TurnToFail(repo, create, id, Some(Attempt(parsed, c)), text)
    case Failing(create, id, attempt, c) => (repo, GaveUp(create, id, attempt, c))
  }

  ghost function Advanced(sys: System, m: Move): System
    requires Allowed(sys, m)
  {
    match m
    case Repository(a) => sys.(repo := Do(sys.repo, a))
    case Start(path) =>
      System(Issued(sys.repo, CreateReq(Text.TrimSpace(path))), sys.clients + [Creating(|sys.repo.calls|)])
    case Take(k, text) =>
      var (repo, cl) := AfterReply(sys.repo, sys.clients[k], true, text);
      System(repo, sys.clients[k := cl])
    case Miss(k, text) =>
      var (repo, cl) := AfterReply(sys.repo, sys.clients[k], false, text);
      System(repo, sys.clients[k := cl])
    case Parses(k, parsed) =>
      var cl := sys.clients[k];
      System(Issued(sys.repo, SaveReq(cl.logID, parsed)),
             sys.clients[k := SavingLog(cl.create, cl.logID, parsed, |sys.repo.calls|)])
    case ParseFails(k, text) =>
      var (repo, cl) := TurnToFail(sys.repo, sys.clients[k].create, sys.clients[k].logID, None, text);
      System(repo, sys.clients[k := cl])
  }

  // ---- Invariant ----

  predicate IsCreate(calls: seq<Call>, c: nat) {
    c < |calls| && (calls[c].CreateReq? || calls[c].CreateDone?)
  }

  predicate CreatedBy(repo: State, c: nat, id: int) {
    c < |repo.calls| && repo.calls[c].CreateDone? && repo.calls[c].created == Some(id) && id in repo.db.logs
  }

  predicate IsSaveOf(calls: seq<Call>, c: nat, id: int, parsed: ParsedLog) {
    c < |calls| &&
    match calls[c]
    case SaveReq(i, p) => i == id && p == parsed
    case Saving(sv) => sv.logID == id && sv.parsed == parsed
    case SaveDone(i, p, _, _) => i == id && p == parsed
    case _ => false
  }

  predicate TellsStatus(logs: map<int, LogRow>, id: int, failed: Result<int, Error>) {
    IsTerminal(logs, id) &&
    if logs[id].status.Failed? then failed.Ok? || failed == Err(InvalidStatus(Failed))
    else failed == Err(InvalidStatus(Parsed))
  }

  /** A fail of an existing log: unless it went unanswered, its reply tells the log's status, which is terminal. */
  predicate IsFailOf(repo: State, c: nat, id: int) {
    c < |repo.calls| &&
    match repo.calls[c]
    case FailReq(i, _) => i == id
    case FailWaiting(i, _) => i == id
    case FailMissed(i, existed) => i == id && existed
    case FailDone(i, effective, failed) =>
      && i == id
      && (IsTerminal(repo.db.logs, id) || (!effective && failed == Err(Unavailable)))
      && (failed == Err(Unavailable) || TellsStatus(repo.db.logs, id, failed))
    case _ => false
  }

  predicate IsAttemptOn(repo: State, attempt: Option<Attempt>, id: int) {
    attempt.Some? ==> IsSaveOf(repo.calls, attempt.value.save, id, attempt.value.parsed)
  }

  predicate ClientOK(repo: State, cl: Client) {
    match cl
    case Creating(c) => IsCreate(repo.calls, c)
    case Parsing(c, id) => CreatedBy(repo, c, id)
    case SavingLog(c, id, parsed, s) => CreatedBy(repo, c, id) && IsSaveOf(repo.calls, s, id, parsed)
    case Failing(c, id, attempt, f) => CreatedBy(repo, c, id) && IsAttemptOn(repo, attempt, id) && IsFailOf(repo, f, id)
    case Abandoned(c) => IsCreate(repo.calls, c)
    case Succeeded(c, id, parsed, s, counts) =>
      && CreatedBy(repo, c, id) && IsSaveOf(repo.calls, s, id, parsed)
      && Wins(repo.calls[s], id) && repo.calls[s].SaveDone? && counts == CountsOf(parsed)
    case GaveUp(c, id, attempt, f) => CreatedBy(repo, c, id) && IsAttemptOn(repo, attempt, id) && IsFailOf(repo, f, id)
  }

  ghost predicate SysInv(sys: System) {
    Inv(sys.repo) && forall k | 0 <= k < |sys.clients| :: ClientOK(sys.repo, sys.clients[k])
  }

  // ---- Calls only move forward ----

  /** Calls made stay what they are about, and calls done stay as they are. */
  ghost predicate Continues(repo: State, repo': State) {
    && |repo.calls| <= |repo'.calls|
    && (forall i | 0 <= i < |repo.calls| && IsDone(repo.calls[i]) :: repo'.calls[i] == repo.calls[i])
    && (forall i: nat | i < |repo.calls| && IsCreate(repo.calls, i) :: IsCreate(repo'.calls, i))
    && (forall i: nat, id, parsed | i < |repo.calls| && IsSaveOf(repo.calls, i, id, parsed) ::
      IsSaveOf(repo'.calls, i, id, parsed))
    && (forall i: nat, id | i < |repo.calls| && id in repo.db.logs && IsFailOf(repo, i, id) :: IsFailOf(repo', i, id))
    && (forall id | id in repo.db.logs :: id in repo'.db.logs)
  }

  lemma ClientStays(repo: State, repo': State, cl: Client)
    requires ClientOK(repo, cl) && Continues(repo, repo')
    ensures ClientOK(repo', cl)
  {
  }

  lemma IssueContinues(repo: State, request: Call)
    ensures Continues(repo, Issued(repo, request))
  {
  }

  lemma OtherCallsStay(s: State, a: Action, i: nat)
    requires Enabled(s, a) && i < |s.calls| && (a.Issue? || i != a.c)
    ensures i < |Do(s, a).calls| && Do(s, a).calls[i] == s.calls[i]
  {
  }

  lemma CreateContinues(s: State, a: Action, i: nat)
    requires Enabled(s, a) && i < |s.calls| && IsCreate(s.calls, i)
    ensures IsCreate(Do(s, a).calls, i)
  {
    if a.Issue? || i != a.c {
      OtherCallsStay(s, a, i);
    }
  }

  lemma SaveContinues(s: State, a: Action, i: nat, id: int, parsed: ParsedLog)
    requires Inv(s) && Enabled(s, a) && i < |s.calls| && IsSaveOf(s.calls, i, id, parsed)
    ensures IsSaveOf(Do(s, a).calls, i, id, parsed)
  {
    if a.Issue? || i != a.c {
      OtherCallsStay(s, a, i);
    } else if a.Statement? {
      assert CallOK(s.db, s.seqs, s.calls[i]);
      SaveSteps.AdvanceIsGood(s.db, s.seqs, s.calls[i].save);
    }
  }

  lemma FailContinues(s: State, a: Action, i: nat, id: int)
    requires Inv(s) && Enabled(s, a) && i < |s.calls| && id in s.db.logs && IsFailOf(s, i, id)
    ensures IsFailOf(Do(s, a), i, id)
  {
    StepEvolves(s, a);
    if IsTerminal(s.db.logs, id) {
      TerminalStays(s.db, Do(s, a).db, id);
    }
    if a.Issue? || i != a.c {
      OtherCallsStay(s, a, i);
    } else {
      assert CallOK(s.db, s.seqs, s.calls[i]);
    }
  }

  lemma StepContinues(s: State, a: Action)
    requires Inv(s) && Enabled(s, a)
    ensures Continues(s, Do(s, a))
  {
    var s' := Do(s, a);
    StepEvolves(s, a);
    forall i | 0 <= i < |s.calls| && IsDone(s.calls[i]) ensures s'.calls[i] == s.calls[i] {
      OtherCallsStay(s, a, i);
    }
    forall i: nat | i < |s.calls| && IsCreate(s.calls, i) ensures IsCreate(s'.calls, i) {
      CreateContinues(s, a, i);
    }
    forall i: nat, id, parsed | i < |s.calls| && IsSaveOf(s.calls, i, id, parsed)
      ensures IsSaveOf(s'.calls, i, id, parsed)
    {
      SaveContinues(s, a, i, id, parsed);
    }
    forall i: nat, id | i < |s.calls| && id in s.db.logs && IsFailOf(s, i, id) ensures IsFailOf(s', i, id) {
      FailContinues(s, a, i, id);
    }
  }

  lemma ClientsStay(sys: System, repo': State)
    requires SysInv(sys) && Continues(sys.repo, repo')
    ensures forall k | 0 <= k < |sys.clients| :: ClientOK(repo', sys.clients[k])
  {
    forall k | 0 <= k < |sys.clients| ensures ClientOK(repo', sys.clients[k]) {
      ClientStays(sys.repo, repo', sys.clients[k]);
    }
  }

  lemma ReplyKeepsInv(sys: System, k: nat, received: bool, text: string)
    requires SysInv(sys) && k < |sys.clients| && Awaited(sys.clients[k]).Some?
    requires received ==> CanTake(sys.repo.calls, sys.clients[k])
    ensures var (repo, cl) := AfterReply(sys.repo, sys.clients[k], received, text);
      SysInv(System(repo, sys.clients[k := cl]))
  {
    hide DBInv, Evolves, Explained, NoSharedClaims;
    var cl := sys.clients[k];
    var (repo', cl') := AfterReply(sys.repo, cl, received, text);
    assert ClientOK(sys.repo, cl);
    if cl'.Failing? {
      IssueKeepsInv(sys.repo, FailReq(cl.logID, text));
      IssueContinues(sys.repo, FailReq(cl.logID, text));
      ClientsStay(sys, repo');
      ClientStays(sys.repo, repo', Parsing(cl.create, cl.logID));
    } else if received {
      assert CallOK(sys.repo.db, sys.repo.seqs, sys.repo.calls[Awaited(cl).value]);
    }
  }

  lemma IssuingKeepsInv(sys: System, k: nat, request: Call, cl': Client)
    requires SysInv(sys) && k < |sys.clients| && sys.clients[k].Parsing? && IsRequest(request)
    requires ClientOK(Issued(sys.repo, request), cl')
    ensures SysInv(System(Issued(sys.repo, request), sys.clients[k := cl']))
  {
    IssueKeepsInv(sys.repo, request);
    IssueContinues(sys.repo, request);
    ClientsStay(sys, Issued(sys.repo, request));
  }

  lemma MoveKeepsInv(sys: System, m: Move)
    requires SysInv(sys) && Allowed(sys, m)
    ensures SysInv(Advanced(sys, m))
  {
    match m {
      case Repository(a) =>
        StepInv(sys.repo, a);
        StepContinues(sys.repo, a);
        ClientsStay(sys, Do(sys.repo, a));
      case Start(path) =>
        IssueKeepsInv(sys.repo, CreateReq(Text.TrimSpace(path)));
        IssueContinues(sys.repo, CreateReq(Text.TrimSpace(path)));
        ClientsStay(sys, Issued(sys.repo, CreateReq(Text.TrimSpace(path))));
      case Take(k, text) => ReplyKeepsInv(sys, k, true, text);
      case Miss(k, text) => ReplyKeepsInv(sys, k, false, text);
      case Parses(k, parsed) =>
        var cl := sys.clients[k];
        assert ClientOK(sys.repo, cl);
        IssuingKeepsInv(sys, k, SaveReq(cl.logID, parsed), SavingLog(cl.create, cl.logID, parsed, |sys.repo.calls|));
      case ParseFails(k, text) =>
        var cl := sys.clients[k];
        assert ClientOK(sys.repo, cl);
        IssuingKeepsInv(sys, k, FailReq(cl.logID, text), Failing(cl.create, cl.logID, None, |sys.repo.calls|));
    }
  }

  // ---- Runs ----

  ghost predicate IsHistory(systems: seq<System>, moves: seq<Move>) {
    && |systems| == |moves| + 1
    && systems[0] == NOTHING
    && forall i | 0 <= i < |moves| :: Allowed(systems[i], moves[i]) && systems[i + 1] == Advanced(systems[i], moves[i])
  }

  lemma {:induction false} HistoryInv(systems: seq<System>, moves: seq<Move>, i: nat)
    requires IsHistory(systems, moves) && i < |systems|
    ensures SysInv(systems[i])
  {
    if i == 0 {
      InitialInv();
    } else {
      HistoryInv(systems, moves, i - 1);
      MoveKeepsInv(systems[i - 1], moves[i - 1]);
    }
  }

  lemma MoveEvolves(sys: System, m: Move)
    requires SysInv(sys) && Allowed(sys, m)
    ensures Evolves(sys.repo.db, Advanced(sys, m).repo.db)
  {
    if m.Repository? {
      StepEvolves(sys.repo, m.a);
    } else {
      ClientsWriteNothing(sys, m);
      StillTheSame(sys.repo.db);
    }
  }

  lemma ClientsWriteNothing(sys: System, m: Move)
    requires Allowed(sys, m) && !m.Repository?
    ensures Advanced(sys, m).repo.db == sys.repo.db
  {
  }

  lemma OneMoveEvolves(systems: seq<System>, moves: seq<Move>, i: nat)
    requires IsHistory(systems, moves) && i < |moves|
    ensures Evolves(systems[i].repo.db, systems[i + 1].repo.db)
  {
    HistoryInv(systems, moves, i);
    MoveEvolves(systems[i], moves[i]);
  }

  lemma HistoryEvolves(systems: seq<System>, moves: seq<Move>, i: nat, j: nat)
    requires IsHistory(systems, moves) && i <= j < |systems|
    ensures Evolves(systems[i].repo.db, systems[j].repo.db)
  {
    var ts := seq(|systems|, k requires 0 <= k < |systems| => systems[k].repo.db);
    forall k | 0 <= k < |ts| - 1 ensures Evolves(ts[k], ts[k + 1]) {
      OneMoveEvolves(systems, moves, k);
    }
    EvolvesAlong(ts, i, j);
  }

  /** The log a client saves, or tried to save. */
  function LogOf(cl: Client): Option<ParsedLog> {
    match cl
    case SavingLog(_, _, parsed, _) => Some(parsed)
    case Succeeded(_, _, parsed, _, _) => Some(parsed)
    case Failing(_, _, Some(attempt), _) => Some(attempt.parsed)
    case GaveUp(_, _, Some(attempt), _) => Some(attempt.parsed)
    case _ => None
  }

  /** What a client saves is what its parser gave it. */
  lemma {:induction false} SavesWhatItParsed(systems: seq<System>, moves: seq<Move>, i: nat, k: nat) returns (m: nat)
    requires IsHistory(systems, moves) && i < |systems| && k < |systems[i].clients|
    requires LogOf(systems[i].clients[k]).Some?
    ensures m < i && moves[m] == Parses(k, LogOf(systems[i].clients[k]).value)
  {
    hide Do, Enabled;
    if moves[i - 1] == Parses(k, LogOf(systems[i].clients[k]).value) {
      m := i - 1;
    } else {
      m := SavesWhatItParsed(systems, moves, i - 1, k);
    }
  }

  /**
   A successful `ParseLog` means that its log is parsed from then on, with just what its parser gave and its counts.
   */
  lemma SuccessIsForever(systems: seq<System>, moves: seq<Move>, i: nat, j: nat, k: nat) returns (m: nat)
    requires IsHistory(systems, moves) && i <= j < |systems|
    requires k < |systems[i].clients| && systems[i].clients[k].Succeeded?
    ensures m < i && moves[m].Parses? && moves[m].k == k
    ensures Stored(systems[j].repo.db, systems[i].clients[k].logID, moves[m].parsed)
    ensures systems[i].clients[k].counts == CountsOf(moves[m].parsed)
  {
    var cl, repo := systems[i].clients[k], systems[i].repo;
    m := SavesWhatItParsed(systems, moves, i, k);
    HistoryInv(systems, moves, i);
    assert ClientOK(repo, cl);
    assert CallOK(repo.db, repo.seqs, repo.calls[cl.save]);
    HistoryEvolves(systems, moves, i, j);
    StoredStays(repo.db, systems[j].repo.db, cl.logID, cl.parsed);
  }

  predicate Quiet(sys: System) {
    && (forall c | 0 <= c < |sys.repo.calls| :: IsDone(sys.repo.calls[c]))
    && (forall k | 0 <= k < |sys.clients| :: IsOver(sys.clients[k]))
  }

  /** The client never learnt its log's id, or its `FailLog` had no effect. */
  predicate LostTrack(repo: State, cl: Client, id: int) {
    || cl.Abandoned?
    || (cl.GaveUp? && cl.logID == id && cl.fail < |repo.calls| &&
        repo.calls[cl.fail] == FailDone(id, false, Err(Unavailable)))
  }

  /**
   Once all calls have returned, a log that is still processing was created by a call whose client, if it is a
   `ParseLog` at all, lost the reply, or called `FailLog` without effect.
   */
  lemma ProcessingIsExplained(systems: seq<System>, moves: seq<Move>, i: nat, id: int) returns (c: nat)
    requires IsHistory(systems, moves) && i < |systems|
    requires Quiet(systems[i]) && IsProcessing(systems[i].repo.db.logs, id)
    ensures c < |systems[i].repo.calls|
    ensures systems[i].repo.calls[c].CreateDone? && systems[i].repo.calls[c].created == Some(id)
    ensures forall k | 0 <= k < |systems[i].clients| && systems[i].clients[k].create == c ::
      LostTrack(systems[i].repo, systems[i].clients[k], id)
  {
    var sys := systems[i];
    HistoryInv(systems, moves, i);
    assert Claimed(sys.repo.calls, Creates(id));
    c :| c < |sys.repo.calls| && ClaimOf(sys.repo.calls[c]) == Some(Creates(id));
    forall k | 0 <= k < |sys.clients| && sys.clients[k].create == c ensures LostTrack(sys.repo, sys.clients[k], id) {
      OverClient(sys, k, id);
    }
  }

  lemma OverClient(sys: System, k: nat, id: int)
    requires SysInv(sys) && Quiet(sys) && IsProcessing(sys.repo.db.logs, id) && k < |sys.clients|
    requires sys.clients[k].create < |sys.repo.calls|
    requires ClaimOf(sys.repo.calls[sys.clients[k].create]) == Some(Creates(id))
    ensures LostTrack(sys.repo, sys.clients[k], id)
  {
    var cl := sys.clients[k];
    assert ClientOK(sys.repo, cl) && IsOver(cl);
    SucceededIsParsed(sys, k);
    assert cl.GaveUp? ==> IsDone(sys.repo.calls[cl.fail]);
  }

  lemma SucceededIsParsed(sys: System, k: nat)
    requires SysInv(sys) && k < |sys.clients|
    ensures sys.clients[k].Succeeded? ==> IsParsed(sys.repo.db.logs, sys.clients[k].logID)
  {
    var cl := sys.clients[k];
    assert ClientOK(sys.repo, cl);
    assert cl.Succeeded? ==> CallOK(sys.repo.db, sys.repo.seqs, sys.repo.calls[cl.save]);
  }

  /** After an error the log is terminal, or the client's own `FailLog` is under way or had no effect. */
  lemma ErrorOutcome(systems: seq<System>, moves: seq<Move>, i: nat, k: nat)
    requires IsHistory(systems, moves) && i < |systems| && k < |systems[i].clients| && systems[i].clients[k].GaveUp?
    ensures var cl := systems[i].clients[k]; var repo := systems[i].repo;
      && cl.fail < |repo.calls| && cl.logID in repo.db.logs
      && (IsDone(repo.calls[cl.fail]) ==>
        IsTerminal(repo.db.logs, cl.logID) || repo.calls[cl.fail] == FailDone(cl.logID, false, Err(Unavailable)))
      && (Wins(repo.calls[cl.fail], cl.logID) ==> repo.db.logs[cl.logID].status.Failed?)
      && (repo.calls[cl.fail].FailDone? && repo.calls[cl.fail].failed == Err(InvalidStatus(Parsed)) ==>
        IsParsed(repo.db.logs, cl.logID))
  {
    HistoryInv(systems, moves, i);
    var cl, repo := systems[i].clients[k], systems[i].repo;
    assert ClientOK(repo, cl);
    assert CallOK(repo.db, repo.seqs, repo.calls[cl.fail]);
  }

  predicate IsAbout(call: Call, id: int) {
    match call
    case SaveReq(i, _) => i == id
    case Saving(sv) => sv.logID == id
    case SaveDone(i, _, _, _) => i == id
    case FailReq(i, _) => i == id
    case FailWaiting(i, _) => i == id
    case FailMissed(i, _) => i == id
    case FailDone(i, _, _) => i == id
    case _ => false
  }

  /** Nobody but the client itself tried to save or fail its log. */
  predicate IsLeftAlone(repo: State, cl: Client)
    requires cl.GaveUp?
  {
    forall c | 0 <= c < |repo.calls| && IsAbout(repo.calls[c], cl.logID) ::
      c == cl.fail || (cl.attempt.Some? && c == cl.attempt.value.save)
  }

  /** The client's own calls have ended, whether or not it learnt how. */
  predicate HasEnded(repo: State, cl: Client)
    requires cl.GaveUp?
  {
    && cl.fail < |repo.calls| && IsDone(repo.calls[cl.fail])
    && (cl.attempt.Some? ==> cl.attempt.value.save < |repo.calls| && IsDone(repo.calls[cl.attempt.value.save]))
  }

  /**
   The outcome of an error by cause, answered or not, when nobody else meddles: parsed exactly if the client's own save
   took effect, failed exactly if its own `FailLog` did, and still processing exactly if neither did.
   */
  lemma ErrorOutcomeByCause(systems: seq<System>, moves: seq<Move>, i: nat, k: nat)
    requires IsHistory(systems, moves) && i < |systems| && k < |systems[i].clients| && systems[i].clients[k].GaveUp?
    requires HasEnded(systems[i].repo, systems[i].clients[k]) && IsLeftAlone(systems[i].repo, systems[i].clients[k])
    ensures var cl := systems[i].clients[k]; var repo := systems[i].repo;
      var saved := cl.attempt.Some? && Wins(repo.calls[cl.attempt.value.save], cl.logID);
      var failed := Wins(repo.calls[cl.fail], cl.logID);
      && cl.logID in repo.db.logs
      && (IsParsed(repo.db.logs, cl.logID) <==> saved)
      && (repo.db.logs[cl.logID].status.Failed? <==> failed)
      && (IsProcessing(repo.db.logs, cl.logID) <==> !saved && !failed)
      && (saved ==> Stored(repo.db, cl.logID, cl.attempt.value.parsed))
  {
    HistoryInv(systems, moves, i);
    var cl, repo := systems[i].clients[k], systems[i].repo;
    assert ClientOK(repo, cl);
    assert CallOK(repo.db, repo.seqs, repo.calls[cl.fail]);
    assert cl.attempt.Some? ==> CallOK(repo.db, repo.seqs, repo.calls[cl.attempt.value.save]);
    if IsTerminal(repo.db.logs, cl.logID) {
      assert Claimed(repo.calls, Finishes(cl.logID));
      var w :| 0 <= w < |repo.calls| && ClaimOf(repo.calls[w]) == Some(Finishes(cl.logID));
      assert IsAbout(repo.calls[w], cl.logID);
    }
  }

  /** After an error of the parser a client never tries to save. */
  lemma {:induction false} ParserErrorIsFinal(systems: seq<System>, moves: seq<Move>, m: nat, i: nat, k: nat)
    requires IsHistory(systems, moves) && m < i < |systems| && moves[m].ParseFails? && moves[m].k == k
    ensures k < |systems[i].clients|
    ensures var cl := systems[i].clients[k]; (cl.Failing? || cl.GaveUp?) && cl.attempt.None?
  {
    hide Do, Enabled;
    if m + 1 < i {
      ParserErrorIsFinal(systems, moves, m, i - 1, k);
    }
  }

  /** If nobody else meddles, an error of the parser leaves the log failed or, if `FailLog` had no effect, open. */
  lemma ParserErrorNeverLeavesParsed(systems: seq<System>, moves: seq<Move>, m: nat, i: nat, k: nat)
    requires IsHistory(systems, moves) && m < i < |systems| && moves[m].ParseFails? && moves[m].k == k
    requires k < |systems[i].clients| && systems[i].clients[k].GaveUp?
    requires HasEnded(systems[i].repo, systems[i].clients[k]) && IsLeftAlone(systems[i].repo, systems[i].clients[k])
    ensures var cl := systems[i].clients[k]; var repo := systems[i].repo;
      if Wins(repo.calls[cl.fail], cl.logID) then
        cl.logID in repo.db.logs && repo.db.logs[cl.logID].status.Failed?
      else IsProcessing(repo.db.logs, cl.logID)
  {
    ParserErrorIsFinal(systems, moves, m, i, k);
    ErrorOutcomeByCause(systems, moves, i, k);
  }

  /**
   Exactly when an error means failed: if the client's `FailLog` was answered, the answer decides. The log is failed
   if and only if the answer was success or "is failed", and parsed if and only if it was "is parsed".
   */
  lemma ErrorMeansFailedIff(systems: seq<System>, moves: seq<Move>, i: nat, k: nat, reply: Result<int, Error>)
    requires IsHistory(systems, moves) && i < |systems| && k < |systems[i].clients| && systems[i].clients[k].GaveUp?
    requires var cl := systems[i].clients[k];
      && cl.fail < |systems[i].repo.calls| && systems[i].repo.calls[cl.fail].FailDone?
      && reply == systems[i].repo.calls[cl.fail].failed
    requires reply != Err(Unavailable)
    ensures var cl := systems[i].clients[k]; var logs := systems[i].repo.db.logs;
      && cl.logID in logs
      && (logs[cl.logID].status.Failed? <==> reply.Ok? || reply == Err(InvalidStatus(Failed)))
      && (logs[cl.logID].status.Parsed? <==> reply == Err(InvalidStatus(Parsed)))
  {
    HistoryInv(systems, moves, i);
    assert ClientOK(systems[i].repo, systems[i].clients[k]);
  }

  // ---- The path of a client's log ----

  /** The create call of the client still asks for this path, or made a log that has it, or came to nothing. */
  predicate AsksFor(repo: State, cl: Client, path: string) {
    cl.create < |repo.calls| &&
    match repo.calls[cl.create]
    case CreateReq(p) => p == path
    case CreateDone(Some(id), _) => id in repo.db.logs && repo.db.logs[id].filePath == path
    case CreateDone(None, _) => true
    case _ => false
  }

  lemma StepKeepsAsking(s: State, a: Action, cl: Client, path: string)
    requires Inv(s) && Enabled(s, a) && AsksFor(s, cl, path)
    ensures AsksFor(Do(s, a), cl, path)
  {
    if s.calls[cl.create].CreateDone? && s.calls[cl.create].created.Some? {
      var id := s.calls[cl.create].created.value;
      StepEvolves(s, a);
      RowAfterStep(s, a, id);
      OtherCallsStay(s, a, cl.create);
    } else if a.Issue? || a.c != cl.create {
      OtherCallsStay(s, a, cl.create);
    }
  }

  lemma MoveKeepsAsking(sys: System, m: Move, k: nat, path: string)
    requires SysInv(sys) && Allowed(sys, m) && k < |sys.clients| && AsksFor(sys.repo, sys.clients[k], path)
    ensures k < |Advanced(sys, m).clients| && AsksFor(Advanced(sys, m).repo, Advanced(sys, m).clients[k], path)
  {
    hide DBInv, CallsOK, ClientOK, Effect;
    if m.Repository? {
      StepKeepsAsking(sys.repo, m.a, sys.clients[k], path);
    }
  }

  lemma StartAsks(sys: System, path: string)
    requires Allowed(sys, Start(path))
    ensures |Advanced(sys, Start(path)).clients| == |sys.clients| + 1
    ensures AsksFor(Advanced(sys, Start(path)).repo, Advanced(sys, Start(path)).clients[|sys.clients|],
                    Text.TrimSpace(path))
  {
  }

  lemma {:induction false} ClientAsksForItsPath(systems: seq<System>, moves: seq<Move>, m: nat, i: nat)
    requires IsHistory(systems, moves) && m < i < |systems| && moves[m].Start?
    ensures |systems[m].clients| < |systems[i].clients|
    ensures AsksFor(systems[i].repo, systems[i].clients[|systems[m].clients|], Text.TrimSpace(moves[m].path))
  {
    hide AsksFor, Advanced, Allowed, SysInv;
    if m + 1 == i {
      StartAsks(systems[m], moves[m].path);
    } else {
      ClientAsksForItsPath(systems, moves, m, i - 1);
      HistoryInv(systems, moves, i - 1);
      MoveKeepsAsking(systems[i - 1], moves[i - 1], |systems[m].clients|, Text.TrimSpace(moves[m].path));
    }
  }

  /** The log of a client has the path the client was started with, without the white space around it. */
  lemma ClientLogHasItsPath(systems: seq<System>, moves: seq<Move>, m: nat, i: nat, k: nat)
    requires IsHistory(systems, moves) && m < i < |systems| && moves[m].Start? && k == |systems[m].clients|
    ensures k < |systems[i].clients|
    ensures var cl, logs := systems[i].clients[k], systems[i].repo.db.logs;
      !cl.Creating? && !cl.Abandoned? ==>
        cl.logID in logs && logs[cl.logID].filePath == Text.TrimSpace(moves[m].path)
  {
    ClientAsksForItsPath(systems, moves, m, i);
    HistoryInv(systems, moves, i);
    assert ClientOK(systems[i].repo, systems[i].clients[k]);
  }

  // ---- An error need not mean failed ----

  lemma HistoryOf(sys: System, moves: seq<Move>, m: Move, systems: seq<System>) returns (next: seq<System>)
    requires IsHistory(systems, moves) && systems[|systems| - 1] == sys && Allowed(sys, m)
    ensures next == systems + [Advanced(sys, m)] && IsHistory(next, moves + [m])
  {
    next := systems + [Advanced(sys, m)];
    forall i | 0 <= i < |moves + [m]|
      ensures Allowed(next[i], (moves + [m])[i]) && next[i + 1] == Advanced(next[i], (moves + [m])[i])
    {
      assert i < |moves| ==> Allowed(systems[i], moves[i]) && systems[i + 1] == Advanced(systems[i], moves[i]);
    }
  }

  const NONE := ParsedLog([], [], [])
  const ONE_LOG := EMPTY.(logs := map[1 := FreshLog("x")])
  const ONE_DRAWN := UNDRAWN.(logs := 1)
  const CREATED := CreateDone(Some(1), Ok(1))
  const CLEARED := Begin(1, NONE).(cleared := true)
  const UPDATED := CLEARED.(updated := true)

  lemma NothingToDelete()
    ensures Advance(ONE_LOG, ONE_DRAWN, Begin(1, NONE)) == Next(CLEARED, ONE_DRAWN)
    ensures Advance(ONE_LOG, ONE_DRAWN, CLEARED) == Next(UPDATED, ONE_DRAWN)
    ensures Advance(ONE_LOG, ONE_DRAWN, UPDATED) == Ready
  {
    assert NodeIDs(ONE_LOG, 1) == {};
  }

  lemma UpToSave() returns (systems: seq<System>, moves: seq<Move>)
    ensures IsHistory(systems, moves)
    ensures systems[|moves|] ==
      System(State(ONE_LOG, ONE_DRAWN, [CREATED, SaveReq(1, NONE)]), [SavingLog(0, 1, NONE, 1)])
  {
    systems, moves := [NOTHING], [];
    systems := HistoryOf(NOTHING, moves, Start("x"), systems);
    moves := moves + [Start("x")];
    var sys := System(State(EMPTY, UNDRAWN, [CreateReq("x")]), [Creating(0)]);
    systems := HistoryOf(sys, moves, Repository(Create(0, true)), systems);
    moves := moves + [Repository(Create(0, true))];
    sys := System(State(ONE_LOG, ONE_DRAWN, [CREATED]), [Creating(0)]);
    systems := HistoryOf(sys, moves, Take(0, ""), systems);
    moves := moves + [Take(0, "")];
    sys := System(State(ONE_LOG, ONE_DRAWN, [CREATED]), [Parsing(0, 1)]);
    systems := HistoryOf(sys, moves, Parses(0, NONE), systems);
    moves := moves + [Parses(0, NONE)];
  }

  lemma UpToCommit() returns (systems: seq<System>, moves: seq<Move>)
    ensures IsHistory(systems, moves)
    ensures systems[|moves|] ==
      System(State(ONE_LOG, ONE_DRAWN, [CREATED, Saving(UPDATED)]), [SavingLog(0, 1, NONE, 1)])
  {
    NothingToDelete();
    systems, moves := UpToSave();
    var sys := System(State(ONE_LOG, ONE_DRAWN, [CREATED, SaveReq(1, NONE)]), [SavingLog(0, 1, NONE, 1)]);
    systems := HistoryOf(sys, moves, Repository(Lock(1)), systems);
    moves := moves + [Repository(Lock(1))];
    sys := System(State(ONE_LOG, ONE_DRAWN, [CREATED, Saving(Begin(1, NONE))]), [SavingLog(0, 1, NONE, 1)]);
    systems := HistoryOf(sys, moves, Repository(Statement(1)), systems);
    moves := moves + [Repository(Statement(1))];
    sys := System(State(ONE_LOG, ONE_DRAWN, [CREATED, Saving(CLEARED)]), [SavingLog(0, 1, NONE, 1)]);
    systems := HistoryOf(sys, moves, Repository(Statement(1)), systems);
    moves := moves + [Repository(Statement(1))];
  }

  /** The reply to the save is lost, and so is the call that should have failed the log: it ends up parsed. */
  lemma ErrorCanLeaveParsed() returns (systems: seq<System>, moves: seq<Move>)
    ensures IsHistory(systems, moves)
    ensures var sys := systems[|moves|];
      |sys.clients| == 1 && sys.clients[0].GaveUp? && IsParsed(sys.repo.db.logs, sys.clients[0].logID)
  {
    NothingToDelete();
    systems, moves := UpToCommit();
    var sys := System(State(ONE_LOG, ONE_DRAWN, [CREATED, Saving(UPDATED)]), [SavingLog(0, 1, NONE, 1)]);
    systems := HistoryOf(sys, moves, Repository(CommitSave(1, false)), systems);
    moves := moves + [Repository(CommitSave(1, false))];
    var saved, t := SaveDone(1, NONE, true, Err(Unavailable)), Commit(ONE_LOG, UPDATED);
    sys := System(State(t, ONE_DRAWN, [CREATED, saved]), [SavingLog(0, 1, NONE, 1)]);
    systems := HistoryOf(sys, moves, Take(0, ""), systems);
    moves := moves + [Take(0, "")];
    sys := System(State(t, ONE_DRAWN, [CREATED, saved, FailReq(1, "")]), [Failing(0, 1, Some(Attempt(NONE, 1)), 2)]);
    systems := HistoryOf(sys, moves, Miss(0, ""), systems);
    moves := moves + [Miss(0, "")];
  }
}
