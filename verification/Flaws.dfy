/** What is wrong with a log that cannot be saved, told from the log alone: its first flaw, row by row. */
module Flaws {
  import opened Domain
  import opened SaveProgram

  /** What the schema has against node `i` once the nodes before it are in. */
  function NodeFlaw(parsed: ParsedLog, i: nat): Option<Error>
    requires i < |parsed.nodes|
  {
    var node := parsed.nodes[i];
    if node.nodeGUID == "" then Some(EmptyGUID)
    else if exists j | 0 <= j < i :: parsed.nodes[j].nodeGUID == node.nodeGUID then Some(Constraint)
    else None
  }

  function InfoFlaw(parsed: ParsedLog, i: nat): Option<Error>
    requires i < |parsed.infos|
  {
    var info := parsed.infos[i];
    if info.nodeGUID == "" then Some(EmptyGUID)
    else if !HasGUID(parsed.nodes, info.nodeGUID) then Some(UnknownReference)
    else if exists j | 0 <= j < i :: parsed.infos[j].nodeGUID == info.nodeGUID then Some(Constraint)
    else None
  }

  function PortFlaw(parsed: ParsedLog, i: nat): Option<Error>
    requires i < |parsed.ports|
  {
    var port := parsed.ports[i];
    if port.nodeGUID == "" then Some(EmptyGUID)
    else if !HasGUID(parsed.nodes, port.nodeGUID) then Some(UnknownReference)
    else if exists j | 0 <= j < i :: !PortsDiffer(parsed.ports[j], port) then Some(Constraint)
    else None
  }

  function RowCount(parsed: ParsedLog): nat {
    |parsed.nodes| + |parsed.infos| + |parsed.ports|
  }

  /** All rows in the order in which they are inserted. */
  function RowFlaw(parsed: ParsedLog, k: nat): Option<Error>
    requires k < RowCount(parsed)
  {
    var n, m := |parsed.nodes|, |parsed.infos|;
    if k < n then NodeFlaw(parsed, k)
    else if k < n + m then InfoFlaw(parsed, k - n)
    else PortFlaw(parsed, k - n - m)
  }

  function FlawFrom(parsed: ParsedLog, k: nat): Option<Error>
    requires k <= RowCount(parsed)
    decreases RowCount(parsed) - k
  {
    if k == RowCount(parsed) then None
    else if RowFlaw(parsed, k).Some? then RowFlaw(parsed, k)
    else FlawFrom(parsed, k + 1)
  }

  function FirstFlaw(parsed: ParsedLog): Option<Error> {
    FlawFrom(parsed, 0)
  }

  ghost predicate CleanUpTo(parsed: ParsedLog, k: nat)
    requires k <= RowCount(parsed)
  {
    forall j: nat | j < k :: RowFlaw(parsed, j).None?
  }

  lemma {:induction false} CleanRowsAreSkipped(parsed: ParsedLog, i: nat, k: nat)
    requires i <= k <= RowCount(parsed) && CleanUpTo(parsed, k)
    ensures FlawFrom(parsed, i) == FlawFrom(parsed, k)
    decreases k - i
  {
    if i < k {
      CleanRowsAreSkipped(parsed, i + 1, k);
    }
  }

  lemma {:induction false} FlawComesFromARow(parsed: ParsedLog, i: nat) returns (k: nat)
    requires i <= RowCount(parsed) && FlawFrom(parsed, i).Some?
    ensures i <= k < RowCount(parsed) && RowFlaw(parsed, k) == FlawFrom(parsed, i)
    decreases RowCount(parsed) - i
  {
    k := i;
    if RowFlaw(parsed, i).None? {
      k := FlawComesFromARow(parsed, i + 1);
    }
  }

  lemma {:induction false} SomeFlawIsFirst(parsed: ParsedLog, i: nat, k: nat)
    requires i <= k < RowCount(parsed) && RowFlaw(parsed, k).Some?
    ensures FlawFrom(parsed, i).Some?
    decreases k - i
  {
    if i < k {
      SomeFlawIsFirst(parsed, i + 1, k);
    }
  }

  lemma SavableMeansClean(parsed: ParsedLog, k: nat)
    requires Savable(parsed) && k < RowCount(parsed)
    ensures RowFlaw(parsed, k).None?
  {
    var n, m := |parsed.nodes|, |parsed.infos|;
    assert !HasGUID(parsed.nodes, "");
    assert n <= k < n + m ==> HasGUID(parsed.nodes, parsed.infos[k - n].nodeGUID);
    assert n + m <= k ==> HasGUID(parsed.nodes, parsed.ports[k - n - m].nodeGUID);
  }

  lemma CleanMeansSavable(parsed: ParsedLog)
    requires CleanUpTo(parsed, RowCount(parsed))
    ensures Savable(parsed)
  {
    var n, m := |parsed.nodes|, |parsed.infos|;
    forall i | 0 <= i < n ensures parsed.nodes[i].nodeGUID != "" {
      assert RowFlaw(parsed, i).None?;
    }
    forall i, j | 0 <= i < j < n ensures parsed.nodes[i].nodeGUID != parsed.nodes[j].nodeGUID {
      assert RowFlaw(parsed, j).None?;
    }
    forall i | 0 <= i < m ensures HasGUID(parsed.nodes, parsed.infos[i].nodeGUID) {
      assert RowFlaw(parsed, n + i).None?;
    }
    forall i, j | 0 <= i < j < m ensures parsed.infos[i].nodeGUID != parsed.infos[j].nodeGUID {
      assert RowFlaw(parsed, n + j).None?;
    }
    forall i | 0 <= i < |parsed.ports| ensures HasGUID(parsed.nodes, parsed.ports[i].nodeGUID) {
      assert RowFlaw(parsed, n + m + i).None?;
    }
    forall i, j | 0 <= i < j < |parsed.ports| ensures PortsDiffer(parsed.ports[i], parsed.ports[j]) {
      assert RowFlaw(parsed, n + m + j).None?;
    }
  }

  /** The row by row account agrees with the plain one: a log fits the schema exactly when no row has a flaw. */
  lemma SavableIffFlawless(parsed: ParsedLog)
    ensures Savable(parsed) <==> FirstFlaw(parsed).None?
  {
    if Savable(parsed) && FirstFlaw(parsed).Some? {
      var k := FlawComesFromARow(parsed, 0);
      SavableMeansClean(parsed, k);
      assert false;
    }
    if FirstFlaw(parsed).None? {
      if k: nat :| k < RowCount(parsed) && RowFlaw(parsed, k).Some? {
        SomeFlawIsFirst(parsed, 0, k);
      }
      CleanMeansSavable(parsed);
    }
  }

  /** A flaw after rows without one is the first flaw. */
  lemma FlawAfterCleanRows(parsed: ParsedLog, k: nat)
    requires k < RowCount(parsed) && CleanUpTo(parsed, k) && RowFlaw(parsed, k).Some?
    ensures FirstFlaw(parsed) == RowFlaw(parsed, k) && !Savable(parsed)
  {
    CleanRowsAreSkipped(parsed, 0, k);
    SavableIffFlawless(parsed);
  }
}
