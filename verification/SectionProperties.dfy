/** What the section splitter accepts, what it makes of it, and how splitting composes. */
module SectionProperties {
  import opened Domain
  import opened Sections
  import Text

  // ---- Composition ----

  lemma {:induction false} RunAppend(s: State, a: seq<Row>, b: seq<Row>)
    ensures Run(s, a + b) == match Run(s, a) case Err(e) => Err(e) case Ok(t) => Run(t, b)
    decreases |a|
  {
    if a == [] {
      assert a + b == b;
    } else {
      assert (a + b)[1..] == a[1..] + b;
      if Step(s, a[0]).Ok? {
        RunAppend(Step(s, a[0]).value, a[1..], b);
      }
    }
  }

  /** Sections already emitted are never looked at again. */
  function After(x: seq<Section>, s: State): State {
    s.(sections := x + s.sections)
  }

  lemma FlushAfter(x: seq<Section>, s: State)
    ensures Flush(After(x, s)) == After(x, Flush(s))
  {
    if s.name != "" && s.records != [] {
      assert (x + s.sections) + [Section(s.name, s.records)] == x + (s.sections + [Section(s.name, s.records)]);
    }
  }

  lemma StepAfter(x: seq<Section>, s: State, row: Row)
    ensures Step(After(x, s), row) == match Step(s, row) case Err(e) => Err(e) case Ok(t) => Ok(After(x, t))
  {
    FlushAfter(x, s);
  }

  lemma {:induction false} RunAfter(x: seq<Section>, s: State, rows: seq<Row>)
    ensures Run(After(x, s), rows) == match Run(s, rows) case Err(e) => Err(e) case Ok(t) => Ok(After(x, t))
    decreases |rows|
  {
    if rows != [] {
      StepAfter(x, s, rows[0]);
      if Step(s, rows[0]).Ok? {
        RunAfter(x, Step(s, rows[0]).value, rows[1..]);
      }
    }
  }

  /** With no section open there is no header and no record either; a header is never a meta row. */
  predicate Coherent(s: State) {
    && (s.name == "" ==> s.header == [] && s.records == [])
    && (s.header == [] ==> s.records == [])
    && (s.header != [] ==> !IsMeta(s.header))
  }

  lemma {:induction false} RunCoherent(s: State, rows: seq<Row>)
    requires Coherent(s)
    ensures Run(s, rows).Ok? ==> Coherent(Run(s, rows).value)
    decreases |rows|
  {
    if rows != [] && Step(s, rows[0]).Ok? {
      RunCoherent(Step(s, rows[0]).value, rows[1..]);
    }
  }

  /** Splitting composes: after an accepted input the splitter is as good as new. */
  lemma SplittingComposes(a: seq<Row>, b: seq<Row>)
    requires Split(a).Ok?
    ensures Split(a + b) == match Split(b) case Err(e) => Err(e) case Ok(sections) => Ok(Split(a).value + sections)
  {
    RunAppend(INITIAL, a, b);
    RunCoherent(INITIAL, a);
    var x := Split(a).value;
    assert Run(INITIAL, a).value == After(x, INITIAL);
    RunAfter(x, INITIAL, b);
    if Run(INITIAL, b).Ok? {
      FlushAfter(x, Run(INITIAL, b).value);
    }
  }

  /** A bad row stays bad, whatever follows; only an open section can still be mended. */
  lemma BadRowsStayBad(a: seq<Row>, b: seq<Row>)
    requires Split(a).Err? && !Split(a).error.NotClosed?
    ensures Split(a + b) == Split(a)
  {
    RunAppend(INITIAL, a, b);
  }

  lemma {:induction false} RowsNeverLeaveThingsOpen(s: State, rows: seq<Row>)
    ensures Run(s, rows).Err? ==> !Run(s, rows).error.NotClosed?
    decreases |rows|
  {
    if rows != [] && Step(s, rows[0]).Ok? {
      RowsNeverLeaveThingsOpen(Step(s, rows[0]).value, rows[1..]);
    }
  }

  /** A START closes the section that is open, just as the END of that section would have done. */
  lemma StartClosesLikeEnd(a: seq<Row>, start: Row, end: Row, b: seq<Row>)
    requires Split(a).Err? && Split(a).error.NotClosed?
    requires KindOf(start).Start? && KindOf(end) == End(Split(a).error.section)
    ensures Split(a + [start] + b) == Split(a + [end, start] + b)
  {
    RowsNeverLeaveThingsOpen(INITIAL, a);
    var s := Run(INITIAL, a).value;
    RunAppend(INITIAL, a + [start], b);
    RunAppend(INITIAL, a, [start]);
    RunAppend(INITIAL, a + [end, start], b);
    RunAppend(INITIAL, a, [end, start]);
    assert [end, start][1..] == [start];
    assert Run(s, [start]) == Run(s, [end, start]);
  }

  // ---- Acceptance, read off the rows ----

  /** The section open before row `i`: the one whose START is the nearest marker above. */
  function OpenAt(rows: seq<Row>, i: nat): string
    requires i <= |rows|
  {
    if i == 0 then ""
    else match KindOf(rows[i - 1])
      case Start(name) => name
      case End(_) => ""
      case Plain => OpenAt(rows, i - 1)
  }

  /** Row `i` belongs to a section and says something. */
  predicate IsContent(rows: seq<Row>, i: nat)
    requires i < |rows|
  {
    KindOf(rows[i]).Plain? && OpenAt(rows, i) != "" && !IsMeta(rows[i])
  }

  /** The header in force before row `i`: the first content row since the nearest marker above. */
  function HeaderAt(rows: seq<Row>, i: nat): Row
    requires i <= |rows|
  {
    if i == 0 || !KindOf(rows[i - 1]).Plain? then []
    else if HeaderAt(rows, i - 1) == [] && IsContent(rows, i - 1) then rows[i - 1]
    else HeaderAt(rows, i - 1)
  }

  /** Content below a header: a data row. Other content rows are headers. */
  predicate IsData(rows: seq<Row>, i: nat)
    requires i < |rows|
  {
    IsContent(rows, i) && HeaderAt(rows, i) != []
  }

  function ProblemAt(rows: seq<Row>, i: nat): Option<Error>
    requires i < |rows|
  {
    var open := OpenAt(rows, i);
    match KindOf(rows[i])
    case Start(_) => None
    case End(name) =>
      if open == "" then Some(UnexpectedEnd(rows[i][0]))
      else if name != open then Some(MismatchedEnd(name, open))
      else None
    case Plain =>
      if IsData(rows, i) then
        match ExtraCell(HeaderAt(rows, i), rows[i])
        case None => None
        case Some(cell) => Some(Malformed(open, cell))
      else None
  }

  ghost predicate NoProblemBefore(rows: seq<Row>, i: nat)
    requires i <= |rows|
  {
    forall j: nat | j < i :: ProblemAt(rows, j).None?
  }

  /** The records of the data rows before row `i`, in order. */
  function RecordsBefore(rows: seq<Row>, i: nat): seq<Record>
    requires i <= |rows|
  {
    if i == 0 then []
    else if IsData(rows, i - 1) then
      RecordsBefore(rows, i - 1) + [Columns(HeaderAt(rows, i - 1), rows[i - 1], |HeaderAt(rows, i - 1)|)]
    else RecordsBefore(rows, i - 1)
  }

  function RecordsOf(sections: seq<Section>): seq<Record> {
    if sections == [] then [] else RecordsOf(sections[..|sections| - 1]) + sections[|sections| - 1].records
  }

  /** The state after the first `i` rows, told without a state machine. */
  predicate IsStateAt(rows: seq<Row>, i: nat, s: State)
    requires i <= |rows|
  {
    && Coherent(s)
    && s.name == OpenAt(rows, i)
    && s.header == HeaderAt(rows, i)
    && RecordsOf(s.sections) + s.records == RecordsBefore(rows, i)
  }

  /** A record under a header that is not a meta row has at least the first column. */
  lemma RecordsAreNeverEmpty(header: Row, row: Row)
    requires !IsMeta(header) && row != []
    ensures Columns(header, row, |header|) != map[]
  {
    var key := Text.TrimSpace(header[0]);
    assert key != "";
    assert Names(header, row, 0, key);
    var k := SomeColumnIsLast(header, row, |header|, key, 0);
    LastColumnWins(header, row, |header|, key, k);
  }

  /** Flushing neither loses nor invents a record. */
  lemma FlushKeepsRecords(s: State)
    requires Coherent(s)
    ensures RecordsOf(Flush(s).sections) == RecordsOf(s.sections) + s.records
  {
    if s.records != [] {
      assert (s.sections + [Section(s.name, s.records)])[..|s.sections|] == s.sections;
    }
  }

  /** Flushing keeps the sections there are, and adds at most one: under the open name, and never empty. */
  lemma FlushAddsOneSection(s: State)
    requires Coherent(s)
    ensures s.sections <= Flush(s).sections && |Flush(s).sections| <= |s.sections| + 1
    ensures forall i | |s.sections| <= i < |Flush(s).sections| ::
      Flush(s).sections[i].name == s.name != "" && Flush(s).sections[i].records != []
  {
  }

  lemma MarkerAt(rows: seq<Row>, i: nat, s: State)
    requires i < |rows| && IsStateAt(rows, i, s) && !KindOf(rows[i]).Plain?
    ensures Step(s, rows[i]).Err? <==> ProblemAt(rows, i).Some?
    ensures ProblemAt(rows, i).Some? ==> Step(s, rows[i]) == Err(ProblemAt(rows, i).value)
    ensures ProblemAt(rows, i).None? ==> IsStateAt(rows, i + 1, Step(s, rows[i]).value)
  {
    hide KindOf, RecordsOf, IsMeta, Columns;
    FlushKeepsRecords(s);
  }

  lemma DataAt(rows: seq<Row>, i: nat, s: State)
    requires i < |rows| && IsStateAt(rows, i, s) && IsData(rows, i)
    ensures Step(s, rows[i]).Err? <==> ProblemAt(rows, i).Some?
    ensures ProblemAt(rows, i).Some? ==> Step(s, rows[i]) == Err(ProblemAt(rows, i).value)
    ensures ProblemAt(rows, i).None? ==> IsStateAt(rows, i + 1, Step(s, rows[i]).value)
  {
    if ExtraCell(s.header, rows[i]).None? {
      RecordsAreNeverEmpty(s.header, rows[i]);
      var rec := Columns(s.header, rows[i], |s.header|);
      assert RecordsOf(s.sections) + (s.records + [rec]) == RecordsOf(s.sections) + s.records + [rec];
    }
  }

  lemma OtherAt(rows: seq<Row>, i: nat, s: State)
    requires i < |rows| && IsStateAt(rows, i, s) && KindOf(rows[i]).Plain? && !IsData(rows, i)
    ensures Step(s, rows[i]).Ok? && ProblemAt(rows, i).None? && IsStateAt(rows, i + 1, Step(s, rows[i]).value)
  {
  }

  lemma StepAt(rows: seq<Row>, i: nat, s: State)
    requires i < |rows| && IsStateAt(rows, i, s)
    ensures Step(s, rows[i]).Err? <==> ProblemAt(rows, i).Some?
    ensures ProblemAt(rows, i).Some? ==> Step(s, rows[i]) == Err(ProblemAt(rows, i).value)
    ensures ProblemAt(rows, i).None? ==> IsStateAt(rows, i + 1, Step(s, rows[i]).value)
  {
    if !KindOf(rows[i]).Plain? {
      MarkerAt(rows, i, s);
    } else if IsData(rows, i) {
      DataAt(rows, i, s);
    } else {
      OtherAt(rows, i, s);
    }
  }

  lemma OneMoreRow(rows: seq<Row>, i: nat)
    requires i < |rows|
    ensures Run(INITIAL, rows[..i + 1]) ==
      match Run(INITIAL, rows[..i]) case Err(e) => Err(e) case Ok(s) => Step(s, rows[i])
  {
    assert rows[..i + 1] == rows[..i] + [rows[i]];
    RunAppend(INITIAL, rows[..i], [rows[i]]);
  }

  lemma {:induction false} StateAt(rows: seq<Row>, i: nat)
    requires i <= |rows| && NoProblemBefore(rows, i)
    ensures Run(INITIAL, rows[..i]).Ok? && IsStateAt(rows, i, Run(INITIAL, rows[..i]).value)
  {
    if i != 0 {
      StateAt(rows, i - 1);
      OneMoreRow(rows, i - 1);
      StepAt(rows, i - 1, Run(INITIAL, rows[..i - 1]).value);
    }
  }

  /** The first problem, if there is one, is the error; otherwise only an open section can be. */
  lemma FirstProblemIsTheError(rows: seq<Row>, i: nat)
    requires i <= |rows| && NoProblemBefore(rows, i)
    requires i < |rows| ==> ProblemAt(rows, i).Some?
    ensures i < |rows| ==> Split(rows) == Err(ProblemAt(rows, i).value)
    ensures i == |rows| && OpenAt(rows, i) != "" ==> Split(rows) == Err(NotClosed(OpenAt(rows, i)))
    ensures i == |rows| && OpenAt(rows, i) == "" ==>
      Split(rows).Ok? && RecordsOf(Split(rows).value) == RecordsBefore(rows, i)
  {
    StateAt(rows, i);
    var s := Run(INITIAL, rows[..i]).value;
    assert rows == rows[..i] + rows[i..];
    RunAppend(INITIAL, rows[..i], rows[i..]);
    if i < |rows| {
      StepAt(rows, i, s);
    } else {
      FlushKeepsRecords(s);
    }
  }

  lemma {:induction false} FirstProblem(rows: seq<Row>, n: nat) returns (i: nat)
    requires n <= |rows|
    ensures i <= n && NoProblemBefore(rows, i)
    ensures i < n ==> ProblemAt(rows, i).Some?
  {
    i := 0;
    while i < n && ProblemAt(rows, i).None?
      invariant i <= n && NoProblemBefore(rows, i)
    {
      i := i + 1;
    }
  }

  /** What a well-bracketed input is. */
  ghost predicate Accepted(rows: seq<Row>) {
    && (forall i: nat | i < |rows| && KindOf(rows[i]).End? ::
      OpenAt(rows, i) != "" && KindOf(rows[i]).name == OpenAt(rows, i))
    && (forall i: nat | i < |rows| && IsData(rows, i) :: Fits(HeaderAt(rows, i), rows[i]))
    && OpenAt(rows, |rows|) == ""
  }

  lemma ProblemIff(rows: seq<Row>, i: nat)
    requires i < |rows|
    ensures ProblemAt(rows, i).None? <==>
      && (KindOf(rows[i]).End? ==> OpenAt(rows, i) != "" && KindOf(rows[i]).name == OpenAt(rows, i))
      && (IsData(rows, i) ==> Fits(HeaderAt(rows, i), rows[i]))
  {
    RecordIffFits(HeaderAt(rows, i), rows[i]);
  }

  /**
   The splitter accepts exactly the inputs in which every END names the open section, no data row has a
   non-blank cell beyond its header, and no section is open at the end.
   */
  lemma AcceptanceIff(rows: seq<Row>)
    ensures Split(rows).Ok? <==> Accepted(rows)
  {
    var i := FirstProblem(rows, |rows|);
    FirstProblemIsTheError(rows, i);
    if i < |rows| {
      ProblemIff(rows, i);
    } else {
      forall j: nat | j < |rows|
        ensures KindOf(rows[j]).End? ==> OpenAt(rows, j) != "" && KindOf(rows[j]).name == OpenAt(rows, j)
        ensures IsData(rows, j) ==> Fits(HeaderAt(rows, j), rows[j])
      {
        ProblemIff(rows, j);
      }
    }
  }

  /** Every data row becomes exactly one record, in order, and there are no other records. */
  lemma RowsAreConserved(rows: seq<Row>)
    requires Split(rows).Ok?
    ensures RecordsOf(Split(rows).value) == RecordsBefore(rows, |rows|)
  {
    var i := FirstProblem(rows, |rows|);
    FirstProblemIsTheError(rows, i);
  }
}
