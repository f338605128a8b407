/** What the rows of a `db_csv` file mean to the splitter, told by their cells. */
module SectionMeaning {
  import opened Domain
  import opened Sections
  import opened SectionProperties
  import Text

  // ---- Words in any case ----

  /** The word, each letter in either case. */
  predicate IsWord(s: string, lower: string, upper: string) {
    |s| == |lower| == |upper| && forall i | 0 <= i < |s| :: s[i] == lower[i] || s[i] == upper[i]
  }

  lemma LowerCaseIsWord(s: string, lower: string, upper: string)
    requires |lower| == |upper|
    requires forall i, c: char | 0 <= i < |lower| :: Text.LowerChar(c) == lower[i] <==> c == lower[i] || c == upper[i]
    ensures Text.ToLower(s) == lower <==> IsWord(s, lower, upper)
  {
    forall i | 0 <= i < |s| ensures |Text.ToLower(s)| == |s| && Text.ToLower(s)[i] == Text.LowerChar(s[i]) {
      Text.CaseCharByChar(s, i);
    }
    assert s == [] ==> Text.ToLower(s) == [];
  }

  lemma UpperCaseIsWord(s: string, lower: string, upper: string)
    requires |lower| == |upper|
    requires forall i, c: char | 0 <= i < |upper| :: Text.UpperChar(c) == upper[i] <==> c == lower[i] || c == upper[i]
    ensures Text.ToUpper(s) == upper <==> IsWord(s, lower, upper)
  {
    forall i | 0 <= i < |s| ensures |Text.ToUpper(s)| == |s| && Text.ToUpper(s)[i] == Text.UpperChar(s[i]) {
      Text.CaseCharByChar(s, i);
    }
    assert s == [] ==> Text.ToUpper(s) == [];
  }

  // ---- Silent rows ----

  /** The row is empty, or its first cell is blank, a comment, or one of the words "comment" and "comments". */
  predicate IsSilent(row: Row) {
    row == [] ||
    var cell := Text.TrimSpace(row[0]);
    cell == "" || cell[0] == '#' || IsWord(cell, "comment", "COMMENT") || IsWord(cell, "comments", "COMMENTS")
  }

  lemma SilentIffMeta(row: Row)
    ensures IsSilent(row) <==> IsMeta(row)
  {
    if row != [] {
      var cell := Text.TrimSpace(row[0]);
      LowerCaseIsWord(cell, "comment", "COMMENT");
      LowerCaseIsWord(cell, "comments", "COMMENTS");
      if cell != "" {
        Text.CaseCharByChar(cell, 0);
      }
    }
  }

  lemma FirstLetterStays(cell: string)
    requires cell != "" && !Text.IsQuote(cell[0])
    ensures var core := Text.Trim(cell, Text.IsQuote);
      core != "" && core[0] == cell[0] && Text.ToUpper(core) != "" && Text.ToUpper(core)[0] == Text.UpperChar(cell[0])
  {
    var i, j := Text.TrimMeaning(cell, Text.IsQuote);
    assert i == 0 < j;
    Text.CaseCharByChar(Text.Trim(cell, Text.IsQuote), 0);
  }

  lemma SilentIsPlain(row: Row)
    requires IsSilent(row)
    ensures KindOf(row).Plain?
  {
    if row != [] {
      var cell := Text.TrimSpace(row[0]);
      if cell != "" {
        assert cell[0] in {'#', 'c', 'C'};
        FirstLetterStays(cell);
        assert Marker(row[0])[0] in {'#', 'C'};
        assert START[0] == 'S' && END[0] == 'E';
      } else {
        assert Text.TrimLeft("", Text.IsQuote) == "";
      }
    }
  }

  /** Silent rows can be put anywhere and change nothing, not even an error. */
  lemma SilentRowsGoAnywhere(a: seq<Row>, row: Row, b: seq<Row>)
    requires IsSilent(row)
    ensures Split(a + [row] + b) == Split(a + b)
  {
    SilentIffMeta(row);
    SilentIsPlain(row);
    assert a + [row] + b == a + ([row] + b);
    RunAppend(INITIAL, a, [row] + b);
    RunAppend(INITIAL, a, b);
    if Run(INITIAL, a).Ok? {
      var s := Run(INITIAL, a).value;
      assert Step(s, row) == Ok(s) && ([row] + b)[0] == row && ([row] + b)[1..] == b;
    }
  }

  // ---- Markers ----

  /** The first cell without surrounding white space and then without surrounding quotes. */
  function Core(row: Row): string
    requires row != []
  {
    Text.Trim(Text.TrimSpace(row[0]), Text.IsQuote)
  }

  predicate BeginsWith(s: string, lower: string, upper: string) {
    |lower| <= |s| && IsWord(s[..|lower|], lower, upper)
  }

  lemma UpperPrefix(s: string, lower: string, upper: string)
    requires |lower| == |upper|
    requires forall i, c: char | 0 <= i < |upper| :: Text.UpperChar(c) == upper[i] <==> c == lower[i] || c == upper[i]
    ensures upper <= Text.ToUpper(s) <==> BeginsWith(s, lower, upper)
    ensures BeginsWith(s, lower, upper) ==>
      Text.ToLower(Text.ToUpper(s)[|upper|..]) == Text.ToLower(s[|upper|..])
  {
    if |lower| <= |s| {
      var head, tail := s[..|lower|], s[|lower|..];
      UpperCaseIsWord(head, lower, upper);
      Text.UpperTwice(tail);
      Text.UpperAppend(head, tail);
      assert s == head + tail;
      if head != [] {
        Text.CaseCharByChar(head, 0);
      }
      assert |Text.ToUpper(head)| == |head|;
    } else if s != [] {
      Text.CaseCharByChar(s, 0);
    }
  }

  /** A row is a marker by its first cell alone: "start_" or "end_" in any case, and what follows is the name. */
  lemma MarkerMeaning(row: Row)
    requires row != []
    ensures KindOf(row) ==
      if BeginsWith(Core(row), "start_", "START_") then Start(Text.ToLower(Core(row)[6..]))
      else if BeginsWith(Core(row), "end_", "END_") then End(Text.ToLower(Core(row)[4..]))
      else Plain
  {
    UpperPrefix(Core(row), "start_", "START_");
    UpperPrefix(Core(row), "end_", "END_");
  }

  // ---- A section ----

  /** A row that is neither a marker nor silent. */
  predicate Speaks(row: Row) {
    KindOf(row).Plain? && !IsSilent(row)
  }

  /** The record has the named columns of the header that the row reaches, each with the last such cell, trimmed. */
  ghost predicate IsRecordOf(rec: Record, header: Row, row: Row) {
    && (forall key :: key in rec <==> exists i: nat :: Names(header, row, i, key))
    && (forall key, i: nat | IsLast(header, row, |header|, key, i) :: key in rec && rec[key] == Text.TrimSpace(row[i]))
  }

  ghost predicate AreRecordsOf(records: seq<Record>, header: Row, rows: seq<Row>) {
    |records| == |rows| && forall k | 0 <= k < |rows| :: IsRecordOf(records[k], header, rows[k])
  }

  lemma FittingRowIsRecord(header: Row, row: Row)
    requires Fits(header, row)
    ensures ToRecord(header, row).Ok? && IsRecordOf(ToRecord(header, row).value, header, row)
  {
    RecordIffFits(header, row);
    forall key
      ensures key in ToRecord(header, row).value <==> exists i: nat :: Names(header, row, i, key)
      ensures forall i: nat | IsLast(header, row, |header|, key, i) ::
        key in ToRecord(header, row).value && ToRecord(header, row).value[key] == Text.TrimSpace(row[i])
    {
      RecordMeaning(header, row, key);
    }
  }

  lemma RowAddsRecord(s: State, row: Row)
    requires s.name != "" && s.header != [] && !IsMeta(s.header) && Speaks(row) && Fits(s.header, row)
    ensures ToRecord(s.header, row).Ok?
    ensures Step(s, row) == Ok(s.(records := s.records + [ToRecord(s.header, row).value]))
  {
    SilentIffMeta(row);
    RecordIffFits(s.header, row);
    RecordsAreNeverEmpty(s.header, row);
  }

  lemma OneMoreRecord(rec: Record, rest: seq<Record>, header: Row, rows: seq<Row>)
    requires rows != [] && IsRecordOf(rec, header, rows[0]) && AreRecordsOf(rest, header, rows[1..])
    ensures AreRecordsOf([rec] + rest, header, rows)
  {
    hide IsRecordOf;
    forall k | 0 <= k < |rows| ensures IsRecordOf(([rec] + rest)[k], header, rows[k]) {
      assert 0 < k ==> rows[k] == rows[1..][k - 1] && ([rec] + rest)[k] == rest[k - 1];
    }
  }

  lemma {:induction false} RowsAddRecords(s: State, rows: seq<Row>) returns (more: seq<Record>)
    requires s.name != "" && s.header != [] && !IsMeta(s.header)
    requires forall row | row in rows :: Speaks(row) && Fits(s.header, row)
    ensures AreRecordsOf(more, s.header, rows)
    ensures Run(s, rows) == Ok(s.(records := s.records + more))
    decreases |rows|
  {
    hide IsRecordOf, Speaks, Fits, Step, ToRecord, IsMeta;
    if rows == [] {
      more := [];
      assert s.records + [] == s.records;
    } else {
      assert rows[0] in rows;
      RowAddsRecord(s, rows[0]);
      FittingRowIsRecord(s.header, rows[0]);
      var rec := ToRecord(s.header, rows[0]).value;
      var rest := RowsAddRecords(s.(records := s.records + [rec]), rows[1..]);
      OneMoreRecord(rec, rest, s.header, rows);
      more := [rec] + rest;
      assert s.records + [rec] + rest == s.records + more;
    }
  }

  /**
   The first row below a named START that speaks is the header; each fitting row after it that speaks gives one record
   under it. Silent rows can be added anywhere, and the whole can follow anything accepted.
   */
  lemma SectionIsRead(start: Row, header: Row, rows: seq<Row>, end: Row)
    requires KindOf(start).Start? && KindOf(start).name != "" && KindOf(end) == End(KindOf(start).name)
    requires Speaks(header) && rows != [] && forall row | row in rows :: Speaks(row) && Fits(header, row)
    ensures Split([start, header] + rows + [end]).Ok?
    ensures var sections := Split([start, header] + rows + [end]).value;
      |sections| == 1 && sections[0].name == KindOf(start).name && AreRecordsOf(sections[0].records, header, rows)
  {
    SilentIffMeta(header);
    var s := State(KindOf(start).name, header, [], []);
    assert [start, header] == [start] + [header];
    assert [start][1..] == [] && [header][1..] == [];
    assert Run(INITIAL, [start]) == Ok(s.(header := []));
    assert Run(s.(header := []), [header]) == Ok(s);
    RunAppend(INITIAL, [start], [header]);
    var records := RowsAddRecords(s, rows);
    RunAppend(INITIAL, [start, header], rows);
    RunAppend(INITIAL, [start, header] + rows, [end]);
    var t := s.(records := [] + records);
    assert [end][1..] == [] && Run(t, [end]) == Step(t, end);
    assert [] + records == records;
  }

  /** A malformed row is reported with the first cell that has no header and is not blank. */
  lemma {:induction false} FirstExtraIsFirst(row: Row, i: nat) returns (j: nat)
    requires i <= |row| && FirstExtra(row, i).Some?
    ensures i <= j < |row| && FirstExtra(row, i) == Some(row[j]) && Text.TrimSpace(row[j]) != ""
    ensures forall k | i <= k < j :: Text.TrimSpace(row[k]) == ""
    decreases |row| - i
  {
    j := i;
    if Text.TrimSpace(row[i]) == "" {
      j := FirstExtraIsFirst(row, i + 1);
    }
  }

  lemma MalformedCell(header: Row, row: Row) returns (j: nat)
    requires !Fits(header, row)
    ensures |header| <= j < |row| && ToRecord(header, row) == Err(row[j]) && Text.TrimSpace(row[j]) != ""
    ensures forall k | |header| <= k < j :: Text.TrimSpace(row[k]) == ""
  {
    RecordIffFits(header, row);
    j := FirstExtraIsFirst(row, |header|);
  }

  /** What the error says is true of the first row with a problem, or of the end. */
  ghost predicate IsCause(rows: seq<Row>, i: nat, e: Error)
    requires i <= |rows|
  {
    match e
    case UnexpectedEnd(cell) =>
      i < |rows| && KindOf(rows[i]).End? && OpenAt(rows, i) == "" && rows[i] != [] && cell == rows[i][0]
    case MismatchedEnd(name, open) =>
      i < |rows| && KindOf(rows[i]) == End(name) && OpenAt(rows, i) == open && open != "" && name != open
    case Malformed(open, cell) =>
      i < |rows| && OpenAt(rows, i) == open && IsData(rows, i) &&
      exists j: nat :: IsFirstExtra(HeaderAt(rows, i), rows[i], j) && cell == rows[i][j]
    case NotClosed(open) => i == |rows| && OpenAt(rows, i) == open && open != ""
  }

  predicate IsFirstExtra(header: Row, row: Row, j: nat) {
    && |header| <= j < |row| && Text.TrimSpace(row[j]) != ""
    && forall k | |header| <= k < j :: Text.TrimSpace(row[k]) == ""
  }

  /** An error names its cause. */
  lemma ErrorsNameTheCause(rows: seq<Row>) returns (i: nat)
    requires Split(rows).Err?
    ensures i <= |rows| && NoProblemBefore(rows, i) && IsCause(rows, i, Split(rows).error)
  {
    i := FirstProblem(rows, |rows|);
    FirstProblemIsTheError(rows, i);
    if i < |rows| && IsData(rows, i) {
      ProblemIff(rows, i);
      var j := MalformedCell(HeaderAt(rows, i), rows[i]);
      assert IsFirstExtra(HeaderAt(rows, i), rows[i], j);
    }
  }
}
