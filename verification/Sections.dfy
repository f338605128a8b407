/** `splitDBCSVSections`: rows between START_ and END_ markers become named sections of records. */
module Sections {
  import opened Domain
  import Text

  type Row = seq<string>
  type Record = map<string, string>

  datatype Section = Section(name: string, records: seq<Record>)

  datatype Error =
    | UnexpectedEnd(cell: string)
    | MismatchedEnd(endName: string, open: string)
    | Malformed(section: string, extra: string)
    | NotClosed(section: string)

  const START := "START_"
  const END := "END_"

  // ---- Rows ----

  /** `normalizeSectionMarker`. */
  function Marker(cell: string): string {
    Text.ToUpper(Text.Trim(Text.TrimSpace(cell), Text.IsQuote))
  }

  datatype Kind = Start(name: string) | End(name: string) | Plain

  function KindOf(row: Row): Kind {
    if row == [] then Plain
    else
      var marker := Marker(row[0]);
      if START <= marker then Start(Text.ToLower(marker[|START|..]))
      else if END <= marker then End(Text.ToLower(marker[|END|..]))
      else Plain
  }

  /** `isDBCSVMetaRow`. */
  predicate IsMeta(row: Row) {
    row == [] ||
    var first := Text.ToLower(Text.TrimSpace(row[0]));
    first == "" || first == "comment" || first == "comments" || "#" <= first
  }

  // ---- Records ----

  /** The columns before `n`, entered one after the other. */
  function Columns(header: Row, row: Row, n: nat): Record
    requires n <= |header|
  {
    if n == 0 then map[]
    else
      var before := Columns(header, row, n - 1);
      var key := Text.TrimSpace(header[n - 1]);
      if |row| < n || key == "" then before else before[key := Text.TrimSpace(row[n - 1])]
  }

  /** The first cell from `i` on that is not blank, if any. */
  function FirstExtra(row: Row, i: nat): Option<string>
    requires i <= |row|
    decreases |row| - i
  {
    if i == |row| then None
    else if Text.TrimSpace(row[i]) != "" then Some(row[i])
    else FirstExtra(row, i + 1)
  }

  function ExtraCell(header: Row, row: Row): Option<string> {
    if |row| <= |header| then None else FirstExtra(row, |header|)
  }

  function ToRecord(header: Row, row: Row): Result<Record, string> {
    match ExtraCell(header, row)
    case Some(cell) => Err(cell)
    case None => Ok(Columns(header, row, |header|))
  }

  method RowToRecord(header: Row, row: Row) returns (r: Result<Record, string>)
    ensures r == ToRecord(header, row)
  {
    var rec: Record := map[];
    for i := 0 to |header|
      invariant rec == Columns(header, row, i)
    {
      if |row| <= i {
        continue;
      }
      var key, value := Text.TrimSpace(header[i]), Text.TrimSpace(row[i]);
      if key == "" {
        continue;
      }
      rec := rec[key := value];
    }
    var i := |header|;
    while i < |row|
      invariant |header| <= |row| ==> |header| <= i <= |row| && ExtraCell(header, row) == FirstExtra(row, i)
    {
      if Text.TrimSpace(row[i]) != "" {
        return Err(row[i]);
      }
      i := i + 1;
    }
    r := Ok(rec);
  }

  /** Column `i` of a row has a header and a name. */
  predicate Names(header: Row, row: Row, i: nat, key: string) {
    i < |header| && i < |row| && key != "" && Text.TrimSpace(header[i]) == key
  }

  /** Column `i` is the last of the first `n` with this name. */
  ghost predicate IsLast(header: Row, row: Row, n: nat, key: string, i: nat) {
    i < n && Names(header, row, i, key) && forall j: nat | i < j < n :: !Names(header, row, j, key)
  }

  lemma StillLast(header: Row, row: Row, n: nat, key: string, i: nat)
    requires 0 < n && IsLast(header, row, n - 1, key, i) && !Names(header, row, n - 1, key)
    ensures IsLast(header, row, n, key, i)
  {
  }

  lemma {:induction false} ColumnsHaveNames(header: Row, row: Row, n: nat, key: string) returns (i: nat)
    requires n <= |header| && key in Columns(header, row, n)
    ensures IsLast(header, row, n, key, i)
  {
    hide Text.TrimSpace;
    if Names(header, row, n - 1, key) {
      i := n - 1;
    } else {
      i := ColumnsHaveNames(header, row, n - 1, key);
      StillLast(header, row, n, key, i);
    }
  }

  lemma {:induction false} LastColumnWins(header: Row, row: Row, n: nat, key: string, i: nat)
    requires n <= |header| && IsLast(header, row, n, key, i)
    ensures key in Columns(header, row, n) && Columns(header, row, n)[key] == Text.TrimSpace(row[i])
  {
    if i < n - 1 {
      assert !Names(header, row, n - 1, key);
      LastColumnWins(header, row, n - 1, key, i);
    }
  }

  lemma {:induction false} SomeColumnIsLast(header: Row, row: Row, n: nat, key: string, i: nat) returns (k: nat)
    requires i < n && Names(header, row, i, key)
    ensures IsLast(header, row, n, key, k)
    decreases n
  {
    if Names(header, row, n - 1, key) {
      k := n - 1;
    } else {
      k := SomeColumnIsLast(header, row, n - 1, key, i);
      StillLast(header, row, n, key, k);
    }
  }

  lemma {:induction false} FirstExtraMeaning(row: Row, i: nat)
    requires i <= |row|
    ensures FirstExtra(row, i).None? <==> forall j | i <= j < |row| :: Text.TrimSpace(row[j]) == ""
    decreases |row| - i
  {
    if i < |row| {
      FirstExtraMeaning(row, i + 1);
    }
  }

  /** No cell beyond the header says anything. */
  predicate Fits(header: Row, row: Row) {
    forall j | |header| <= j < |row| :: Text.TrimSpace(row[j]) == ""
  }

  /** A row becomes a record exactly when nothing non-blank lies beyond its header. */
  lemma RecordIffFits(header: Row, row: Row)
    ensures ToRecord(header, row).Ok? <==> Fits(header, row)
  {
    if |header| < |row| {
      FirstExtraMeaning(row, |header|);
    }
  }

  /** The record has the non-blank header names the row reaches, each with the trimmed cell of its last column. */
  lemma RecordMeaning(header: Row, row: Row, key: string)
    requires Fits(header, row)
    ensures ToRecord(header, row).Ok?
    ensures key in ToRecord(header, row).value <==> exists i: nat :: Names(header, row, i, key)
    ensures forall i: nat | IsLast(header, row, |header|, key, i) ::
      key in ToRecord(header, row).value && ToRecord(header, row).value[key] == Text.TrimSpace(row[i])
  {
    RecordIffFits(header, row);
    if key in Columns(header, row, |header|) {
      var i := ColumnsHaveNames(header, row, |header|, key);
    }
    if i: nat :| Names(header, row, i, key) {
      var k := SomeColumnIsLast(header, row, |header|, key, i);
      LastColumnWins(header, row, |header|, key, k);
    }
    forall i: nat | IsLast(header, row, |header|, key, i)
      ensures key in Columns(header, row, |header|) && Columns(header, row, |header|)[key] == Text.TrimSpace(row[i])
    {
      LastColumnWins(header, row, |header|, key, i);
    }
  }

  // ---- The splitter ----

  /** What the loop carries: no name means no section is open, no header means none was read yet. */
  datatype State = State(name: string, header: Row, records: seq<Record>, sections: seq<Section>)

  const INITIAL := State("", [], [], [])

  function Flush(s: State): State {
    State(s.name, [], [],
      if s.name == "" || s.records == [] then s.sections else s.sections + [Section(s.name, s.records)])
  }

  function Step(s: State, row: Row): Result<State, Error> {
    match KindOf(row)
    case Start(name) => Ok(Flush(s).(name := name))
    case End(name) =>
      if s.name == "" then Err(UnexpectedEnd(row[0]))
      else if name != s.name then Err(MismatchedEnd(name, s.name))
      else Ok(Flush(s).(name := ""))
    case Plain =>
      if s.name == "" || IsMeta(row) then Ok(s)
      else if s.header == [] then Ok(s.(header := row))
      else
        match ToRecord(s.header, row)
        case Err(cell) => Err(Malformed(s.name, cell))
        case Ok(rec) => Ok(if rec == map[] then s else s.(records := s.records + [rec]))
  }

  function Run(s: State, rows: seq<Row>): Result<State, Error>
    decreases |rows|
  {
    if rows == [] then Ok(s)
    else match Step(s, rows[0])
      case Err(e) => Err(e)
      case Ok(t) => Run(t, rows[1..])
  }

  function Finish(s: State): Result<seq<Section>, Error> {
    if s.name != "" then Err(NotClosed(s.name)) else Ok(Flush(s).sections)
  }

  function SplitFrom(s: State, rows: seq<Row>): Result<seq<Section>, Error> {
    match Run(s, rows)
    case Err(e) => Err(e)
    case Ok(t) => Finish(t)
  }

  function Split(rows: seq<Row>): Result<seq<Section>, Error> {
    SplitFrom(INITIAL, rows)
  }

  method FlushSection(name: string, records: seq<Record>, sections: seq<Section>) returns (out: seq<Section>)
    ensures out == Flush(State(name, [], records, sections)).sections
  {
    out := sections;
    if name == "" {
      return;
    }
    if |records| > 0 {
      out := sections + [Section(name, records)];
    }
  }

  method SplitSections(rows: seq<Row>) returns (r: Result<seq<Section>, Error>)
    ensures r == Split(rows)
  {
    var name, header, records, sections := "", [], [], [];
    for i := 0 to |rows|
      invariant Split(rows) == SplitFrom(State(name, header, records, sections), rows[i..])
    {
      var row := rows[i];
      assert rows[i..][1..] == rows[i + 1..];
      if |row| == 0 {
        continue;
      }
      var marker := Marker(row[0]);
      if START <= marker {
        sections := FlushSection(name, records, sections);
        header, records := [], [];
        name := Text.ToLower(marker[|START|..]);
        continue;
      }
      if END <= marker {
        if name == "" {
          return Err(UnexpectedEnd(row[0]));
        }
        var endName := Text.ToLower(marker[|END|..]);
        if endName != name {
          return Err(MismatchedEnd(endName, name));
        }
        sections := FlushSection(name, records, sections);
        header, records := [], [];
        name := "";
        continue;
      }
      if name == "" || IsMeta(row) {
        continue;
      }
      if header == [] {
        header := row;
        continue;
      }
      var rec := RowToRecord(header, row);
      if rec.Err? {
        return Err(Malformed(name, rec.error));
      }
      if |rec.value| > 0 {
        records := records + [rec.value];
      }
    }
    assert rows[|rows|..] == [];
    if name != "" {
      return Err(NotClosed(name));
    }
    sections := FlushSection(name, records, sections);
    r := Ok(sections);
  }
}
