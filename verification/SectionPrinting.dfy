/** Sections as blocks of the input, and the printer that splitting inverts. */
module SectionPrinting {
  import opened Domain
  import opened Seqs
  import opened Sections
  import opened SectionProperties
  import Text

  // ---- Blocks ----

  /** The rows up to the next marker. */
  function Body(rows: seq<Row>): seq<Row> {
    if rows == [] || !KindOf(rows[0]).Plain? then [] else [rows[0]] + Body(rows[1..])
  }

  function Content(rows: seq<Row>): seq<Row> {
    Filter(Body(rows), (row: Row) => !IsMeta(row))
  }

  /** The section a block makes: its first content row is the header, all others are records. */
  function SectionOf(name: string, content: seq<Row>): seq<Section> {
    if name == "" || |content| < 2 then []
    else
      var header, n := content[0], |content| - 1;
      [Section(name, seq(n, i requires 0 <= i < n => Columns(header, content[i + 1], |header|)))]
  }

  /** One section for every START with a name and at least one data row before the next marker. */
  function Blocks(rows: seq<Row>): seq<Section> {
    if rows == [] then []
    else match KindOf(rows[0])
      case Start(name) => SectionOf(name, Content(rows[1..])) + Blocks(rows[1..])
      case End(_) => Blocks(rows[1..])
      case Plain => Blocks(rows[1..])
  }

  /** The state in the middle of a block whose content so far is `content`. */
  predicate IsInside(s: State, content: seq<Row>) {
    && (forall row | row in content :: !IsMeta(row))
    && (s.name == "" ==> content == [])
    && s.header == (if content == [] then [] else content[0])
    && s.records == (if |content| < 2 then [] else SectionOf("any", content)[0].records)
  }

  lemma ContentStep(rows: seq<Row>)
    requires rows != [] && KindOf(rows[0]).Plain?
    ensures Content(rows) == if IsMeta(rows[0]) then Content(rows[1..]) else [rows[0]] + Content(rows[1..])
  {
    assert Body(rows)[1..] == Body(rows[1..]);
  }

  lemma FlushInside(s: State, content: seq<Row>)
    requires IsInside(s, content)
    ensures Flush(s).sections == s.sections + SectionOf(s.name, content)
  {
    if 2 <= |content| {
      assert SectionOf("any", content)[0].records != [];
    }
  }

  lemma InsideStep(s: State, content: seq<Row>, row: Row)
    requires IsInside(s, content) && KindOf(row).Plain? && s.name != "" && !IsMeta(row) && Step(s, row).Ok?
    ensures var t := Step(s, row).value;
      IsInside(t, content + [row]) && t.name == s.name && t.sections == s.sections
  {
    if content != [] {
      assert content[0] in content;
      RecordsAreNeverEmpty(content[0], row);
    }
  }

  lemma Regroup<T>(a: seq<T>, x: T, b: seq<T>)
    ensures a + ([x] + b) == (a + [x]) + b
  {
  }

  lemma SplitStep(s: State, rows: seq<Row>)
    requires rows != [] && SplitFrom(s, rows).Ok?
    ensures Step(s, rows[0]).Ok? && SplitFrom(Step(s, rows[0]).value, rows[1..]) == SplitFrom(s, rows)
  {
  }

  lemma MarkerStep(s: State, content: seq<Row>, row: Row)
    requires IsInside(s, content) && !KindOf(row).Plain? && Step(s, row).Ok?
    ensures var t := Step(s, row).value;
      && IsInside(t, []) && t.sections == s.sections + SectionOf(s.name, content)
      && t.name == if KindOf(row).Start? then KindOf(row).name else ""
  {
    FlushInside(s, content);
  }

  lemma BlocksStep(rows: seq<Row>)
    requires rows != []
    ensures Blocks(rows) ==
      (if KindOf(rows[0]).Start? then SectionOf(KindOf(rows[0]).name, Content(rows[1..])) else []) + Blocks(rows[1..])
  {
  }

  lemma MarkerEndsContent(rows: seq<Row>)
    requires rows == [] || !KindOf(rows[0]).Plain?
    ensures Content(rows) == []
  {
  }

  /** The sections that come out of the middle of a block, told from the block's content. */
  function Expected(s: State, content: seq<Row>, rows: seq<Row>): seq<Section> {
    s.sections + SectionOf(s.name, content + Content(rows)) + Blocks(rows)
  }

  lemma ExpectedAtEnd(s: State, content: seq<Row>)
    requires IsInside(s, content)
    ensures Flush(s).sections == Expected(s, content, [])
  {
    FlushInside(s, content);
    MarkerEndsContent([]);
    assert content + [] == content;
  }

  lemma ExpectedAtMarker(s: State, content: seq<Row>, rows: seq<Row>)
    requires IsInside(s, content) && rows != [] && !KindOf(rows[0]).Plain? && Step(s, rows[0]).Ok?
    ensures IsInside(Step(s, rows[0]).value, [])
    ensures Expected(Step(s, rows[0]).value, [], rows[1..]) == Expected(s, content, rows)
  {
    var t := Step(s, rows[0]).value;
    var emitted, next := SectionOf(s.name, content), SectionOf(t.name, Content(rows[1..]));
    MarkerStep(s, content, rows[0]);
    assert Expected(s, content, rows) == s.sections + emitted + (next + Blocks(rows[1..])) by {
      MarkerEndsContent(rows);
      assert content + [] == content;
      BlocksStep(rows);
    }
    assert Expected(t, [], rows[1..]) == s.sections + emitted + next + Blocks(rows[1..]) by {
      assert [] + Content(rows[1..]) == Content(rows[1..]);
    }
    Associate(s.sections + emitted, next, Blocks(rows[1..]));
  }

  lemma Associate<T>(a: seq<T>, b: seq<T>, c: seq<T>)
    ensures a + (b + c) == (a + b) + c
  {
  }

  lemma ExpectedAtContent(s: State, content: seq<Row>, rows: seq<Row>)
    requires IsInside(s, content) && rows != [] && KindOf(rows[0]).Plain?
    requires s.name != "" && !IsMeta(rows[0]) && Step(s, rows[0]).Ok?
    ensures IsInside(Step(s, rows[0]).value, content + [rows[0]])
    ensures Expected(Step(s, rows[0]).value, content + [rows[0]], rows[1..]) == Expected(s, content, rows)
  {
    ContentStep(rows);
    InsideStep(s, content, rows[0]);
    Regroup(content, rows[0], Content(rows[1..]));
  }

  lemma ExpectedAtQuiet(s: State, content: seq<Row>, rows: seq<Row>)
    requires IsInside(s, content) && rows != [] && KindOf(rows[0]).Plain? && (s.name == "" || IsMeta(rows[0]))
    ensures Step(s, rows[0]) == Ok(s)
    ensures Expected(s, content, rows[1..]) == Expected(s, content, rows)
  {
    ContentStep(rows);
  }

  lemma {:induction false} SplitInside(s: State, content: seq<Row>, rows: seq<Row>)
    requires IsInside(s, content) && SplitFrom(s, rows).Ok?
    ensures SplitFrom(s, rows).value == Expected(s, content, rows)
    decreases |rows|
  {
    if rows == [] {
      ExpectedAtEnd(s, content);
    } else {
      SplitStep(s, rows);
      var t := Step(s, rows[0]).value;
      if !KindOf(rows[0]).Plain? {
        ExpectedAtMarker(s, content, rows);
        SplitInside(t, [], rows[1..]);
      } else if s.name == "" || IsMeta(rows[0]) {
        ExpectedAtQuiet(s, content, rows);
        SplitInside(s, content, rows[1..]);
      } else {
        ExpectedAtContent(s, content, rows);
        SplitInside(t, content + [rows[0]], rows[1..]);
      }
    }
  }

  /** Accepted input splits into its blocks: one section per START block with data, nothing lost, nothing merged. */
  lemma SectionsAreBlocks(rows: seq<Row>)
    requires Split(rows).Ok?
    ensures Split(rows).value == Blocks(rows)
  {
    SplitInside(INITIAL, [], rows);
  }

  // ---- Printing ----

  /** A section to print, with the order of its columns. */
  datatype Table = Table(name: string, header: Row, records: seq<Record>)

  function RowOf(header: Row, rec: Record): Row {
    seq(|header|, k requires 0 <= k < |header| => if header[k] in rec then rec[header[k]] else "")
  }

  function StartRow(name: string): Row {
    [START + Text.ToUpper(name)]
  }

  function EndRow(name: string): Row {
    [END + Text.ToUpper(name)]
  }

  /** A row the splitter takes at face value inside a section. */
  predicate IsPlainContent(row: Row) {
    KindOf(row).Plain? && !IsMeta(row)
  }

  predicate IsPrintableName(name: string) {
    && name != "" && Text.ToLower(name) == name
    && !Text.IsSpace(name[|name| - 1]) && !Text.IsQuote(name[|name| - 1])
  }

  ghost predicate IsPrintableHeader(header: Row) {
    && IsPlainContent(header)
    && Distinct(header)
    && forall key | key in header :: key != "" && Text.TrimSpace(key) == key
  }

  ghost predicate IsPrintableRecord(header: Row, rec: Record) {
    && (forall key :: key in rec <==> key in header)
    && (forall key | key in rec :: Text.TrimSpace(rec[key]) == rec[key])
    && IsPlainContent(RowOf(header, rec))
  }

  ghost predicate IsPrintable(t: Table) {
    && IsPrintableName(t.name)
    && IsPrintableHeader(t.header)
    && t.records != []
    && forall rec | rec in t.records :: IsPrintableRecord(t.header, rec)
  }

  function Rows(header: Row, records: seq<Record>): seq<Row> {
    seq(|records|, i requires 0 <= i < |records| => RowOf(header, records[i]))
  }

  function PrintTable(t: Table): seq<Row> {
    [StartRow(t.name), t.header] + Rows(t.header, t.records) + [EndRow(t.name)]
  }

  /** Tables with arbitrary unmarked rows before the first, between them, and after the last. */
  datatype Item = Gap(rows: seq<Row>) | Print(table: Table)

  ghost predicate IsItem(item: Item) {
    match item
    case Gap(rows) => forall row | row in rows :: KindOf(row).Plain?
    case Print(table) => IsPrintable(table)
  }

  ghost predicate AreItems(items: seq<Item>) {
    forall item | item in items :: IsItem(item)
  }

  function PrintItem(item: Item): seq<Row> {
    match item
    case Gap(rows) => rows
    case Print(table) => PrintTable(table)
  }

  function PrintItems(items: seq<Item>): seq<Row> {
    if items == [] then [] else PrintItem(items[0]) + PrintItems(items[1..])
  }

  function SectionsOf(items: seq<Item>): seq<Section> {
    if items == [] then []
    else match items[0]
      case Gap(_) => SectionsOf(items[1..])
      case Print(table) => [Section(table.name, table.records)] + SectionsOf(items[1..])
  }

  // ---- Markers survive printing ----

  lemma NothingToTrim(s: string, cut: char -> bool)
    requires Text.Trimmed(s, cut)
    ensures Text.Trim(s, cut) == s
  {
  }

  lemma PrintedIsTrimmed(prefix: string, name: string)
    requires prefix != "" && !Text.IsSpace(prefix[0]) && !Text.IsQuote(prefix[0]) && IsPrintableName(name)
    ensures Text.Trimmed(prefix + Text.ToUpper(name), Text.IsSpace)
    ensures Text.Trimmed(prefix + Text.ToUpper(name), Text.IsQuote)
  {
    Text.CaseCharByChar(name, |name| - 1);
  }

  lemma MarkerOfPrinted(prefix: string, name: string)
    requires prefix != "" && !Text.IsSpace(prefix[0]) && !Text.IsQuote(prefix[0]) && Text.ToUpper(prefix) == prefix
    requires IsPrintableName(name)
    ensures Marker(prefix + Text.ToUpper(name)) == prefix + Text.ToUpper(name)
  {
    hide Text.Trim, Text.Trimmed, Text.IsSpace, Text.IsQuote, IsPrintableName, Text.ToUpper;
    var cell := prefix + Text.ToUpper(name);
    PrintedIsTrimmed(prefix, name);
    NothingToTrim(cell, Text.IsSpace);
    NothingToTrim(cell, Text.IsQuote);
    Text.UpperTwice(name);
    Text.UpperAppend(prefix, Text.ToUpper(name));
  }

  lemma KindOfMarker(cell: string, prefix: string, rest: string)
    requires Marker(cell) == prefix + rest && prefix in {START, END}
    ensures KindOf([cell]) == if prefix == START then Start(Text.ToLower(rest)) else End(Text.ToLower(rest))
  {
    var marker := prefix + rest;
    assert marker[|prefix|..] == rest;
    assert marker[0] == prefix[0];
    assert prefix == END ==> !(START <= marker);
  }

  lemma PrintedMarkers(name: string)
    requires IsPrintableName(name)
    ensures KindOf(StartRow(name)) == Start(name)
    ensures KindOf(EndRow(name)) == End(name)
  {
    Text.UpperTwice(name);
    MarkerOfPrinted(START, name);
    KindOfMarker(START + Text.ToUpper(name), START, Text.ToUpper(name));
    MarkerOfPrinted(END, name);
    KindOfMarker(END + Text.ToUpper(name), END, Text.ToUpper(name));
  }

  // ---- Records survive printing ----

  lemma PrintedColumn(header: Row, rec: Record, i: nat)
    requires IsPrintableHeader(header) && IsPrintableRecord(header, rec) && i < |header|
    ensures IsLast(header, RowOf(header, rec), |header|, header[i], i)
    ensures header[i] in rec && Text.TrimSpace(RowOf(header, rec)[i]) == rec[header[i]]
  {
    assert header[i] in header;
    forall j: nat | i < j < |header| ensures !Names(header, RowOf(header, rec), j, header[i]) {
      assert header[j] in header;
    }
  }

  lemma PrintedKey(header: Row, rec: Record, key: string)
    requires IsPrintableHeader(header) && IsPrintableRecord(header, rec)
    ensures var back := Columns(header, RowOf(header, rec), |header|);
      (key in back <==> key in rec) && (key in rec ==> back[key] == rec[key])
  {
    var row := RowOf(header, rec);
    if key in Columns(header, row, |header|) {
      var i := ColumnsHaveNames(header, row, |header|, key);
      assert header[i] in header;
    }
    if key in rec {
      var i :| 0 <= i < |header| && header[i] == key;
      PrintedColumn(header, rec, i);
      LastColumnWins(header, row, |header|, key, i);
    }
  }

  lemma RecordOfPrinted(header: Row, rec: Record)
    requires IsPrintableHeader(header) && IsPrintableRecord(header, rec)
    ensures ToRecord(header, RowOf(header, rec)) == Ok(rec) && rec != map[]
  {
    forall key
      ensures var back := Columns(header, RowOf(header, rec), |header|);
        (key in back <==> key in rec) && (key in rec ==> back[key] == rec[key])
    {
      PrintedKey(header, rec, key);
    }
    assert Columns(header, RowOf(header, rec), |header|) == rec;
    RecordsAreNeverEmpty(header, RowOf(header, rec));
  }

  /** Whatever the records so far, the row adds this one. */
  ghost predicate Adds(s: State, row: Row, rec: Record) {
    forall records :: Step(s.(records := records), row) == Ok(s.(records := records + [rec]))
  }

  lemma PrintedRowAdds(s: State, rec: Record)
    requires s.name != "" && IsPrintableHeader(s.header) && IsPrintableRecord(s.header, rec)
    ensures Adds(s, RowOf(s.header, rec), rec)
  {
    RecordOfPrinted(s.header, rec);
  }

  ghost predicate AllAdd(s: State, rows: seq<Row>, records: seq<Record>) {
    |rows| == |records| && forall i | 0 <= i < |rows| :: Adds(s, rows[i], records[i])
  }

  lemma {:induction false} RunAdds(s: State, rows: seq<Row>, records: seq<Record>)
    requires AllAdd(s, rows, records)
    ensures Run(s, rows) == Ok(s.(records := s.records + records))
    decreases |rows|
  {
    if rows == [] {
      assert s.records + records == s.records;
    } else {
      var t := s.(records := s.records + [records[0]]);
      assert Adds(s, rows[0], records[0]);
      assert s.(records := s.records) == s;
      AddsRegardless(s, t, rows, records);
      RunOne(s, t, rows[0], rows[1..]);
      assert [rows[0]] + rows[1..] == rows;
      RunAdds(t, rows[1..], records[1..]);
      Regroup(s.records, records[0], records[1..]);
      assert [records[0]] + records[1..] == records;
    }
  }

  lemma AddsRegardless(s: State, t: State, rows: seq<Row>, records: seq<Record>)
    requires AllAdd(s, rows, records) && rows != []
    requires exists rs :: t == s.(records := rs)
    ensures AllAdd(t, rows[1..], records[1..])
  {
    forall i | 0 <= i < |rows| - 1 ensures Adds(t, rows[1..][i], records[1..][i]) {
      assert Adds(s, rows[i + 1], records[i + 1]);
    }
  }

  lemma RunRecords(s: State, records: seq<Record>)
    requires s.name != "" && IsPrintableHeader(s.header)
    requires forall rec | rec in records :: IsPrintableRecord(s.header, rec)
    ensures Run(s, Rows(s.header, records)) == Ok(s.(records := s.records + records))
  {
    forall i | 0 <= i < |records| ensures Adds(s, Rows(s.header, records)[i], records[i]) {
      PrintedRowAdds(s, records[i]);
    }
    RunAdds(s, Rows(s.header, records), records);
  }

  lemma StepHeader(name: string, header: Row)
    requires IsPrintableName(name) && IsPrintableHeader(header)
    ensures Step(INITIAL, StartRow(name)) == Ok(State(name, [], [], []))
    ensures Step(State(name, [], [], []), header) == Ok(State(name, header, [], []))
  {
    PrintedMarkers(name);
  }

  lemma StepEnd(s: State)
    requires IsPrintableName(s.name) && s.records != [] && s.sections == []
    ensures Step(s, EndRow(s.name)) == Ok(State("", [], [], [Section(s.name, s.records)]))
  {
    PrintedMarkers(s.name);
    assert [] + [Section(s.name, s.records)] == [Section(s.name, s.records)];
  }

  lemma RunOne(s: State, t: State, row: Row, rest: seq<Row>)
    requires Step(s, row) == Ok(t)
    ensures Run(s, [row] + rest) == Run(t, rest)
  {
    assert ([row] + rest)[1..] == rest;
  }

  lemma RunTwo(s: State, t: State, u: State, first: Row, second: Row, rest: seq<Row>)
    requires Step(s, first) == Ok(t) && Step(t, second) == Ok(u)
    ensures Run(s, [first, second] + rest) == Run(u, rest)
  {
    RunOne(s, t, first, [second] + rest);
    RunOne(t, u, second, rest);
    assert [first, second] + rest == [first] + ([second] + rest);
  }

  lemma SplitPrinted(t: Table)
    requires IsPrintable(t)
    ensures Split(PrintTable(t)) == Ok([Section(t.name, t.records)])
  {
    var body, end := Rows(t.header, t.records), [EndRow(t.name)];
    var open := State(t.name, t.header, [], []);
    StepHeader(t.name, t.header);
    assert PrintTable(t) == [StartRow(t.name), t.header] + (body + end);
    RunTwo(INITIAL, State(t.name, [], [], []), open, StartRow(t.name), t.header, body + end);
    RunRecords(open, t.records);
    assert [] + t.records == t.records;
    RunAppend(open, body, end);
    StepEnd(open.(records := t.records));
  }

  lemma {:induction false} SplitGap(rows: seq<Row>)
    requires forall row | row in rows :: KindOf(row).Plain?
    ensures Split(rows) == Ok([])
  {
    if rows != [] {
      SplitGap(rows[1..]);
    }
  }

  lemma SplitItem(item: Item)
    requires IsItem(item)
    ensures Split(PrintItem(item)) == Ok(SectionsOf([item]))
  {
    assert SectionsOf([item][1..]) == [];
    match item
    case Gap(rows) =>
      SplitGap(rows);
    case Print(table) =>
      SplitPrinted(table);
      assert [Section(table.name, table.records)] + [] == [Section(table.name, table.records)];
  }

  lemma SectionsStep(items: seq<Item>)
    requires items != []
    ensures SectionsOf(items) == SectionsOf([items[0]]) + SectionsOf(items[1..])
  {
    assert [items[0]][1..] == [];
    match items[0]
    case Gap(_) =>
      assert SectionsOf([items[0]]) == [];
    case Print(table) =>
      var one := [Section(table.name, table.records)];
      assert SectionsOf([items[0]]) == one + [] == one;
  }

  /** Splitting inverts printing, whatever unmarked rows stand between the sections. */
  lemma {:induction false} SplittingInvertsPrinting(items: seq<Item>)
    requires AreItems(items)
    ensures Split(PrintItems(items)) == Ok(SectionsOf(items))
  {
    if items != [] {
      assert IsItem(items[0]) && AreItems(items[1..]);
      SplittingInvertsPrinting(items[1..]);
      SplitItem(items[0]);
      SectionsStep(items);
      SplittingComposes(PrintItem(items[0]), PrintItems(items[1..]));
    }
  }
}
