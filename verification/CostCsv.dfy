/** The cost report's CSV text and a reader of RFC 4180 for it (src/api/cost_report.rs). */
module CostCsv {
  import opened Wrappers
  import opened Seqs

  type Row = seq<string>

  predicate Special(c: char) {
    c == ',' || c == '"' || c == '\n'
  }

  predicate Plain(s: string) {
    forall i :: 0 <= i < |s| ==> !Special(s[i])
  }

  /** Every quote doubled. */
  function Doubled(s: string): string {
    if s == "" then "" else DoubledChar(s[0]) + Doubled(s[1..])
  }

  function DoubledChar(c: char): string {
    if c == '"' then ['"', '"'] else [c]
  }

  /** Quoted only if it has a comma, quote or newline. */
  function CsvField(value: string): string {
    if IndexOf(value, ',').Some? || IndexOf(value, '"').Some? || IndexOf(value, '\n').Some?
    then ['"'] + (Doubled(value) + ['"'])
    else value
  }

  function RowText(row: Row): string {
    Join(Map(CsvField, row), ',') + ['\n']
  }

  function Text(rows: seq<Row>): string {
    if rows == [] then "" else RowText(rows[0]) + Text(rows[1..])
  }

  /** One charge's fields by column name; `None` if a currency has no rate. */
  type Charge = Option<map<string, string>>

  /** One job's charges; `None` if it cannot be priced. */
  type JobCharges = Option<seq<Charge>>

  /** A row in column order, columns without a value empty. */
  function ChargeRow(columns: Row, fields: map<string, string>): Row {
    Map(column => if column in fields then fields[column] else "", columns)
  }

  function ChargeRows(columns: Row, charges: seq<Charge>): seq<Row> {
    if charges == [] then []
    else (if charges[0].Some? then [ChargeRow(columns, charges[0].value)] else []) + ChargeRows(columns, charges[1..])
  }

  function Rows(columns: Row, jobs: seq<JobCharges>): seq<Row> {
    if jobs == [] then []
    else (if jobs[0].Some? then ChargeRows(columns, jobs[0].value) else []) + Rows(columns, jobs[1..])
  }

  lemma {:induction false} TextAppend(a: seq<Row>, b: seq<Row>)
    ensures Text(a + b) == Text(a) + Text(b)
  {
    if a == [] {
      assert a + b == b;
    } else {
      assert (a + b)[1..] == a[1..] + b;
      TextAppend(a[1..], b);
      Assoc(RowText(a[0]), Text(a[1..]), Text(b));
    }
  }

  // Which rows there are.

  /** Under each column stands the field of that name, or nothing. */
  lemma CellsExactly(columns: Row, fields: map<string, string>, i: nat)
    requires i < |columns|
    ensures |ChargeRow(columns, fields)| == |columns|
    ensures ChargeRow(columns, fields)[i] == if columns[i] in fields then fields[columns[i]] else ""
  {
  }

  lemma {:induction false} ChargeRowsAppend(columns: Row, a: seq<Charge>, b: seq<Charge>)
    ensures ChargeRows(columns, a + b) == ChargeRows(columns, a) + ChargeRows(columns, b)
  {
    if a == [] {
      assert a + b == b;
    } else {
      assert (a + b)[1..] == a[1..] + b;
      ChargeRowsAppend(columns, a[1..], b);
      Assoc(if a[0].Some? then [ChargeRow(columns, a[0].value)] else [], ChargeRows(columns, a[1..]), ChargeRows(columns, b));
    }
  }

  lemma {:induction false} RowsAppend(columns: Row, a: seq<JobCharges>, b: seq<JobCharges>)
    ensures Rows(columns, a + b) == Rows(columns, a) + Rows(columns, b)
  {
    if a == [] {
      assert a + b == b;
    } else {
      assert (a + b)[1..] == a[1..] + b;
      RowsAppend(columns, a[1..], b);
      Assoc(if a[0].Some? then ChargeRows(columns, a[0].value) else [], Rows(columns, a[1..]), Rows(columns, b));
    }
  }

  /** One more charge with its fields is one more row at the end; one without, or a job without prices, is none. */
  lemma RowsExactly(columns: Row, jobs: seq<JobCharges>, charges: seq<Charge>, fields: map<string, string>)
    ensures Rows(columns, jobs + [Some(charges + [Some(fields)])]) ==
      Rows(columns, jobs + [Some(charges)]) + [ChargeRow(columns, fields)]
    ensures Rows(columns, jobs + [Some(charges + [None])]) == Rows(columns, jobs + [Some(charges)])
    ensures Rows(columns, jobs + [None]) == Rows(columns, jobs + [Some([])]) == Rows(columns, jobs)
  {
    var (row, none) := (Some(fields), None);
    ChargeRowsAppend(columns, charges, [row]);
    ChargeRowsAppend(columns, charges, [none]);
    OneCharge(columns, row);
    OneCharge(columns, none);
    OneJob(columns, jobs, Some(charges));
    OneJob(columns, jobs, Some(charges + [row]));
    OneJob(columns, jobs, Some(charges + [none]));
    OneJob(columns, jobs, None);
    OneJob(columns, jobs, Some([]));
    Assoc(Rows(columns, jobs), ChargeRows(columns, charges), [ChargeRow(columns, fields)]);
    assert ChargeRows(columns, charges) + [] == ChargeRows(columns, charges) && Rows(columns, jobs) + [] == Rows(columns, jobs);
  }

  lemma OneCharge(columns: Row, charge: Charge)
    ensures ChargeRows(columns, [charge]) == if charge.Some? then [ChargeRow(columns, charge.value)] else []
  {
    assert [charge][1..] == [];
  }

  lemma OneJob(columns: Row, jobs: seq<JobCharges>, job: JobCharges)
    ensures Rows(columns, jobs + [job]) == Rows(columns, jobs) + if job.Some? then ChargeRows(columns, job.value) else []
  {
    RowsAppend(columns, jobs, [job]);
    assert [job][1..] == [];
    if job.Some? {
      assert ChargeRows(columns, job.value) + [] == ChargeRows(columns, job.value);
    }
  }

  lemma ChargeStep(columns: Row, charges: seq<Charge>, i: nat)
    requires i < |charges|
    ensures Text(ChargeRows(columns, charges[i..])) ==
      (if charges[i].Some? then RowText(ChargeRow(columns, charges[i].value)) else "") + Text(ChargeRows(columns, charges[i + 1..]))
  {
    assert charges[i..][1..] == charges[i + 1..];
    var rest := ChargeRows(columns, charges[i + 1..]);
    assert [] + rest == rest;
    if charges[i].Some? {
      assert ([ChargeRow(columns, charges[i].value)] + rest)[1..] == rest;
    }
  }

  function JobText(columns: Row, job: JobCharges): string {
    if job.Some? then Text(ChargeRows(columns, job.value)) else ""
  }

  lemma JobStep(columns: Row, jobs: seq<JobCharges>, i: nat)
    requires i < |jobs|
    ensures Text(Rows(columns, jobs[i..])) == JobText(columns, jobs[i]) + Text(Rows(columns, jobs[i + 1..]))
  {
    assert jobs[i..][1..] == jobs[i + 1..];
    var rest := Rows(columns, jobs[i + 1..]);
    assert [] + rest == rest;
    if jobs[i].Some? {
      TextAppend(ChargeRows(columns, jobs[i].value), rest);
    }
  }

  method AppendCharges(columns: Row, csv: string, charges: seq<Charge>) returns (r: string)
    ensures r == csv + Text(ChargeRows(columns, charges))
  {
    r := csv;
    for i := 0 to |charges|
      invariant r + Text(ChargeRows(columns, charges[i..])) == csv + Text(ChargeRows(columns, charges))
    {
      ChargeStep(columns, charges, i);
      if charges[i].None? {
        continue;
      }
      var fields := ChargeRow(columns, charges[i].value);
      Assoc(r, RowText(fields), Text(ChargeRows(columns, charges[i + 1..])));
      Assoc(r, Join(Map(CsvField, fields), ','), ['\n']);
      r := r + Join(Map(CsvField, fields), ',');
      r := r + ['\n'];
    }
    assert charges[|charges|..] == [];
    assert r + [] == r;
  }

  method CostReport(columns: Row, jobs: seq<JobCharges>) returns (csv: string)
    ensures csv == Join(columns, ',') + ['\n'] + Text(Rows(columns, jobs))
  {
    csv := Join(columns, ',') + ['\n'];
    ghost var whole := csv + Text(Rows(columns, jobs));
    assert jobs[0..] == jobs;
    for i := 0 to |jobs|
      invariant csv + Text(Rows(columns, jobs[i..])) == whole
    {
      ghost var rest := Text(Rows(columns, jobs[i + 1..]));
      JobStep(columns, jobs, i);
      Assoc(csv, JobText(columns, jobs[i]), rest);
      if jobs[i].None? {
        assert csv + "" == csv;
        continue;
      }
      csv := AppendCharges(columns, csv, jobs[i].value);
    }
    assert jobs[|jobs|..] == [];
    assert csv + [] == csv;
  }

  // A reader of section 2 of RFC 4180, records ended by a line feed: outside quotes a field holds no quote,
  // comma, line feed or carriage return.

  datatype State = Start | Bare | Quoted | AfterQuote

  function Ended(record: Row, rest: Option<seq<Row>>): Option<seq<Row>> {
    if rest.None? then None else Some([record] + rest.value)
  }

  function Scan(s: string, state: State, field: string, record: Row): Option<seq<Row>>
    decreases |s|
  {
    if s == "" then
      if state == Quoted then None
      else if state == Start && record == [] then Some([])
      else Some([record + [field]])
    else if state == Quoted then
      if s[0] == '"' then Scan(s[1..], AfterQuote, field, record) else Scan(s[1..], Quoted, field + [s[0]], record)
    else if s[0] == ',' || s[0] == '\n' then
      AtSeparator(s, field, record)
    else if s[0] == '"' then
      match state
      case Start => Scan(s[1..], Quoted, "", record)
      case AfterQuote => Scan(s[1..], Quoted, field + ['"'], record)
      case _ => None
    else if state == AfterQuote || s[0] == '\r' then None
    else Scan(s[1..], Bare, field + [s[0]], record)
  }

  /** A field ends here, and at a line feed the record. */
  function AtSeparator(s: string, field: string, record: Row): Option<seq<Row>>
    requires s != "" && (s[0] == ',' || s[0] == '\n')
    decreases |s|, 0
  {
    if s[0] == ',' then Scan(s[1..], Start, "", record + [field])
    else Ended(record + [field], Scan(s[1..], Start, "", []))
  }

  function Read(csv: string): Option<seq<Row>> {
    Scan(csv, Start, "", [])
  }

  /** Whether a field is read back: a carriage return is lost unless something else has the field quoted. */
  predicate Readable(v: string) {
    Plain(v) ==> Without(v, '\r')
  }

  lemma {:induction false} BareRead(v: string, s: string, field: string, record: Row)
    requires Plain(v) && s != "" && (s[0] == ',' || s[0] == '\n')
    ensures Scan(v + s, Bare, field, record) == if Without(v, '\r') then AtSeparator(s, field + v, record) else None
    decreases |v|
  {
    if v == "" {
      assert v + s == s && field + v == field;
    } else {
      assert (v + s)[1..] == v[1..] + s;
      assert (field + [v[0]]) + v[1..] == field + v;
      assert (v + s)[0] == v[0] && !Special(v[0]);
      BareRead(v[1..], s, field + [v[0]], record);
      WithoutFirst(v, '\r');
    }
  }

  lemma WithoutFirst(v: string, c: char)
    requires v != ""
    ensures Without(v, c) <==> v[0] != c && Without(v[1..], c)
  {
    if v[0] != c && Without(v[1..], c) {
      assert forall i :: 1 <= i < |v| ==> v[i] == v[1..][i - 1];
    }
  }

  lemma QuotedChar(c: char, s: string, field: string, record: Row)
    ensures Scan(DoubledChar(c) + s, Quoted, field, record) == Scan(s, Quoted, field + [c], record)
  {
    if c == '"' {
      assert (DoubledChar(c) + s)[1..] == ['"'] + s && (['"'] + s)[1..] == s;
    } else {
      assert (DoubledChar(c) + s)[1..] == s;
    }
  }

  lemma QuotedEnd(s: string, field: string, record: Row)
    ensures Scan(['"'] + s, Quoted, field, record) == Scan(s, AfterQuote, field, record)
  {
    assert (['"'] + s)[1..] == s;
  }

  lemma {:induction false} QuotedRead(v: string, s: string, field: string, record: Row)
    ensures Scan(Doubled(v) + (['"'] + s), Quoted, field, record) == Scan(s, AfterQuote, field + v, record)
    decreases |v|
  {
    if v == "" {
      Nothing(field, ['"'] + s);
      QuotedEnd(s, field, record);
    } else {
      Assoc(DoubledChar(v[0]), Doubled(v[1..]), ['"'] + s);
      QuotedChar(v[0], Doubled(v[1..]) + (['"'] + s), field, record);
      QuotedRead(v[1..], s, field + [v[0]], record);
      Regrouped(field, v);
    }
  }

  lemma Nothing(field: string, s: string)
    ensures field + "" == field && "" + s == s
  {
  }

  lemma Regrouped(field: string, v: string)
    requires v != ""
    ensures (field + [v[0]]) + v[1..] == field + v
  {
  }

  /** A written field is read back, or makes the whole text unreadable. */
  lemma FieldRead(v: string, s: string, record: Row)
    requires s != "" && (s[0] == ',' || s[0] == '\n')
    ensures Scan(CsvField(v) + s, Start, "", record) == if Readable(v) then AtSeparator(s, v, record) else None
  {
    IndexOfSpec(v, ',');
    IndexOfSpec(v, '"');
    IndexOfSpec(v, '\n');
    if CsvField(v) == ['"'] + (Doubled(v) + ['"']) {
      var text := Doubled(v) + (['"'] + s);
      assert CsvField(v) + s == ['"'] + text && (['"'] + text)[1..] == text;
      QuotedRead(v, s, "", record);
      assert "" + v == v;
    } else if v == "" {
      assert v + s == s;
    } else {
      PlainRead(v, s, record);
    }
  }

  lemma PlainRead(v: string, s: string, record: Row)
    requires v != "" && Plain(v) && s != "" && (s[0] == ',' || s[0] == '\n')
    ensures Scan(v + s, Start, "", record) == if Without(v, '\r') then AtSeparator(s, v, record) else None
  {
    WithoutFirst(v, '\r');
    assert (v + s)[1..] == v[1..] + s && (v + s)[0] == v[0] && !Special(v[0]);
    assert "" + [v[0]] == [v[0]] && [v[0]] + v[1..] == v;
    BareRead(v[1..], s, [v[0]], record);
  }

  predicate RowReadable(row: Row) {
    forall i :: 0 <= i < |row| ==> Readable(row[i])
  }

  predicate AllReadable(rows: seq<Row>) {
    forall i :: 0 <= i < |rows| ==> RowReadable(rows[i])
  }

  /** The text of a row's fields and its line end is read as that row, if each of them can be. */
  lemma {:induction false} RowRead(row: Row, s: string, record: Row)
    requires row != []
    ensures Scan(Join(Map(CsvField, row), ',') + (['\n'] + s), Start, "", record) ==
      if RowReadable(row) then Ended(record + row, Scan(s, Start, "", [])) else None
    decreases |row|
  {
    var end := ['\n'] + s;
    assert end[1..] == s;
    var fields := Map(CsvField, row);
    if |row| == 1 {
      assert record + [row[0]] == record + row;
      FieldRead(row[0], end, record);
    } else {
      assert fields[1..] == Map(CsvField, row[1..]);
      var rest := Join(fields[1..], ',') + end;
      assert Join(fields, ',') + end == CsvField(row[0]) + ([','] + rest);
      assert ([','] + rest)[1..] == rest;
      FieldRead(row[0], [','] + rest, record);
      assert (record + [row[0]]) + row[1..] == record + row;
      RowRead(row[1..], s, record + [row[0]]);
      RowReadableFirst(row);
    }
  }

  lemma RowReadableFirst(row: Row)
    requires row != []
    ensures RowReadable(row) <==> Readable(row[0]) && RowReadable(row[1..])
  {
    if Readable(row[0]) && RowReadable(row[1..]) {
      assert forall i :: 1 <= i < |row| ==> row[i] == row[1..][i - 1];
    }
  }

  lemma AllReadableFirst(rows: seq<Row>)
    requires rows != []
    ensures AllReadable(rows) <==> RowReadable(rows[0]) && AllReadable(rows[1..])
  {
    if RowReadable(rows[0]) && AllReadable(rows[1..]) {
      assert forall i :: 1 <= i < |rows| ==> rows[i] == rows[1..][i - 1];
    }
  }

  /** Any written rows are read back field for field, or, with one unreadable field, not at all. */
  lemma {:induction false} RowsRead(rows: seq<Row>)
    requires forall i :: 0 <= i < |rows| ==> rows[i] != []
    ensures Read(Text(rows)) == if AllReadable(rows) then Some(rows) else None
  {
    if rows != [] {
      AllReadableFirst(rows);
      RowsRead(rows[1..]);
      var fields := Join(Map(CsvField, rows[0]), ',');
      Assoc(fields, ['\n'], Text(rows[1..]));
      RowRead(rows[0], Text(rows[1..]), []);
      assert [] + rows[0] == rows[0] && [rows[0]] + rows[1..] == rows;
    }
  }

  lemma {:induction false} RowsFilled(columns: Row, jobs: seq<JobCharges>)
    ensures forall i :: 0 <= i < |Rows(columns, jobs)| ==> |Rows(columns, jobs)[i]| == |columns|
  {
    if jobs != [] {
      RowsFilled(columns, jobs[1..]);
      if jobs[0].Some? {
        ChargesFilled(columns, jobs[0].value);
      }
    }
  }

  lemma {:induction false} ChargesFilled(columns: Row, charges: seq<Charge>)
    ensures forall i :: 0 <= i < |ChargeRows(columns, charges)| ==> |ChargeRows(columns, charges)[i]| == |columns|
  {
    if charges != [] {
      ChargesFilled(columns, charges[1..]);
    }
  }

  lemma PlainField(v: string)
    requires Plain(v)
    ensures CsvField(v) == v
  {
    IndexOfSpec(v, ',');
    IndexOfSpec(v, '"');
    IndexOfSpec(v, '\n');
  }

  /** The first record read continues `record`, with a field no longer than what is left of the text. */
  lemma {:induction false} FieldBound(s: string, state: State, field: string, record: Row)
    requires state == Start ==> field == ""
    ensures Scan(s, state, field, record).Some? && !(s == "" && state == Start && record == []) ==>
      var rows := Scan(s, state, field, record).value;
      && rows != [] && record <= rows[0] && |record| < |rows[0]|
      && |rows[0][|record|]| <= |field| + |s| - (if state == Quoted then 1 else 0)
    decreases |s|
  {
    if s != "" {
      var rest := s[1..];
      if state == Quoted {
        FieldBound(rest, if s[0] == '"' then AfterQuote else Quoted, if s[0] == '"' then field else field + [s[0]], record);
      } else if s[0] == ',' {
        assert (record + [field])[|record|] == field;
        FieldBound(rest, Start, "", record + [field]);
      } else if s[0] == '"' {
        FieldBound(rest, Quoted, if state == Start then "" else field + ['"'], record);
      } else if s[0] != '\n' {
        FieldBound(rest, Bare, field + [s[0]], record);
      }
    }
  }

  /** Another field read first is another reading. */
  lemma AnotherField(s: string, field: string, v: string)
    requires s != "" && (s[0] == ',' || s[0] == '\n') && field != v
    ensures AtSeparator(s, field, []) != Some([[v]])
  {
    assert [] + [field] == [field] && [field][0] == field;
    assert [[v]][0][0] == v;
    if s[0] == ',' {
      FieldBound(s[1..], Start, "", [field]);
    } else if Scan(s[1..], Start, "", []).Some? {
      assert ([[field]] + Scan(s[1..], Start, "", []).value)[0] == [field];
    }
  }

  lemma {:induction false} BareMisread(v: string, s: string, field: string)
    requires !Plain(v) || !Without(v, '\r')
    ensures Scan(v + s, Bare, field, []) != Some([[field + v]])
    decreases |v|
  {
    var text := v + s;
    assert text[0] == v[0] && text[1..] == v[1..] + s;
    if v[0] == ',' || v[0] == '\n' {
      assert |field + v| > |field|;
      AnotherField(text, field, field + v);
    } else if v[0] != '"' && v[0] != '\r' {
      WithoutFirst(v, '\r');
      Regrouped(field, v);
      BareMisread(v[1..], s, field + [v[0]]);
    }
  }

  lemma QuoteMisread(v: string)
    requires v != "" && v[0] == '"'
    ensures Scan(v + ['\n'], Start, "", []) != Some([[v]])
  {
    var text := v + ['\n'];
    assert text[0] == v[0] && |text[1..]| == |v|;
    FieldBound(text[1..], Quoted, "", []);
    assert [[v]][0][0] == v;
  }

  /**
   * Without quotes, a field reads back exactly if it is written without them and has no carriage return: every
   * field that is quoted has to be, and only a carriage return goes unquoted that should not.
   */
  lemma QuotedOnlyIfNeeded(v: string)
    ensures Read(v + ['\n']) == Some([[v]]) <==> CsvField(v) == v && Without(v, '\r')
  {
    if Plain(v) {
      PlainField(v);
      FieldRead(v, ['\n'], []);
      assert [] + [v] == [v];
      assert ['\n'][1..] == "" && [[v]] + [] == [[v]];
      assert AtSeparator(['\n'], v, []) == Some([[v]]);
    } else {
      NotPlain(v);
      var text := v + ['\n'];
      assert text[0] == v[0] && text[1..] == v[1..] + ['\n'];
      if v[0] == '"' {
        QuoteMisread(v);
      } else if Special(v[0]) {
        AnotherField(text, "", v);
      } else if v[0] != '\r' {
        Nothing([v[0]], [v[0]]);
        assert [v[0]] + v[1..] == v;
        assert Scan(text, Start, "", []) == Scan(v[1..] + ['\n'], Bare, [v[0]], []);
        BareMisread(v[1..], ['\n'], [v[0]]);
      }
    }
  }

  lemma NotPlain(v: string)
    requires !Plain(v)
    ensures CsvField(v) != v
  {
    IndexOfSpec(v, ',');
    IndexOfSpec(v, '"');
    IndexOfSpec(v, '\n');
    DoubledLength(v);
  }

  lemma {:induction false} DoubledLength(v: string)
    ensures |v| <= |Doubled(v)|
  {
    if v != "" {
      DoubledLength(v[1..]);
    }
  }

  /**
   * The report reads back as the column names and every priced charge's row, field for field, if and only if no
   * field holds a carriage return without a comma, quote or line feed beside it.
   */
  lemma ReportReadsBack(columns: Row, jobs: seq<JobCharges>)
    requires columns != [] && forall i :: 0 <= i < |columns| ==> Plain(columns[i]) && Without(columns[i], '\r')
    ensures Read(Join(columns, ',') + ['\n'] + Text(Rows(columns, jobs))) ==
      if AllReadable(Rows(columns, jobs)) then Some([columns] + Rows(columns, jobs)) else None
  {
    forall i | 0 <= i < |columns|
      ensures CsvField(columns[i]) == columns[i] && Readable(columns[i])
    {
      PlainField(columns[i]);
    }
    assert Map(CsvField, columns) == columns;
    var rows := Rows(columns, jobs);
    RowsFilled(columns, jobs);
    assert ([columns] + rows)[1..] == rows;
    AllReadableFirst([columns] + rows);
    RowsRead([columns] + rows);
  }

  /** Such a report exists: a job's name is free text, and goes into the description of its charge. */
  lemma BareReturnLost()
    ensures var columns := ["ChargeDescription"];
      var jobs := [Some([Some(map["ChargeDescription" := "a\rb"])])];
      Read(Join(columns, ',') + ['\n'] + Text(Rows(columns, jobs))) == None
  {
    var columns := ["ChargeDescription"];
    var jobs: seq<JobCharges> := [Some([Some(map["ChargeDescription" := "a\rb"])])];
    var rows := Rows(columns, jobs);
    assert jobs[1..] == [] && rows[0] == ["a\rb"];
    assert !Readable("a\rb") by {
      assert "a\rb"[1] == '\r';
    }
    assert !Readable(rows[0][0]);
    ReportReadsBack(columns, jobs);
  }
}
