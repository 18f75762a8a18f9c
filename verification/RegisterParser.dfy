/** Parsing one flat register (src/silver/registers/spec.py, src/silver/registers/loader.py). */
module RegisterParser {
  import opened Prelude
  import opened Hashing

  // Starts from records already split into stripped cells.  How a cell reads as a number or a
  // date is a parameter (`Readers`); the rules around it are the loader's own.

  datatype Kind = TextKind | DateKind | DecimalKind | IntegerKind | BooleanKind

  datatype Column = Column(name: string, kind: Kind, required: bool)

  datatype KeyKind = Natural | Content

  datatype RegisterSpec = RegisterSpec(
    docTypeCodes: seq<string>, table: string, periodColumn: string, keyKind: KeyKind,
    keyColumns: seq<string>, columns: seq<Column>, validFromColumn: Option<string>)

  const ENVELOPE_COLUMNS: set<string> := {
    "id", "entity_id", "gstin", "tax_period", "fy", "doc_type_code", "batch_id",
    "bronze_ingest_id", "row_hash", "valid_from", "valid_to", "recorded_at", "superseded_at",
    "created_at", "created_by", "modified_at", "modified_by"}

  const ENVELOPE_KEY_COLUMNS: set<string> := {"entity_id", "gstin", "tax_period", "fy", "row_hash"}

  function ColumnNames(columns: seq<Column>): (names: seq<string>)
    ensures |names| == |columns|
    ensures forall i :: 0 <= i < |columns| ==> names[i] == columns[i].name
  {
    seq(|columns|, i requires 0 <= i < |columns| => columns[i].name)
  }

  function FindColumn(columns: seq<Column>, name: string): (r: Option<Column>)
    ensures r.Some? ==> r.value in columns && r.value.name == name
    ensures r.None? <==> forall c :: c in columns ==> c.name != name
  {
    if columns == [] then None
    else if columns[0].name == name then Some(columns[0])
    else FindColumn(columns[1..], name)
  }

  /** What constructing a spec checks. */
  ghost predicate WellFormed(spec: RegisterSpec) {
    && spec.periodColumn in {"tax_period", "fy"}
    && (forall i, j :: 0 <= i < j < |spec.columns| ==> spec.columns[i].name != spec.columns[j].name)
    && (forall c :: c in spec.columns ==> c.name !in ENVELOPE_COLUMNS)
    && (forall k :: k in spec.keyColumns ==>
          k in ENVELOPE_KEY_COLUMNS || FindColumn(spec.columns, k).Some?)
    && (spec.validFromColumn.Some? ==>
          var c := FindColumn(spec.columns, spec.validFromColumn.value);
          c.Some? && c.value.kind == DateKind && c.value.required)
  }

  // ---------------------------------------------------------------------------
  // Cells
  // ---------------------------------------------------------------------------

  datatype Value = Text(s: string) | Date(day: int) | Decimal(n: real) | Integer(i: int) | Boolean(b: bool)

  /** Readings of a non-empty cell; None is the reader's exception. */
  datatype Readers = Readers(decimal: string -> Option<real>, integer: string -> Option<int>, date: string -> Option<int>)

  /** A normalised record: an empty cell is an absent key. */
  type Cells = map<string, string>

  function Cell(cells: Cells, name: string): Option<string> {
    if name in cells then Some(cells[name]) else None
  }

  function OrEmpty(cell: Option<string>): string {
    if cell.Some? then cell.value else ""
  }

  function ReadBoolean(raw: Option<string>): Option<bool> {
    var lowered := Lower(OrEmpty(raw));
    if lowered in ["true", "t", "yes", "y", "1"] then Some(true)
    else if lowered in ["false", "f", "no", "n", "0", ""] then Some(false)
    else None
  }

  /** None: the cell cannot be read.  Some(None): the cell is blank and becomes NULL. */
  function Coerce(rd: Readers, kind: Kind, raw: Option<string>): Option<Option<Value>> {
    match kind
    case TextKind => Some(if raw.Some? then Some(Text(raw.value)) else None)
    case BooleanKind =>
      var b := ReadBoolean(raw);
      if b.Some? then Some(Some(Boolean(b.value))) else None
    case DateKind =>
      if OrEmpty(raw) == "" then Some(None)
      else var d := rd.date(raw.value); if d.Some? then Some(Some(Date(d.value))) else None
    case DecimalKind =>
      if OrEmpty(raw) == "" then Some(None)
      else var d := rd.decimal(raw.value); if d.Some? then Some(Some(Decimal(d.value))) else None
    case IntegerKind =>
      if OrEmpty(raw) == "" then Some(None)
      else var d := rd.integer(raw.value); if d.Some? then Some(Some(Integer(d.value))) else None
  }

  type Values = map<string, Option<Value>>

  datatype RegisterRow = RegisterRow(sourceLine: nat, values: Values, rowHash: string)

  datatype Reason = EmptyRequired(blank: seq<string>) | Unreadable | NotJson | NotAnObject

  datatype Rejection = Rejection(sourceLine: nat, column: Option<string>, reason: Reason)

  function BlankRequired(columns: seq<Column>, cells: Cells): (blank: seq<string>)
    ensures forall name :: name in blank <==> exists c :: c in columns && c.required && c.name == name && name !in cells
  {
    if columns == [] then []
    else
      (if columns[0].required && columns[0].name !in cells then [columns[0].name] else [])
      + BlankRequired(columns[1..], cells)
  }

  /** The dictionary comprehension over the columns: the first unreadable column is the error. */
  function CoerceAll(rd: Readers, columns: seq<Column>, cells: Cells): (r: Result<Values, string>)
    ensures r.Err? ==> exists c :: c in columns && c.name == r.error && Coerce(rd, c.kind, Cell(cells, c.name)).None?
    ensures r.Ok? ==> forall c :: c in columns ==> c.name in r.value && Coerce(rd, c.kind, Cell(cells, c.name)).Some?
  {
    if columns == [] then Ok(map[])
    else
      var c := columns[|columns| - 1];
      var r := CoerceAll(rd, columns[..|columns| - 1], cells);
      if r.Err? then r
      else
        var v := Coerce(rd, c.kind, Cell(cells, c.name));
        if v.None? then Err(c.name) else Ok(r.value[c.name := v.value])
  }

  function HashedCells(columns: seq<Column>, cells: Cells): (parts: seq<string>)
    ensures |parts| == |columns|
    ensures forall i :: 0 <= i < |columns| ==> parts[i] == OrEmpty(Cell(cells, columns[i].name))
  {
    seq(|columns|, i requires 0 <= i < |columns| => OrEmpty(Cell(cells, columns[i].name)))
  }

  /** The entire per-row rule. */
  function ParseRow(rd: Readers, sha: Sha, spec: RegisterSpec, cells: Cells, line: nat): Parsed {
    var blank := BlankRequired(spec.columns, cells);
    if blank != [] then Err(Rejection(line, Some(blank[0]), EmptyRequired(blank)))
    else
      var values := CoerceAll(rd, spec.columns, cells);
      if values.Err? then Err(Rejection(line, Some(values.error), Unreadable))
      else Ok(RegisterRow(line, values.value, HashOf(sha, HashedCells(spec.columns, cells))))
  }

  lemma {:induction false} CoercedValue(rd: Readers, columns: seq<Column>, cells: Cells, i: nat)
    requires CoerceAll(rd, columns, cells).Ok? && i < |columns|
    requires forall a, b :: 0 <= a < b < |columns| ==> columns[a].name != columns[b].name
    ensures Coerce(rd, columns[i].kind, Cell(cells, columns[i].name)) == Some(CoerceAll(rd, columns, cells).value[columns[i].name])
  {
    if i < |columns| - 1 {
      CoercedValue(rd, columns[..|columns| - 1], cells, i);
    }
  }

  lemma TypedColumn(rd: Readers, columns: seq<Column>, cells: Cells, c: Column)
    requires forall a, b :: 0 <= a < b < |columns| ==> columns[a].name != columns[b].name
    requires c in columns && BlankRequired(columns, cells) == [] && CoerceAll(rd, columns, cells).Ok?
    ensures c.name in CoerceAll(rd, columns, cells).value
    ensures Coerce(rd, c.kind, Cell(cells, c.name)) == Some(CoerceAll(rd, columns, cells).value[c.name])
    ensures c.required ==> c.name in cells
  {
    var i :| 0 <= i < |columns| && columns[i] == c;
    CoercedValue(rd, columns, cells, i);
    assert c.name !in BlankRequired(columns, cells);
  }

  lemma TypedValue(rd: Readers, kind: Kind, cells: Cells, name: string, value: Option<Value>)
    requires forall n :: n in cells ==> cells[n] != ""
    requires Coerce(rd, kind, Cell(cells, name)) == Some(value)
    ensures name in cells ==> value.Some?
    ensures kind == DateKind && value.Some? ==> value.value.Date?
  {
  }

  /** An accepted row is NULL only in columns that are not required, and each value is the
      reading of its own cell. */
  lemma AcceptedRow(rd: Readers, sha: Sha, spec: RegisterSpec, cells: Cells, line: nat)
    requires ParseRow(rd, sha, spec, cells, line).Ok?
    ensures BlankRequired(spec.columns, cells) == [] && CoerceAll(rd, spec.columns, cells).Ok?
    ensures ParseRow(rd, sha, spec, cells, line).value.values == CoerceAll(rd, spec.columns, cells).value
  {
  }

  lemma AcceptedRowIsTyped(rd: Readers, sha: Sha, spec: RegisterSpec, cells: Cells, line: nat, c: Column)
    requires WellFormed(spec) && c in spec.columns
    requires ParseRow(rd, sha, spec, cells, line).Ok?
    requires forall name :: name in cells ==> cells[name] != ""
    ensures var row := ParseRow(rd, sha, spec, cells, line).value;
            && c.name in row.values
            && Coerce(rd, c.kind, Cell(cells, c.name)) == Some(row.values[c.name])
            && (c.required ==> row.values[c.name].Some?)
            && (c.kind == DateKind && row.values[c.name].Some? ==> row.values[c.name].value.Date?)
  {
    AcceptedRow(rd, sha, spec, cells, line);
    TypedColumn(rd, spec.columns, cells, c);
    TypedValue(rd, c.kind, cells, c.name, ParseRow(rd, sha, spec, cells, line).value.values[c.name]);
  }

  // ---------------------------------------------------------------------------
  // Filing the rows: rejected, collapsed or kept
  // ---------------------------------------------------------------------------

  /** One record of the file: cells, or (NDJSON only) a line that is no record. */
  datatype Record = Row(line: nat, cells: Cells) | Broken(line: nat, reason: Reason)

  datatype Tally = Tally(rows: seq<RegisterRow>, rejections: seq<Rejection>, collapsed: nat)

  predicate Kept(rows: seq<RegisterRow>, hash: string) {
    exists i :: 0 <= i < |rows| && rows[i].rowHash == hash
  }

  type Parsed = Result<RegisterRow, Rejection>

  function ParseRecord(rd: Readers, sha: Sha, spec: RegisterSpec, rec: Record): Parsed {
    match rec
    case Row(line, cells) => ParseRow(rd, sha, spec, cells, line)
    case Broken(line, reason) => Err(Rejection(line, None, reason))
  }

  function File(t: Tally, parsed: Parsed): Tally {
    match parsed
    case Err(rejection) => t.(rejections := t.rejections + [rejection])
    case Ok(row) =>
      if Kept(t.rows, row.rowHash) then t.(collapsed := t.collapsed + 1)
      else t.(rows := t.rows + [row])
  }

  function FileAll(ps: seq<Parsed>): Tally {
    if ps == [] then Tally([], [], 0) else File(FileAll(ps[..|ps| - 1]), ps[|ps| - 1])
  }

  function ParseAll(rd: Readers, sha: Sha, spec: RegisterSpec, recs: seq<Record>): (ps: seq<Parsed>)
    ensures |ps| == |recs|
    ensures forall i :: 0 <= i < |recs| ==> ps[i] == ParseRecord(rd, sha, spec, recs[i])
  {
    seq(|recs|, i requires 0 <= i < |recs| => ParseRecord(rd, sha, spec, recs[i]))
  }

  function TallyOf(rd: Readers, sha: Sha, spec: RegisterSpec, recs: seq<Record>): Tally {
    FileAll(ParseAll(rd, sha, spec, recs))
  }

  /** Every record is accounted for exactly once. */
  lemma {:induction false} FilingConserves(ps: seq<Parsed>)
    ensures |FileAll(ps).rows| + |FileAll(ps).rejections| + FileAll(ps).collapsed == |ps|
  {
    if ps != [] {
      FilingConserves(ps[..|ps| - 1]);
    }
  }

  /** Record i is the first one in the file with its content. */
  ghost predicate FirstOfItsHash(ps: seq<Parsed>, i: int) {
    && 0 <= i < |ps| && ps[i].Ok?
    && forall j :: 0 <= j < i && ps[j].Ok? ==> ps[j].value.rowHash != ps[i].value.rowHash
  }

  lemma KeptOfAppend(rows: seq<RegisterRow>, row: RegisterRow, hash: string)
    ensures Kept(rows + [row], hash) <==> hash == row.rowHash || Kept(rows, hash)
  {
    assert (rows + [row])[|rows|] == row;
    if Kept(rows, hash) {
      var i :| 0 <= i < |rows| && rows[i].rowHash == hash;
      assert (rows + [row])[i].rowHash == hash;
    }
  }

  /** A hash is kept exactly when some record of the file has it. */
  lemma {:induction false} KeptHashes(ps: seq<Parsed>, hash: string)
    ensures Kept(FileAll(ps).rows, hash) <==> exists i :: 0 <= i < |ps| && ps[i].Ok? && ps[i].value.rowHash == hash
  {
    if ps != [] {
      var n := |ps| - 1;
      KeptHashes(ps[..n], hash);
      var rows := FileAll(ps[..n]).rows;
      if ps[n].Ok? {
        KeptOfAppend(rows, ps[n].value, hash);
      }
      if Kept(rows, hash) {
        var i :| 0 <= i < n && ps[..n][i].Ok? && ps[..n][i].value.rowHash == hash;
        assert ps[i].value.rowHash == hash;
      }
    }
  }

  lemma FirstOfPrefix(ps: seq<Parsed>, n: nat, i: int)
    requires i < n <= |ps|
    ensures FirstOfItsHash(ps, i) <==> FirstOfItsHash(ps[..n], i)
  {
    assert forall j :: 0 <= j <= i ==> ps[..n][j] == ps[j];
  }

  /** The rows kept are exactly the first occurrences by hash, in file order: `at` gives the
      record each row came from. */
  lemma {:induction false} KeptAreFirstOccurrences(ps: seq<Parsed>) returns (at: seq<nat>)
    ensures |at| == |FileAll(ps).rows|
    ensures forall k :: 0 <= k < |at| ==> FirstOfItsHash(ps, at[k]) && ps[at[k]] == Ok(FileAll(ps).rows[k])
    ensures forall k, l :: 0 <= k < l < |at| ==> at[k] < at[l]
    ensures forall i :: FirstOfItsHash(ps, i) ==> i in at
  {
    if ps == [] {
      at := [];
    } else {
      var n := |ps| - 1;
      at := KeptAreFirstOccurrences(ps[..n]);
      forall i | i < n
        ensures FirstOfItsHash(ps, i) <==> FirstOfItsHash(ps[..n], i)
      {
        FirstOfPrefix(ps, n, i);
      }
      if ps[n].Ok? {
        KeptHashes(ps[..n], ps[n].value.rowHash);
        if !Kept(FileAll(ps[..n]).rows, ps[n].value.rowHash) {
          assert forall j :: 0 <= j < n ==> ps[..n][j] == ps[j];
          at := at + [n];
        }
      }
    }
  }

  /** No two rows kept have the same content. */
  lemma {:induction false} KeptAreDistinct(ps: seq<Parsed>)
    ensures forall k, l :: 0 <= k < l < |FileAll(ps).rows| ==> FileAll(ps).rows[k].rowHash != FileAll(ps).rows[l].rowHash
  {
    if ps != [] {
      KeptAreDistinct(ps[..|ps| - 1]);
    }
  }

  // ---------------------------------------------------------------------------
  // The two framings
  // ---------------------------------------------------------------------------

  datatype Fatal = NotUtf8 | MissingColumns(names: set<string>) | NoDataRows

  /** A CSV export: undecodable, or a header and its rows of stripped cells. */
  datatype CsvFile = CsvUndecodable | Csv(fieldNames: set<string>, rows: seq<map<string, string>>)

  /** One line of an NDJSON export.  A JSON null is None; any other value its stripped text. */
  datatype NdLine = BlankLine | MalformedLine | OtherJson | Object(fields: map<string, Option<string>>)

  datatype NdFile = NdUndecodable | Nd(lines: seq<NdLine>)

  function Names(spec: RegisterSpec): set<string> {
    set c | c in spec.columns :: c.name
  }

  function CsvCells(spec: RegisterSpec, raw: map<string, string>): Cells {
    map name | name in raw && name in Names(spec) && raw[name] != "" :: raw[name]
  }

  function NdCells(spec: RegisterSpec, fields: map<string, Option<string>>): Cells {
    map name | name in fields && name in Names(spec) && fields[name].Some? && fields[name].value != "" :: fields[name].value
  }

  function CsvRecords(spec: RegisterSpec, rows: seq<map<string, string>>): (recs: seq<Record>)
    ensures |recs| == |rows|
    ensures forall i :: 0 <= i < |rows| ==> recs[i] == Row(i + 2, CsvCells(spec, rows[i]))
  {
    seq(|rows|, i requires 0 <= i < |rows| => Row(i + 2, CsvCells(spec, rows[i])))
  }

  function NdRecords(spec: RegisterSpec, lines: seq<NdLine>): seq<Record> {
    if lines == [] then []
    else
      var n := |lines|;
      NdRecords(spec, lines[..n - 1])
      + match lines[n - 1]
        case BlankLine => []
        case MalformedLine => [Broken(n, NotJson)]
        case OtherJson => [Broken(n, NotAnObject)]
        case Object(fields) => [Row(n, NdCells(spec, fields))]
  }

  /** The first JSON object of the file stands in for a header. */
  function FirstObject(lines: seq<NdLine>): Option<set<string>> {
    if lines == [] then None
    else
      var before := FirstObject(lines[..|lines| - 1]);
      if before.Some? then before
      else if lines[|lines| - 1].Object? then Some(lines[|lines| - 1].fields.Keys)
      else None
  }

  function Finished(t: Tally): Result<Tally, Fatal> {
    if t.rows == [] && t.rejections == [] then Err(NoDataRows) else Ok(t)
  }

  function CsvResult(rd: Readers, sha: Sha, spec: RegisterSpec, file: CsvFile): Result<Tally, Fatal> {
    match file
    case CsvUndecodable => Err(NotUtf8)
    case Csv(fieldNames, rows) =>
      if Names(spec) - fieldNames != {} then Err(MissingColumns(Names(spec) - fieldNames))
      else Finished(TallyOf(rd, sha, spec, CsvRecords(spec, rows)))
  }

  function NdResult(rd: Readers, sha: Sha, spec: RegisterSpec, file: NdFile): Result<Tally, Fatal> {
    match file
    case NdUndecodable => Err(NotUtf8)
    case Nd(lines) =>
      var head := FirstObject(lines);
      if head.Some? && Names(spec) - head.value != {} then Err(MissingColumns(Names(spec) - head.value))
      else Finished(TallyOf(rd, sha, spec, NdRecords(spec, lines)))
  }

  /** The mutable result that both parsers fill, with the counter of hashes seen so far. */
  class Accumulator {
    var rows: seq<RegisterRow>
    var rejections: seq<Rejection>
    var collapsed: nat
    var seen: map<string, nat>

    constructor ()
      ensures Valid() && Contents() == Tally([], [], 0)
    {
      rows, rejections, collapsed, seen := [], [], 0, map[];
    }

    ghost function Contents(): Tally
      reads this
    {
      Tally(rows, rejections, collapsed)
    }

    ghost predicate Valid()
      reads this
    {
      forall h :: (h in seen && seen[h] > 0) <==> Kept(rows, h)
    }

    method Accumulate(parsed: Parsed)
      requires Valid()
      modifies this
      ensures Valid() && Contents() == File(old(Contents()), parsed)
    {
      if parsed.Err? {
        rejections := rejections + [parsed.error];
        return;
      }
      var row := parsed.value;
      var count := if row.rowHash in seen then seen[row.rowHash] else 0;
      ghost var before := rows;
      seen := seen[row.rowHash := count + 1];
      if count + 1 > 1 {
        collapsed := collapsed + 1;
      } else {
        rows := rows + [row];
        forall h
          ensures Kept(rows, h) <==> h == row.rowHash || Kept(before, h)
        {
          KeptOfAppend(before, row, h);
        }
      }
    }
  }

  method ParseRegisterCsv(rd: Readers, sha: Sha, spec: RegisterSpec, file: CsvFile) returns (r: Result<Tally, Fatal>)
    ensures r == CsvResult(rd, sha, spec, file)
  {
    if file.CsvUndecodable? {
      return Err(NotUtf8);
    }
    var missing := Names(spec) - file.fieldNames;
    if missing != {} {
      return Err(MissingColumns(missing));
    }
    var acc := new Accumulator();
    ghost var ps := ParseAll(rd, sha, spec, CsvRecords(spec, file.rows));
    for i := 0 to |file.rows|
      invariant acc.Valid() && fresh(acc)
      invariant acc.Contents() == FileAll(ps[..i])
    {
      assert ps[..i + 1][..i] == ps[..i];
      acc.Accumulate(ParseRow(rd, sha, spec, CsvCells(spec, file.rows[i]), i + 2));
    }
    assert ps[..|file.rows|] == ps;
    if acc.rows == [] && acc.rejections == [] {
      return Err(NoDataRows);
    }
    r := Ok(Tally(acc.rows, acc.rejections, acc.collapsed));
  }

  method ParseRegisterNdjson(rd: Readers, sha: Sha, spec: RegisterSpec, file: NdFile) returns (r: Result<Tally, Fatal>)
    ensures r == NdResult(rd, sha, spec, file)
  {
    if file.NdUndecodable? {
      return Err(NotUtf8);
    }
    var acc := new Accumulator();
    var headerChecked := false;
    for i := 0 to |file.lines|
      invariant acc.Valid() && fresh(acc)
      invariant acc.Contents() == TallyOf(rd, sha, spec, NdRecords(spec, file.lines[..i]))
      invariant headerChecked <==> FirstObject(file.lines[..i]).Some?
      invariant headerChecked ==> Names(spec) - FirstObject(file.lines[..i]).value == {}
    {
      assert file.lines[..i + 1][..i] == file.lines[..i];
      ghost var before := NdRecords(spec, file.lines[..i]);
      var line := file.lines[i];
      match line {
        case BlankLine =>
          assert before + [] == before;
        case MalformedLine =>
          TallyOfAppend(rd, sha, spec, before, Broken(i + 1, NotJson));
          acc.Accumulate(Err(Rejection(i + 1, None, NotJson)));
        case OtherJson =>
          TallyOfAppend(rd, sha, spec, before, Broken(i + 1, NotAnObject));
          acc.Accumulate(Err(Rejection(i + 1, None, NotAnObject)));
        case Object(fields) =>
          if !headerChecked {
            headerChecked := true;
            var missing := Names(spec) - fields.Keys;
            if missing != {} {
              FirstObjectStays(file.lines, i + 1);
              return Err(MissingColumns(missing));
            }
          }
          TallyOfAppend(rd, sha, spec, before, Row(i + 1, NdCells(spec, fields)));
          acc.Accumulate(ParseRow(rd, sha, spec, NdCells(spec, fields), i + 1));
      }
    }
    assert file.lines[..|file.lines|] == file.lines;
    if acc.rows == [] && acc.rejections == [] {
      return Err(NoDataRows);
    }
    r := Ok(Tally(acc.rows, acc.rejections, acc.collapsed));
  }

  lemma TallyOfAppend(rd: Readers, sha: Sha, spec: RegisterSpec, recs: seq<Record>, rec: Record)
    ensures TallyOf(rd, sha, spec, recs + [rec]) == File(TallyOf(rd, sha, spec, recs), ParseRecord(rd, sha, spec, rec))
  {
    assert ParseAll(rd, sha, spec, recs + [rec])[..|recs|] == ParseAll(rd, sha, spec, recs);
  }

  lemma {:induction false} FirstObjectStays(lines: seq<NdLine>, i: nat)
    requires i <= |lines| && FirstObject(lines[..i]).Some?
    ensures FirstObject(lines) == FirstObject(lines[..i])
    decreases |lines|
  {
    if i == |lines| {
      assert lines[..i] == lines;
    } else {
      var before := lines[..|lines| - 1];
      assert before[..i] == lines[..i];
      FirstObjectStays(before, i);
    }
  }

  // ---------------------------------------------------------------------------
  // One rule, two framings
  // ---------------------------------------------------------------------------

  /** Equal but for line numbers. */
  ghost predicate SameRow(a: RegisterRow, b: RegisterRow) {
    a.values == b.values && a.rowHash == b.rowHash
  }

  ghost predicate SameTally(a: Tally, b: Tally) {
    && |a.rows| == |b.rows| && (forall i :: 0 <= i < |a.rows| ==> SameRow(a.rows[i], b.rows[i]))
    && |a.rejections| == |b.rejections|
    && (forall i :: 0 <= i < |a.rejections| ==>
          a.rejections[i].column == b.rejections[i].column && a.rejections[i].reason == b.rejections[i].reason)
    && a.collapsed == b.collapsed
  }

  ghost predicate SameParsed(a: Parsed, b: Parsed) {
    match (a, b)
    case (Ok(r), Ok(q)) => SameRow(r, q)
    case (Err(r), Err(q)) => r.column == q.column && r.reason == q.reason
    case _ => false
  }

  lemma {:induction false} SameParsedSameTally(a: seq<Parsed>, b: seq<Parsed>)
    requires |a| == |b|
    requires forall i :: 0 <= i < |a| ==> SameParsed(a[i], b[i])
    ensures SameTally(FileAll(a), FileAll(b))
  {
    if a != [] {
      var n := |a| - 1;
      SameParsedSameTally(a[..n], b[..n]);
      if a[n].Ok? {
        KeptHashes(a[..n], a[n].value.rowHash);
        KeptHashes(b[..n], a[n].value.rowHash);
        assert forall i :: 0 <= i < n ==> SameParsed(a[..n][i], b[..n][i]);
      }
    }
  }

  lemma SameCellsSameParse(rd: Readers, sha: Sha, spec: RegisterSpec, cells: Cells, line: nat, other: nat)
    ensures SameParsed(ParseRecord(rd, sha, spec, Row(line, cells)), ParseRecord(rd, sha, spec, Row(other, cells)))
  {
  }

  lemma SameRecordsSameTally(rd: Readers, sha: Sha, spec: RegisterSpec, a: seq<Record>, b: seq<Record>)
    requires |a| == |b|
    requires forall i :: 0 <= i < |a| ==> a[i].Row? && b[i].Row? && a[i].cells == b[i].cells
    ensures SameTally(TallyOf(rd, sha, spec, a), TallyOf(rd, sha, spec, b))
  {
    var p, q := ParseAll(rd, sha, spec, a), ParseAll(rd, sha, spec, b);
    forall i | 0 <= i < |a| ensures SameParsed(p[i], q[i]) {
      SameCellsSameParse(rd, sha, spec, a[i].cells, a[i].line, b[i].line);
    }
    SameParsedSameTally(p, q);
  }

  /** An NDJSON file of objects and a CSV file whose rows read the same cell by cell give the
      same rows, hashes, rejections and duplicate count. */
  lemma CsvAndNdjsonAgree(rd: Readers, sha: Sha, spec: RegisterSpec, csv: CsvFile, nd: NdFile)
    requires csv.Csv? && nd.Nd? && |csv.rows| == |nd.lines|
    requires forall i :: 0 <= i < |nd.lines| ==> nd.lines[i].Object? && NdCells(spec, nd.lines[i].fields) == CsvCells(spec, csv.rows[i])
    requires CsvResult(rd, sha, spec, csv).Ok? && NdResult(rd, sha, spec, nd).Ok?
    ensures SameTally(CsvResult(rd, sha, spec, csv).value, NdResult(rd, sha, spec, nd).value)
  {
    AllObjects(spec, nd.lines);
    SameRecordsSameTally(rd, sha, spec, CsvRecords(spec, csv.rows), NdRecords(spec, nd.lines));
  }

  lemma {:induction false} AllObjects(spec: RegisterSpec, lines: seq<NdLine>)
    requires forall i :: 0 <= i < |lines| ==> lines[i].Object?
    ensures |NdRecords(spec, lines)| == |lines|
    ensures forall i :: 0 <= i < |lines| ==> NdRecords(spec, lines)[i] == Row(i + 1, NdCells(spec, lines[i].fields))
  {
    if lines != [] {
      AllObjects(spec, lines[..|lines| - 1]);
    }
  }
}
