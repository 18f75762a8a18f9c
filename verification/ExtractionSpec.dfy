/** The extraction spec (src/extraction/spec.py): the registry cell that says which labelled
    values and which table a document type's extractor looks for. */
module ExtractionSpec {
  import opened Prelude
  import opened Text
  import opened Clauses
  import Contract
  import TableScanner

  // Compiling the row pattern is a parameter: the named groups of a valid pattern, or None.

  type Compile = string -> Option<set<string>>

  datatype Field = Field(name: string, kind: string, required: bool, labelText: string)

  type Column = TableScanner.Column

  datatype TableSpec = TableSpec(pattern: string, columns: seq<Column>)

  datatype Spec = Spec(authority: Option<string>, fields: seq<Field>, table: Option<TableSpec>)

  const CLAUSE_KEYS: set<string> := {"authority", "fields", "table_pattern", "table_columns"}

  const FIELD_TYPES: set<string> := {"text", "date", "money", "int", "gstin", "hsn", "date_range"}

  /** [a-z_]+ */
  predicate KindChars(kind: string) {
    kind != "" && forall i :: 0 <= i < |kind| ==> 'a' <= kind[i] <= 'z' || kind[i] == '_'
  }

  predicate PlainTypes(types: set<string>) {
    forall kind :: kind in types ==> KindChars(kind)
  }

  lemma FieldTypesArePlain()
    ensures PlainTypes(FIELD_TYPES)
  {
  }

  // ---------------------------------------------------------------------------
  // The fields clause
  // ---------------------------------------------------------------------------

  /** A quoted text without a newline: what `"(.*)"$` takes. */
  predicate Quoted(s: string) {
    |s| >= 2 && s[0] == '"' && s[|s| - 1] == '"'
  }

  /** The field pattern's groups: no two neighbouring parts share a character, so the first two
      colons divide the token. */
  function MatchField(token: string): Option<Field> {
    match Cut(token, ':')
    case None => None
    case Some(p) =>
      match Cut(p.1, ':')
      case None => None
      case Some(q) =>
        var required := q.0 != "" && q.0[|q.0| - 1] == '!';
        var kind := if required then q.0[..|q.0| - 1] else q.0;
        if !Contract.LegalName(p.0) || !KindChars(kind) || !Quoted(q.1) || !Lacks(q.1, '\n') then None
        else Some(Field(p.0, kind, required, q.1[1..|q.1| - 1]))
  }

  function ParseField(types: set<string>, token: string): Result<Field, Fault> {
    match MatchField(token)
    case None => Err(BadToken(token))
    case Some(f) =>
      if !Contract.MatchesName(f.name) then Err(BadName(f.name))
      else if f.kind !in types then Err(UnknownType(f.name, f.kind))
      else Ok(f)
  }

  function Names(fields: seq<Field>): set<string> {
    set f | f in fields :: f.name
  }

  function AddField(types: set<string>, out: seq<Field>, token: string): Result<seq<Field>, Fault> {
    if token == "" then Ok(out)
    else
      match ParseField(types, token)
      case Err(fault) => Err(fault)
      case Ok(f) => if f.name in Names(out) then Err(DeclaredTwice(f.name)) else Ok(out + [f])
  }

  function ReadFields(types: set<string>, tokens: seq<string>): Result<seq<Field>, Fault> {
    if |tokens| == 0 then Ok([])
    else
      var before := ReadFields(types, tokens[..|tokens| - 1]);
      if before.Err? then before else AddField(types, before.value, Strip(tokens[|tokens| - 1]))
  }

  function FieldsOf(types: set<string>, raw: string): Result<seq<Field>, Fault> {
    ReadFields(types, Split(raw, ','))
  }

  lemma {:induction false} FieldFaultStays(types: set<string>, tokens: seq<string>, n: nat)
    requires n <= |tokens| && ReadFields(types, tokens[..n]).Err?
    ensures ReadFields(types, tokens) == ReadFields(types, tokens[..n])
    decreases |tokens|
  {
    if n == |tokens| {
      assert tokens[..n] == tokens;
    } else {
      assert tokens[..|tokens| - 1][..n] == tokens[..n];
      FieldFaultStays(types, tokens[..|tokens| - 1], n);
    }
  }

  lemma NextField(types: set<string>, tokens: seq<string>, i: nat)
    requires i < |tokens| && ReadFields(types, tokens[..i]).Ok?
    ensures var added := AddField(types, ReadFields(types, tokens[..i]).value, Strip(tokens[i]));
            && ReadFields(types, tokens[..i + 1]) == added
            && (added.Err? ==> ReadFields(types, tokens) == added)
  {
    assert tokens[..i + 1][..i] == tokens[..i];
    if ReadFields(types, tokens[..i + 1]).Err? {
      FieldFaultStays(types, tokens, i + 1);
    }
  }

  /** One token appended to the list, whose names so far are `seen`. */
  method AppendField(types: set<string>, out: seq<Field>, seen: set<string>, token: string)
    returns (r: Result<seq<Field>, Fault>, grown: set<string>)
    requires seen == Names(out)
    ensures r == AddField(types, out, token) && (r.Ok? ==> grown == Names(r.value))
  {
    if token == "" {
      return Ok(out), seen;
    }
    var parsed := ParseField(types, token);
    if parsed.Err? {
      return Err(parsed.error), seen;
    }
    if parsed.value.name in seen {
      return Err(DeclaredTwice(parsed.value.name)), seen;
    }
    return Ok(out + [parsed.value]), seen + {parsed.value.name};
  }

  method ParseFields(types: set<string>, raw: string) returns (r: Result<seq<Field>, Fault>)
    ensures r == FieldsOf(types, raw)
  {
    var tokens := Split(raw, ',');
    var out: seq<Field>, seen: set<string> := [], {};
    for i := 0 to |tokens|
      invariant ReadFields(types, tokens[..i]) == Ok(out) && seen == Names(out)
    {
      NextField(types, tokens, i);
      var added, grown := AppendField(types, out, seen, Strip(tokens[i]));
      if added.Err? {
        return Err(added.error);
      }
      out, seen := added.value, grown;
    }
    assert tokens[..|tokens|] == tokens;
    return Ok(out);
  }

  // ---------------------------------------------------------------------------
  // The table clauses
  // ---------------------------------------------------------------------------

  function ParseColumn(types: set<string>, token: string): Result<Column, Fault> {
    match Cut(token, ':')
    case None => Err(BadToken(token))
    case Some(p) =>
      if !Contract.LegalName(p.0) || !KindChars(p.1) then Err(BadToken(token))
      else if p.1 !in types then Err(UnknownType(p.0, p.1))
      else Ok(TableScanner.Column(p.0, p.1))
  }

  function ColumnNames(columns: seq<Column>): set<string> {
    set c | c in columns :: c.name
  }

  function AddColumn(types: set<string>, out: seq<Column>, token: string): Result<seq<Column>, Fault> {
    if token == "" then Ok(out)
    else
      match ParseColumn(types, token)
      case Err(fault) => Err(fault)
      case Ok(c) => if c.name in ColumnNames(out) then Err(DeclaredTwice(c.name)) else Ok(out + [c])
  }

  function ReadColumns(types: set<string>, tokens: seq<string>): Result<seq<Column>, Fault> {
    if |tokens| == 0 then Ok([])
    else
      var before := ReadColumns(types, tokens[..|tokens| - 1]);
      if before.Err? then before else AddColumn(types, before.value, Strip(tokens[|tokens| - 1]))
  }

  function ColumnsOf(types: set<string>, raw: string): Result<seq<Column>, Fault> {
    ReadColumns(types, Split(raw, ','))
  }

  lemma {:induction false} ColumnFaultStays(types: set<string>, tokens: seq<string>, n: nat)
    requires n <= |tokens| && ReadColumns(types, tokens[..n]).Err?
    ensures ReadColumns(types, tokens) == ReadColumns(types, tokens[..n])
    decreases |tokens|
  {
    if n == |tokens| {
      assert tokens[..n] == tokens;
    } else {
      assert tokens[..|tokens| - 1][..n] == tokens[..n];
      ColumnFaultStays(types, tokens[..|tokens| - 1], n);
    }
  }

  lemma NextColumn(types: set<string>, tokens: seq<string>, i: nat)
    requires i < |tokens| && ReadColumns(types, tokens[..i]).Ok?
    ensures var added := AddColumn(types, ReadColumns(types, tokens[..i]).value, Strip(tokens[i]));
            && ReadColumns(types, tokens[..i + 1]) == added
            && (added.Err? ==> ReadColumns(types, tokens) == added)
  {
    assert tokens[..i + 1][..i] == tokens[..i];
    if ReadColumns(types, tokens[..i + 1]).Err? {
      ColumnFaultStays(types, tokens, i + 1);
    }
  }

  /** One token appended to the list, whose names so far are `seen`. */
  method AppendColumn(types: set<string>, out: seq<Column>, seen: set<string>, token: string)
    returns (r: Result<seq<Column>, Fault>, grown: set<string>)
    requires seen == ColumnNames(out)
    ensures r == AddColumn(types, out, token) && (r.Ok? ==> grown == ColumnNames(r.value))
  {
    if token == "" {
      return Ok(out), seen;
    }
    var parsed := ParseColumn(types, token);
    if parsed.Err? {
      return Err(parsed.error), seen;
    }
    if parsed.value.name in seen {
      return Err(DeclaredTwice(parsed.value.name)), seen;
    }
    return Ok(out + [parsed.value]), seen + {parsed.value.name};
  }

  method ParseTableColumns(types: set<string>, raw: string) returns (r: Result<seq<Column>, Fault>)
    ensures r == ColumnsOf(types, raw)
  {
    var tokens := Split(raw, ',');
    var out: seq<Column>, seen: set<string> := [], {};
    for i := 0 to |tokens|
      invariant ReadColumns(types, tokens[..i]) == Ok(out) && seen == ColumnNames(out)
    {
      NextColumn(types, tokens, i);
      var added, grown := AppendColumn(types, out, seen, Strip(tokens[i]));
      if added.Err? {
        return Err(added.error);
      }
      out, seen := added.value, grown;
    }
    assert tokens[..|tokens|] == tokens;
    return Ok(out);
  }

  /** Both clauses or neither; a quoted pattern that compiles; columns that are its groups. */
  function TableOfClauses(compile: Compile, types: set<string>, pattern: Option<string>, columns: Option<string>)
    : Result<Option<TableSpec>, Fault>
  {
    if pattern.None? && columns.None? then Ok(None)
    else if pattern.None? || columns.None? then Err(HalfTable)
    else if !Quoted(pattern.value) then Err(UnquotedPattern)
    else
      var source := pattern.value[1..|pattern.value| - 1];
      var groups, cols := compile(source), ColumnsOf(types, columns.value);
      if groups.None? then Err(InvalidPattern)
      else if cols.Err? then Err(cols.error)
      else if cols.value == [] then Err(NoColumns)
      else if groups.value != ColumnNames(cols.value) then Err(GroupMismatch)
      else Ok(Some(TableSpec(source, cols.value)))
  }

  // ---------------------------------------------------------------------------
  // The whole cell
  // ---------------------------------------------------------------------------

  function Lookup(clauses: Table, key: string): Option<string> {
    if key in clauses then Some(clauses[key]) else None
  }

  /** An absent authority and an empty one are the same. */
  function AuthorityOf(text: Option<string>): Option<string> {
    if text == Some("") then None else text
  }

  function Interpret(compile: Compile, types: set<string>, authority: Option<string>, fields: Option<string>,
                     pattern: Option<string>, columns: Option<string>): Result<Spec, Fault> {
    if fields.None? then Err(MissingClause("fields"))
    else
      var parsed, table := FieldsOf(types, fields.value), TableOfClauses(compile, types, pattern, columns);
      if parsed.Err? then Err(parsed.error)
      else if table.Err? then Err(table.error)
      else Ok(Spec(AuthorityOf(authority), parsed.value, table.value))
  }

  function InterpretClauses(compile: Compile, types: set<string>, clauses: Table): Result<Spec, Fault> {
    Interpret(compile, types, Lookup(clauses, "authority"), Lookup(clauses, "fields"),
              Lookup(clauses, "table_pattern"), Lookup(clauses, "table_columns"))
  }

  function SpecOf(compile: Compile, raw: string): Result<Spec, Fault> {
    var clauses := ClausesOf(CLAUSE_KEYS, raw);
    if clauses.Err? then Err(clauses.error) else InterpretClauses(compile, FIELD_TYPES, clauses.value)
  }

  method ParseTable(compile: Compile, types: set<string>, pattern: Option<string>, columns: Option<string>)
    returns (r: Result<Option<TableSpec>, Fault>)
    ensures r == TableOfClauses(compile, types, pattern, columns)
  {
    if pattern.None? && columns.None? {
      return Ok(None);
    }
    if pattern.Some? != columns.Some? {
      return Err(HalfTable);
    }
    if !Quoted(pattern.value) {
      return Err(UnquotedPattern);
    }
    var source := pattern.value[1..|pattern.value| - 1];
    var groups := compile(source);
    if groups.None? {
      return Err(InvalidPattern);
    }
    var cols := ParseTableColumns(types, columns.value);
    if cols.Err? {
      return Err(cols.error);
    }
    if cols.value == [] {
      return Err(NoColumns);
    }
    if groups.value != ColumnNames(cols.value) {
      return Err(GroupMismatch);
    }
    return Ok(Some(TableSpec(source, cols.value)));
  }

  method ParseExtractionSpec(compile: Compile, raw: string) returns (r: Result<Spec, Fault>)
    ensures r == SpecOf(compile, raw)
  {
    var clauses := ParseClauses(CLAUSE_KEYS, raw);
    if clauses.Err? {
      return Err(clauses.error);
    }
    if "fields" !in clauses.value {
      return Err(MissingClause("fields"));
    }
    var fields := ParseFields(FIELD_TYPES, clauses.value["fields"]);
    if fields.Err? {
      return Err(fields.error);
    }
    var table := ParseTable(compile, FIELD_TYPES, Lookup(clauses.value, "table_pattern"), Lookup(clauses.value, "table_columns"));
    if table.Err? {
      return Err(table.error);
    }
    return Ok(Spec(AuthorityOf(Lookup(clauses.value, "authority")), fields.value, table.value));
  }

  // ---------------------------------------------------------------------------
  // The table a spec declares
  // ---------------------------------------------------------------------------

  predicate DistinctColumns(columns: seq<Column>) {
    forall i, j :: 0 <= i < j < |columns| ==> columns[i].name != columns[j].name
  }

  predicate WellFormedColumns(types: set<string>, columns: seq<Column>) {
    && DistinctColumns(columns)
    && forall i :: 0 <= i < |columns| ==> Contract.LegalName(columns[i].name) && columns[i].kind in types
  }

  lemma AddColumnKeeps(types: set<string>, out: seq<Column>, token: string)
    requires WellFormedColumns(types, out) && AddColumn(types, out, token).Ok?
    ensures WellFormedColumns(types, AddColumn(types, out, token).value)
  {
    assert forall i :: 0 <= i < |out| ==> out[i].name in ColumnNames(out);
  }

  lemma {:induction false} AcceptedColumns(types: set<string>, tokens: seq<string>)
    requires ReadColumns(types, tokens).Ok?
    ensures WellFormedColumns(types, ReadColumns(types, tokens).value)
  {
    if |tokens| > 0 {
      AcceptedColumns(types, tokens[..|tokens| - 1]);
      AddColumnKeeps(types, ReadColumns(types, tokens[..|tokens| - 1]).value, Strip(tokens[|tokens| - 1]));
    }
  }

  /** What acceptance says of the table: both clauses or neither, and with them a pattern that
      compiles whose named groups are the columns, each named once and of a known type. */
  lemma AcceptedTable(compile: Compile, raw: string)
    requires SpecOf(compile, raw).Ok?
    ensures var m, table := ClausesOf(CLAUSE_KEYS, raw).value, SpecOf(compile, raw).value.table;
            && (table.Some? <==> "table_pattern" in m) && (table.Some? <==> "table_columns" in m)
            && (table.Some? ==>
                  && table.value.columns != [] && WellFormedColumns(FIELD_TYPES, table.value.columns)
                  && compile(table.value.pattern) == Some(ColumnNames(table.value.columns)))
  {
    var m := ClausesOf(CLAUSE_KEYS, raw).value;
    if "table_columns" in m && ColumnsOf(FIELD_TYPES, m["table_columns"]).Ok? {
      AcceptedColumns(FIELD_TYPES, Split(m["table_columns"], ','));
    }
  }

  /** A regex engine whose matches carry exactly the pattern's named groups. */
  ghost predicate MatchesNameGroups(compile: Compile, fullmatch: (string, string) -> Option<map<string, string>>) {
    forall pattern, text :: compile(pattern).Some? && fullmatch(pattern, text).Some?
                            ==> fullmatch(pattern, text).value.Keys == compile(pattern).value
  }

  function Scanner<V>(table: TableSpec, fullmatch: (string, string) -> Option<map<string, string>>,
                      coerce: (string, string) -> Option<V>): TableScanner.TableSpec<V> {
    TableScanner.TableSpec(text => fullmatch(table.pattern, text), table.columns, coerce)
  }

  /** So the row scanner never asks a match for a group it does not have. */
  lemma ScannerIsSafe<V>(compile: Compile, raw: string, fullmatch: (string, string) -> Option<map<string, string>>,
                         coerce: (string, string) -> Option<V>)
    requires SpecOf(compile, raw).Ok? && SpecOf(compile, raw).value.table.Some?
    requires MatchesNameGroups(compile, fullmatch)
    ensures TableScanner.GroupsMatchColumns(Scanner(SpecOf(compile, raw).value.table.value, fullmatch, coerce))
  {
    AcceptedTable(compile, raw);
    var table := SpecOf(compile, raw).value.table.value;
    forall c | c in table.columns ensures c.name in ColumnNames(table.columns) {
    }
  }

  // ---------------------------------------------------------------------------
  // The canonical printer
  // ---------------------------------------------------------------------------

  function FieldText(f: Field): string {
    f.name + ":" + f.kind + (if f.required then "!" else "") + ":\"" + f.labelText + "\""
  }

  function FieldTexts(fields: seq<Field>): seq<string> {
    seq(|fields|, i requires 0 <= i < |fields| => FieldText(fields[i]))
  }

  function FieldsText(fields: seq<Field>): string {
    Glue(FieldTexts(fields), ',')
  }

  function ColumnText(c: Column): string {
    c.name + ":" + c.kind
  }

  function ColumnTexts(columns: seq<Column>): seq<string> {
    seq(|columns|, i requires 0 <= i < |columns| => ColumnText(columns[i]))
  }

  function ColumnsText(columns: seq<Column>): string {
    Glue(ColumnTexts(columns), ',')
  }

  predicate PlainLabel(text: string) {
    Lacks(text, ',') && Lacks(text, ';') && Lacks(text, '\n')
  }

  predicate WellFormedFields(types: set<string>, fields: seq<Field>) {
    && (forall i :: 0 <= i < |fields| ==>
          Contract.LegalName(fields[i].name) && fields[i].kind in types && PlainLabel(fields[i].labelText))
    && (forall i, j :: 0 <= i < j < |fields| ==> fields[i].name != fields[j].name)
  }

  /** A label containing a comma or semicolon cannot be written: the cell is split on those
      before quotes are read. */
  predicate WellFormed(compile: Compile, types: set<string>, s: Spec) {
    && WellFormedFields(types, s.fields)
    && (s.authority.Some? ==> s.authority.value != "" && Value(s.authority.value))
    && (s.table.Some? ==>
          && Lacks(s.table.value.pattern, ';') && s.table.value.columns != []
          && WellFormedColumns(types, s.table.value.columns)
          && compile(s.table.value.pattern) == Some(ColumnNames(s.table.value.columns)))
  }

  function Entries(s: Spec): seq<Entry> {
    (if s.authority.Some? then [Entry("authority", s.authority.value)] else [])
    + [Entry("fields", FieldsText(s.fields))]
    + if s.table.None? then []
      else [Entry("table_pattern", "\"" + s.table.value.pattern + "\""),
            Entry("table_columns", ColumnsText(s.table.value.columns))]
  }

  function SpecText(s: Spec): string {
    PrintClauses(Entries(s))
  }

  // ---------------------------------------------------------------------------
  // Printing and reading back
  // ---------------------------------------------------------------------------

  predicate WellFormedField(types: set<string>, f: Field) {
    Contract.LegalName(f.name) && f.kind in types && PlainLabel(f.labelText)
  }

  function Mark(f: Field): string {
    f.kind + if f.required then "!" else ""
  }

  lemma MarkShape(f: Field)
    requires KindChars(f.kind)
    ensures Lacks(Mark(f), ':') && Lacks(Mark(f), ',') && Lacks(Mark(f), ';') && Mark(f) != ""
    ensures Mark(f)[|Mark(f)| - 1] == '!' <==> f.required
    ensures f.required ==> Mark(f)[..|Mark(f)| - 1] == f.kind
  {
  }

  lemma FieldShape(f: Field)
    requires Contract.LegalName(f.name) && KindChars(f.kind) && PlainLabel(f.labelText)
    ensures FieldText(f) == f.name + ":" + (Mark(f) + ":" + ("\"" + f.labelText + "\""))
    ensures FieldText(f) != "" && Trim(FieldText(f)) && Lacks(FieldText(f), ',') && Lacks(FieldText(f), ';')
  {
    MarkShape(f);
    var quoted := "\"" + f.labelText + "\"";
    var tail := Mark(f) + ":" + quoted;
    var token := f.name + ":" + tail;
    assert token == FieldText(f);
    Parts(Mark(f), quoted, ',');
    Parts(Mark(f), quoted, ';');
    Parts(f.name, tail, ',');
    Parts(f.name, tail, ';');
    assert token[0] == f.name[0] && token[|token| - 1] == '"';
  }

  lemma Parts(a: string, b: string, c: char)
    requires c != ':' && Lacks(a, c) && Lacks(b, c)
    ensures Lacks(a + ":" + b, c)
  {
  }

  lemma MatchesPrinted(f: Field)
    requires Contract.LegalName(f.name) && KindChars(f.kind) && PlainLabel(f.labelText)
    ensures MatchField(FieldText(f)) == Some(f)
  {
    FieldShape(f);
    MarkShape(f);
    var quoted := "\"" + f.labelText + "\"";
    var tail := Mark(f) + ":" + quoted;
    assert f.required || Mark(f) == f.kind;
    CutAt(f.name, ':', tail);
    CutAt(Mark(f), ':', quoted);
    assert Cut(FieldText(f), ':') == Some((f.name, tail)) && Cut(tail, ':') == Some((Mark(f), quoted));
    assert quoted[1..|quoted| - 1] == f.labelText;
    assert Lacks(quoted, '\n');
  }

  lemma AddFieldReads(types: set<string>, front: seq<Field>, last: Field)
    requires PlainTypes(types) && WellFormedField(types, last) && last.name !in Names(front)
    ensures AddField(types, front, Strip(FieldText(last))) == Ok(front + [last])
  {
    FieldShape(last);
    StripKeeps(FieldText(last));
    MatchesPrinted(last);
  }

  lemma FrontIsWellFormed(types: set<string>, fields: seq<Field>)
    requires |fields| > 0 && WellFormedFields(types, fields)
    ensures var front, last := fields[..|fields| - 1], fields[|fields| - 1];
            WellFormedFields(types, front) && WellFormedField(types, last) && last.name !in Names(front)
  {
  }

  lemma {:induction false} FieldsRead(types: set<string>, fields: seq<Field>)
    requires PlainTypes(types) && WellFormedFields(types, fields)
    ensures ReadFields(types, FieldTexts(fields)) == Ok(fields)
  {
    if |fields| > 0 {
      var front, last := fields[..|fields| - 1], fields[|fields| - 1];
      FrontIsWellFormed(types, fields);
      FieldsRead(types, front);
      assert FieldTexts(fields)[..|front|] == FieldTexts(front);
      AddFieldReads(types, front, last);
      assert front + [last] == fields;
    }
  }

  /** Printed fields are one clean clause value, and reading it gives them back. */
  lemma FieldsRoundTrip(types: set<string>, fields: seq<Field>)
    requires PlainTypes(types) && WellFormedFields(types, fields)
    ensures Value(FieldsText(fields)) && FieldsOf(types, FieldsText(fields)) == Ok(fields)
  {
    var parts := FieldTexts(fields);
    forall i | 0 <= i < |parts|
      ensures parts[i] != "" && Trim(parts[i]) && Lacks(parts[i], ',') && Lacks(parts[i], ';')
    {
      FieldShape(fields[i]);
    }
    Contract.GlueEnds(parts);
    GlueLacks(parts, ',', ';');
    FieldsRead(types, fields);
    if fields == [] {
      assert Split("", ',') == [""] && [""][..0] == [];
    } else {
      SplitGlue(parts, ',');
    }
  }

  lemma ColumnShape(c: Column)
    requires Contract.LegalName(c.name) && KindChars(c.kind)
    ensures ColumnText(c) != "" && Trim(ColumnText(c)) && Lacks(ColumnText(c), ',') && Lacks(ColumnText(c), ';')
    ensures Cut(ColumnText(c), ':') == Some((c.name, c.kind))
  {
    var token := ColumnText(c);
    assert token[0] == c.name[0] && token[|token| - 1] == c.kind[|c.kind| - 1];
    Parts(c.name, c.kind, ',');
    Parts(c.name, c.kind, ';');
    CutAt(c.name, ':', c.kind);
  }

  lemma AddColumnReads(types: set<string>, front: seq<Column>, last: Column)
    requires PlainTypes(types) && Contract.LegalName(last.name) && last.kind in types && last.name !in ColumnNames(front)
    ensures AddColumn(types, front, Strip(ColumnText(last))) == Ok(front + [last])
  {
    ColumnShape(last);
    StripKeeps(ColumnText(last));
  }

  lemma {:induction false} ColumnsRead(types: set<string>, columns: seq<Column>)
    requires PlainTypes(types) && WellFormedColumns(types, columns)
    ensures ReadColumns(types, ColumnTexts(columns)) == Ok(columns)
  {
    if |columns| > 0 {
      var front, last := columns[..|columns| - 1], columns[|columns| - 1];
      ColumnsRead(types, front);
      assert ColumnTexts(columns)[..|front|] == ColumnTexts(front);
      AddColumnReads(types, front, last);
      assert front + [last] == columns;
    }
  }

  lemma ColumnsRoundTrip(types: set<string>, columns: seq<Column>)
    requires PlainTypes(types) && WellFormedColumns(types, columns) && columns != []
    ensures Value(ColumnsText(columns)) && ColumnsOf(types, ColumnsText(columns)) == Ok(columns)
  {
    var parts := ColumnTexts(columns);
    forall i | 0 <= i < |parts|
      ensures parts[i] != "" && Trim(parts[i]) && Lacks(parts[i], ',') && Lacks(parts[i], ';')
    {
      ColumnShape(columns[i]);
    }
    Contract.GlueEnds(parts);
    GlueLacks(parts, ',', ';');
    ColumnsRead(types, columns);
    SplitGlue(parts, ',');
  }

  function PatternText(s: Spec): Option<string> {
    if s.table.None? then None else Some("\"" + s.table.value.pattern + "\"")
  }

  function ColumnsClause(s: Spec): Option<string> {
    if s.table.None? then None else Some(ColumnsText(s.table.value.columns))
  }

  lemma ClausesInterpret(compile: Compile, types: set<string>, s: Spec)
    requires PlainTypes(types) && WellFormed(compile, types, s)
    ensures Interpret(compile, types, s.authority, Some(FieldsText(s.fields)), PatternText(s), ColumnsClause(s)) == Ok(s)
  {
    FieldsRoundTrip(types, s.fields);
    if s.table.Some? {
      ColumnsRoundTrip(types, s.table.value.columns);
      var quoted := PatternText(s).value;
      assert quoted[1..|quoted| - 1] == s.table.value.pattern;
    }
  }

  lemma KeysArePlain()
    ensures Plain("authority") && Plain("fields") && Plain("table_pattern") && Plain("table_columns")
    ensures "authority" != "fields" && "authority" != "table_pattern" && "authority" != "table_columns"
    ensures "fields" != "table_pattern" && "fields" != "table_columns" && "table_pattern" != "table_columns"
  {
  }

  lemma PatternIsValue(p: string)
    requires Lacks(p, ';')
    ensures Value("\"" + p + "\"")
  {
  }

  lemma PartsArePrintable(keys: set<string>, a: Entry, f: Entry, p: Entry, c: Entry)
    requires Plain(a.key) && Plain(f.key) && Plain(p.key) && Plain(c.key)
    requires a.key in keys && f.key in keys && p.key in keys && c.key in keys
    requires a.key != f.key && a.key != p.key && a.key != c.key && f.key != p.key && f.key != c.key && p.key != c.key
    requires Value(f.text)
    ensures Printable(keys, [f])
    ensures Value(a.text) ==> Printable(keys, [a, f])
    ensures Value(p.text) && Value(c.text) ==> Printable(keys, [f, p, c])
    ensures Value(a.text) && Value(p.text) && Value(c.text) ==> Printable(keys, [a, f, p, c])
  {
  }

  lemma PartsAreValues(compile: Compile, types: set<string>, s: Spec)
    requires PlainTypes(types) && WellFormed(compile, types, s)
    ensures s.authority.Some? ==> Value(s.authority.value)
    ensures Value(FieldsText(s.fields))
    ensures s.table.Some? ==> Value(PatternText(s).value) && Value(ColumnsClause(s).value)
  {
    FieldsRoundTrip(types, s.fields);
    if s.table.Some? {
      ColumnsRoundTrip(types, s.table.value.columns);
      PatternIsValue(s.table.value.pattern);
    }
  }

  lemma EntriesArePrintable(compile: Compile, types: set<string>, s: Spec)
    requires PlainTypes(types) && WellFormed(compile, types, s)
    ensures Printable(CLAUSE_KEYS, Entries(s))
  {
    KeysArePlain();
    PartsAreValues(compile, types, s);
    var a := Entry("authority", if s.authority.Some? then s.authority.value else "");
    var f := Entry("fields", FieldsText(s.fields));
    var p := Entry("table_pattern", if s.table.Some? then PatternText(s).value else "");
    var c := Entry("table_columns", if s.table.Some? then ColumnsClause(s).value else "");
    PartsArePrintable(CLAUSE_KEYS, a, f, p, c);
    EntriesAre(s, a, f, p, c);
  }

  lemma EntriesAre(s: Spec, a: Entry, f: Entry, p: Entry, c: Entry)
    requires s.authority.Some? ==> a == Entry("authority", s.authority.value)
    requires f == Entry("fields", FieldsText(s.fields))
    requires s.table.Some? ==> p == Entry("table_pattern", PatternText(s).value) && c == Entry("table_columns", ColumnsClause(s).value)
    ensures Entries(s) == if s.authority.Some? then (if s.table.Some? then [a, f, p, c] else [a, f])
                          else (if s.table.Some? then [f, p, c] else [f])
  {
  }

  lemma AbsentKey(e: seq<Entry>, key: string)
    requires forall i :: 0 <= i < |e| ==> e[i].key != key
    ensures Lookup(TableOf(e), key) == None
  {
  }

  lemma PresentKey(keys: set<string>, e: seq<Entry>, i: nat)
    requires Printable(keys, e) && i < |e|
    ensures Lookup(TableOf(e), e[i].key) == Some(e[i].text)
  {
    TableHolds(e, i);
  }

  /** What is found of an optional first entry, a middle one and an optional last pair. */
  lemma PartsLookUp(keys: set<string>, a: Option<Entry>, f: Entry, p: Option<(Entry, Entry)>, e: seq<Entry>, authority: string, pattern: string, columns: string)
    requires e == (if a.Some? then [a.value] else []) + [f] + if p.Some? then [p.value.0, p.value.1] else []
    requires Printable(keys, e)
    requires a.Some? ==> a.value.key == authority
    requires p.Some? ==> p.value.0.key == pattern && p.value.1.key == columns
    requires authority != f.key && authority != pattern && authority != columns
    requires f.key != pattern && f.key != columns && pattern != columns
    ensures Lookup(TableOf(e), authority) == if a.Some? then Some(a.value.text) else None
    ensures Lookup(TableOf(e), f.key) == Some(f.text)
    ensures Lookup(TableOf(e), pattern) == if p.Some? then Some(p.value.0.text) else None
    ensures Lookup(TableOf(e), columns) == if p.Some? then Some(p.value.1.text) else None
  {
    var n := if a.Some? then 1 else 0;
    assert e[n] == f;
    PresentKey(keys, e, n);
    if a.Some? {
      PresentKey(keys, e, 0);
    } else {
      AbsentKey(e, authority);
    }
    if p.Some? {
      assert e[n + 1] == p.value.0 && e[n + 2] == p.value.1;
      PresentKey(keys, e, n + 1);
      PresentKey(keys, e, n + 2);
    } else {
      AbsentKey(e, pattern);
      AbsentKey(e, columns);
    }
  }

  lemma EntriesLookUp(s: Spec)
    requires Printable(CLAUSE_KEYS, Entries(s))
    ensures var m := TableOf(Entries(s));
            && Lookup(m, "authority") == s.authority && Lookup(m, "fields") == Some(FieldsText(s.fields))
            && Lookup(m, "table_pattern") == PatternText(s) && Lookup(m, "table_columns") == ColumnsClause(s)
  {
    KeysArePlain();
    var a := if s.authority.Some? then Some(Entry("authority", s.authority.value)) else None;
    var f := Entry("fields", FieldsText(s.fields));
    var p := if s.table.Some? then Some((Entry("table_pattern", PatternText(s).value), Entry("table_columns", ColumnsClause(s).value))) else None;
    PartsLookUp(CLAUSE_KEYS, a, f, p, Entries(s), "authority", "table_pattern", "table_columns");
  }

  /** Parsing the canonical print of a well-formed spec returns it. */
  lemma ParseUndoesPrint(compile: Compile, s: Spec)
    requires WellFormed(compile, FIELD_TYPES, s)
    ensures SpecOf(compile, SpecText(s)) == Ok(s)
  {
    FieldTypesArePlain();
    EntriesArePrintable(compile, FIELD_TYPES, s);
    EntriesLookUp(s);
    ClausesInterpret(compile, FIELD_TYPES, s);
    ClausesRoundTrip(CLAUSE_KEYS, Entries(s));
  }

  // ---------------------------------------------------------------------------
  // Every accepted cell is well formed
  // ---------------------------------------------------------------------------

  lemma MatchedLabel(token: string)
    requires MatchField(token).Some? && Lacks(token, ',') && Lacks(token, ';')
    ensures PlainLabel(MatchField(token).value.labelText)
  {
    var rest := Cut(token, ':').value.1;
    CutLacks(token, ':', ',');
    CutLacks(token, ':', ';');
    CutLacks(rest, ':', ',');
    CutLacks(rest, ':', ';');
  }

  lemma ParsedField(types: set<string>, token: string)
    requires ParseField(types, token).Ok?
    ensures MatchField(token) == Some(ParseField(types, token).value)
    ensures Contract.LegalName(ParseField(types, token).value.name) && ParseField(types, token).value.kind in types
  {
  }

  lemma OneMoreField(types: set<string>, out: seq<Field>, f: Field)
    requires WellFormedFields(types, out) && WellFormedField(types, f) && f.name !in Names(out)
    ensures WellFormedFields(types, out + [f])
  {
    assert forall i :: 0 <= i < |out| ==> out[i].name in Names(out);
  }

  lemma AddFieldKeeps(types: set<string>, out: seq<Field>, token: string)
    requires WellFormedFields(types, out) && AddField(types, out, token).Ok? && Lacks(token, ',') && Lacks(token, ';')
    ensures WellFormedFields(types, AddField(types, out, token).value)
  {
    if token != "" {
      MatchedLabel(token);
      ParsedField(types, token);
      OneMoreField(types, out, ParseField(types, token).value);
    }
  }

  lemma {:induction false} AcceptedFields(types: set<string>, tokens: seq<string>)
    requires ReadFields(types, tokens).Ok? && AllLack(tokens, ',') && AllLack(tokens, ';')
    ensures WellFormedFields(types, ReadFields(types, tokens).value)
  {
    if |tokens| > 0 {
      var last := tokens[|tokens| - 1];
      AcceptedFields(types, tokens[..|tokens| - 1]);
      StripLacks(last, ',');
      StripLacks(last, ';');
      AddFieldKeeps(types, ReadFields(types, tokens[..|tokens| - 1]).value, Strip(last));
    }
  }

  lemma {:induction false} SplitLacks(s: string, c: char, d: char)
    requires Lacks(s, d)
    ensures AllLack(Split(s, c), d)
    decreases |s|
  {
    if Cut(s, c).Some? {
      CutLacks(s, c, d);
      SplitLacks(Cut(s, c).value.1, c, d);
    }
  }

  /** An accepted cell's clauses, and what each part of the spec was read from. */
  lemma AcceptedParts(compile: Compile, raw: string)
    requires SpecOf(compile, raw).Ok?
    ensures var m, s := ClausesOf(CLAUSE_KEYS, raw).value, SpecOf(compile, raw).value;
            && (forall k :: k in m ==> Value(m[k]))
            && "fields" in m && FieldsOf(FIELD_TYPES, m["fields"]) == Ok(s.fields)
            && s.authority == AuthorityOf(Lookup(m, "authority"))
            && TableOfClauses(compile, FIELD_TYPES, Lookup(m, "table_pattern"), Lookup(m, "table_columns")) == Ok(s.table)
  {
    GlueSplit(raw, ';');
    AcceptedClauses(CLAUSE_KEYS, Split(raw, ';'));
  }

  lemma FieldsAreWellFormed(types: set<string>, raw: string)
    requires FieldsOf(types, raw).Ok? && Lacks(raw, ';')
    ensures WellFormedFields(types, FieldsOf(types, raw).value)
  {
    GlueSplit(raw, ',');
    SplitLacks(raw, ',', ';');
    AcceptedFields(types, Split(raw, ','));
  }

  lemma PatternLacks(compile: Compile, types: set<string>, pattern: Option<string>, columns: Option<string>)
    requires TableOfClauses(compile, types, pattern, columns).Ok? && (pattern.Some? ==> Lacks(pattern.value, ';'))
    ensures var t := TableOfClauses(compile, types, pattern, columns).value; t.Some? ==> Lacks(t.value.pattern, ';')
  {
  }

  lemma AcceptedIsWellFormed(compile: Compile, raw: string)
    requires SpecOf(compile, raw).Ok?
    ensures WellFormed(compile, FIELD_TYPES, SpecOf(compile, raw).value)
  {
    var m := ClausesOf(CLAUSE_KEYS, raw).value;
    AcceptedParts(compile, raw);
    AcceptedTable(compile, raw);
    FieldsAreWellFormed(FIELD_TYPES, m["fields"]);
    PatternLacks(compile, FIELD_TYPES, Lookup(m, "table_pattern"), Lookup(m, "table_columns"));
  }

  /** The specs the parser can return are exactly the well-formed ones; no accepted label holds a
      comma, a semicolon or a newline; printing what was parsed and parsing it changes nothing. */
  lemma PrintThenParseIsStable(compile: Compile, raw: string, s: Spec)
    ensures SpecOf(compile, raw).Ok? ==> SpecOf(compile, SpecText(SpecOf(compile, raw).value)) == SpecOf(compile, raw)
    ensures (exists text :: SpecOf(compile, text) == Ok(s)) <==> WellFormed(compile, FIELD_TYPES, s)
  {
    if SpecOf(compile, raw).Ok? {
      AcceptedIsWellFormed(compile, raw);
      ParseUndoesPrint(compile, SpecOf(compile, raw).value);
    }
    if WellFormed(compile, FIELD_TYPES, s) {
      ParseUndoesPrint(compile, s);
    }
    forall text | SpecOf(compile, text) == Ok(s) ensures WellFormed(compile, FIELD_TYPES, s) {
      AcceptedIsWellFormed(compile, text);
    }
  }
}
