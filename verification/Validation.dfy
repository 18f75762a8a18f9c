/** Whole-file validation of a transaction export (src/silver/validate.py): rows grouped into
    documents, lines cleansed under the type's contract, a file accepted whole or not at all. */
module Validation {
  import opened Prelude
  import Contract

  // Cells arrive with stripped, lower-case column names and stripped values; reading a number, a
  // date or an identifier is a parameter.

  type Row = map<string, string>

  datatype File = Undecodable | NoHeader | Csv(header: set<string>, rows: seq<Row>)

  datatype Readers = Readers(
    decimal: string -> Option<real>, date: string -> Option<int>, integer: string -> Option<int>,
    cleanGstin: string -> string, isGstin: string -> bool, isHsn: string -> bool, isHash64: string -> bool)

  datatype Fault = Mandatory | NotANumber | NotADate | NotAnInteger | BadGstin | BadHsn | BadHash
                 | UnexpectedGstin | OutOfRange | BothTaxHeads | UnsupportedType

  datatype Rejection =
    | NotUtf8
    | HeaderMissing
    | MissingColumns(names: set<string>)
    | NoDataRows
    | AtRow(row: nat, field: string, fault: Fault)
    | DuplicateLineNumbers(document: string)

  datatype AttrValue = TextValue(text: string) | DateValue(day: int) | DecimalValue(amount: real) | IntValue(n: int)

  type Attributes = map<string, AttrValue>

  datatype Line = Line(
    number: int, hsn: string, description: Option<string>, quantity: real, uom: Option<string>, unitPrice: real,
    taxable: real, rate: real, cgst: real, sgst: real, igst: real, cess: real, itc: real, attributes: Attributes)

  datatype DocKey = DocKey(number: string, gstin: string)

  datatype Document = Document(
    number: string, date: int, gstin: Option<string>, name: Option<string>, currency: string,
    lines: seq<Line>, attributes: Attributes)
  {
    /** The key of the group it came from. */
    function Key(): DocKey { DocKey(number, if gstin.None? then "" else gstin.value) }
  }

  datatype Outcome = Outcome(documents: seq<Document>, rejections: seq<Rejection>)

  const REQUIRED_COLUMNS: set<string> :=
    {"doc_number", "doc_date", "line_number", "hsn_sac", "quantity", "unit_price", "taxable_value", "gst_rate"}

  function Cell(row: Row, column: string): string { if column in row then row[column] else "" }

  function NonEmpty(s: string): Option<string> { if s == "" then None else Some(s) }

  // ---------------------------------------------------------------------------
  // Cells
  // ---------------------------------------------------------------------------

  /** A blank number is zero; an unreadable one is zero with a rejection. */
  function Decimal(rd: Readers, raw: string): real {
    if raw == "" || rd.decimal(raw).None? then 0.0 else rd.decimal(raw).value
  }

  function DecimalFaults(rd: Readers, raw: string, field: string, rowNo: nat): seq<Rejection> {
    if raw != "" && rd.decimal(raw).None? then [AtRow(rowNo, field, NotANumber)] else []
  }

  function Check(ok: bool, rowNo: nat, field: string, fault: Fault): seq<Rejection> {
    if ok then [] else [AtRow(rowNo, field, fault)]
  }

  /** coerce_attribute on a non-blank cell: the value, if any, and what was wrong. */
  function Coerce(rd: Readers, a: Contract.Attribute, raw: string, rowNo: nat): (Option<AttrValue>, seq<Rejection>) {
    if a.kind == "text" then (Some(TextValue(raw)), [])
    else if a.kind == "date" then
      (if rd.date(raw).Some? then Some(DateValue(rd.date(raw).value)) else None, Check(rd.date(raw).Some?, rowNo, a.name, NotADate))
    else if a.kind == "money" || a.kind == "qty" || a.kind == "rate" then
      (Some(DecimalValue(Decimal(rd, raw))), DecimalFaults(rd, raw, a.name, rowNo))
    else if a.kind == "int" then
      (if rd.integer(raw).Some? then Some(IntValue(rd.integer(raw).value)) else None,
       Check(rd.integer(raw).Some?, rowNo, a.name, NotAnInteger))
    else if a.kind == "gstin" then
      var g := rd.cleanGstin(raw);
      (if rd.isGstin(g) then Some(TextValue(g)) else None, Check(rd.isGstin(g), rowNo, a.name, BadGstin))
    else if a.kind == "hsn" then
      (if rd.isHsn(raw) then Some(TextValue(raw)) else None, Check(rd.isHsn(raw), rowNo, a.name, BadHsn))
    else if a.kind == "hash64" then
      (if rd.isHash64(raw) then Some(TextValue(raw)) else None, Check(rd.isHash64(raw), rowNo, a.name, BadHash))
    else (None, [AtRow(rowNo, a.name, UnsupportedType)])
  }

  function CoerceCell(rd: Readers, a: Contract.Attribute, raw: string, rowNo: nat): (Option<AttrValue>, seq<Rejection>) {
    if raw == "" then (None, []) else Coerce(rd, a, raw, rowNo)
  }

  /** One more attribute read from a row. */
  function Enter(before: (Attributes, seq<Rejection>), a: Contract.Attribute, read: (Option<AttrValue>, seq<Rejection>), rowNo: nat)
    : (Attributes, seq<Rejection>)
  {
    match read.0
    case Some(v) => (before.0[a.name := v], before.1 + read.1)
    case None => (before.0, before.1 + read.1 + if a.required then [AtRow(rowNo, a.name, Mandatory)] else [])
  }

  function Collected(rd: Readers, attrs: seq<Contract.Attribute>, row: Row, rowNo: nat): (Attributes, seq<Rejection>) {
    if attrs == [] then (map[], [])
    else
      var a := attrs[|attrs| - 1];
      Enter(Collected(rd, attrs[..|attrs| - 1], row, rowNo), a, CoerceCell(rd, a, Cell(row, a.name), rowNo), rowNo)
  }

  method CollectAttributes(rd: Readers, attrs: seq<Contract.Attribute>, row: Row, rowNo: nat)
    returns (out: Attributes, errs: seq<Rejection>)
    ensures (out, errs) == Collected(rd, attrs, row, rowNo)
  {
    out, errs := map[], [];
    for i := 0 to |attrs|
      invariant (out, errs) == Collected(rd, attrs[..i], row, rowNo)
    {
      assert attrs[..i + 1][..i] == attrs[..i];
      var a := attrs[i];
      ghost var before := errs;
      var value, faults := CoerceCell(rd, a, Cell(row, a.name), rowNo).0, CoerceCell(rd, a, Cell(row, a.name), rowNo).1;
      errs := errs + faults;
      if value.None? {
        if a.required {
          errs := errs + [AtRow(rowNo, a.name, Mandatory)];
        }
      } else {
        out := out[a.name := value.value];
      }
      assert before + faults + [] == before + faults;
    }
    assert attrs[..|attrs|] == attrs;
  }

  /** Every mandatory attribute has a value. */
  ghost predicate HasRequired(attrs: seq<Contract.Attribute>, values: Attributes) {
    forall i :: 0 <= i < |attrs| && attrs[i].required ==> attrs[i].name in values
  }

  lemma EnteredHasRequired(before: (Attributes, seq<Rejection>), a: Contract.Attribute, read: (Option<AttrValue>, seq<Rejection>), rowNo: nat)
    requires Enter(before, a, read, rowNo).1 == []
    ensures before.1 == [] && before.0.Keys <= Enter(before, a, read, rowNo).0.Keys
    ensures a.required ==> a.name in Enter(before, a, read, rowNo).0
  {
    assert read.0.None? && a.required ==> |Enter(before, a, read, rowNo).1| > 0;
    assert |before.1| <= |Enter(before, a, read, rowNo).1|;
  }

  lemma OneMoreRequired(front: seq<Contract.Attribute>, a: Contract.Attribute, before: Attributes, after: Attributes)
    requires HasRequired(front, before) && before.Keys <= after.Keys && (a.required ==> a.name in after)
    ensures HasRequired(front + [a], after)
  {
  }

  lemma {:induction false} FaultlessHasRequired(rd: Readers, attrs: seq<Contract.Attribute>, row: Row, rowNo: nat)
    requires Collected(rd, attrs, row, rowNo).1 == []
    ensures HasRequired(attrs, Collected(rd, attrs, row, rowNo).0)
  {
    if attrs != [] {
      var n := |attrs| - 1;
      var before, a := Collected(rd, attrs[..n], row, rowNo), attrs[n];
      EnteredHasRequired(before, a, CoerceCell(rd, a, Cell(row, a.name), rowNo), rowNo);
      FaultlessHasRequired(rd, attrs[..n], row, rowNo);
      OneMoreRequired(attrs[..n], a, before.0, Collected(rd, attrs, row, rowNo).0);
      assert attrs[..n] + [a] == attrs;
    }
  }

  // ---------------------------------------------------------------------------
  // The first pass: rows to entries
  // ---------------------------------------------------------------------------

  datatype Entry = Entry(rowNo: nat, row: Row, key: DocKey, date: int, name: Option<string>)

  /** What one row is filed under, or why not. */
  function Admit(rd: Readers, c: Contract.FieldContract, row: Row, rowNo: nat): Result<Entry, Rejection> {
    var gstin, name := rd.cleanGstin(Cell(row, "counterparty_gstin")), NonEmpty(Cell(row, "counterparty_name"));
    var date := Cell(row, "doc_date");
    if Cell(row, "doc_number") == "" then Err(AtRow(rowNo, "doc_number", Mandatory))
    else if gstin != "" && !rd.isGstin(gstin) then Err(AtRow(rowNo, "counterparty_gstin", BadGstin))
    else if gstin == "" && c.counterparty.Required? then Err(AtRow(rowNo, "counterparty_gstin", Mandatory))
    else if gstin != "" && c.counterparty.Foreign? then Err(AtRow(rowNo, "counterparty_gstin", UnexpectedGstin))
    else if name.None? && c.counterparty.Foreign? then Err(AtRow(rowNo, "counterparty_name", Mandatory))
    else if date == "" then Err(AtRow(rowNo, "doc_date", Mandatory))
    else if rd.date(date).None? then Err(AtRow(rowNo, "doc_date", NotADate))
    else Ok(Entry(rowNo, row, DocKey(Cell(row, "doc_number"), gstin), rd.date(date).value, name))
  }

  /** What validation reads off one row: how it is filed, its line, its document's attributes.
      The folds below are over any such readings. */
  datatype Reads = Reads(
    admit: (Row, nat) -> Result<Entry, Rejection>,
    line: Entry -> Option<Line>, lineFaults: Entry -> seq<Rejection>,
    attributes: Entry -> Attributes, attributeFaults: Entry -> seq<Rejection>)

  /** A row that gives no line leaves a rejection. */
  ghost predicate Proper(x: Reads) {
    forall e :: x.line(e).None? ==> x.lineFaults(e) != []
  }

  function LineFaults(rd: Readers, c: Contract.FieldContract, row: Row, n: nat): seq<Rejection> {
    var rate := Decimal(rd, Cell(row, "gst_rate"));
    var igst := Decimal(rd, Cell(row, "igst_amount"));
    DecimalFaults(rd, Cell(row, "gst_rate"), "gst_rate", n)
    + Check(0.0 <= rate <= 100.0, n, "gst_rate", OutOfRange)
    + DecimalFaults(rd, Cell(row, "cgst_amount"), "cgst_amount", n)
    + DecimalFaults(rd, Cell(row, "sgst_amount"), "sgst_amount", n)
    + DecimalFaults(rd, Cell(row, "igst_amount"), "igst_amount", n)
    + Check(!(igst > 0.0 && (Decimal(rd, Cell(row, "cgst_amount")) > 0.0 || Decimal(rd, Cell(row, "sgst_amount")) > 0.0)),
            n, "igst_amount", BothTaxHeads)
    + DecimalFaults(rd, Cell(row, "quantity"), "quantity", n)
    + DecimalFaults(rd, Cell(row, "unit_price"), "unit_price", n)
    + DecimalFaults(rd, Cell(row, "taxable_value"), "taxable_value", n)
    + DecimalFaults(rd, Cell(row, "cess_amount"), "cess_amount", n)
    + DecimalFaults(rd, Cell(row, "itc_amount"), "itc_amount", n)
    + Collected(rd, c.line, row, n).1
  }

  function LineOf(rd: Readers, c: Contract.FieldContract, e: Entry): Line {
    var row := e.row;
    var number := rd.integer(Cell(row, "line_number"));
    Line(if number.Some? then number.value else 0, Cell(row, "hsn_sac"), NonEmpty(Cell(row, "description")),
         Decimal(rd, Cell(row, "quantity")),
         if Cell(row, "uom") != "" then Some(Cell(row, "uom")) else NonEmpty(Cell(row, "unit_of_measure")),
         Decimal(rd, Cell(row, "unit_price")), Decimal(rd, Cell(row, "taxable_value")), Decimal(rd, Cell(row, "gst_rate")),
         Decimal(rd, Cell(row, "cgst_amount")), Decimal(rd, Cell(row, "sgst_amount")), Decimal(rd, Cell(row, "igst_amount")),
         Decimal(rd, Cell(row, "cess_amount")), Decimal(rd, Cell(row, "itc_amount")), Collected(rd, c.line, row, e.rowNo).0)
  }

  /** A row without a line number or with a bad HSN gives no line; every other fault leaves the
      line standing beside its rejection. */
  function ReadLine(rd: Readers, c: Contract.FieldContract, e: Entry): Option<Line> {
    if rd.integer(Cell(e.row, "line_number")).None? || !rd.isHsn(Cell(e.row, "hsn_sac")) then None else Some(LineOf(rd, c, e))
  }

  function LineRejections(rd: Readers, c: Contract.FieldContract, e: Entry): seq<Rejection> {
    if rd.integer(Cell(e.row, "line_number")).None? then [AtRow(e.rowNo, "line_number", NotAnInteger)]
    else if !rd.isHsn(Cell(e.row, "hsn_sac")) then [AtRow(e.rowNo, "hsn_sac", BadHsn)]
    else LineFaults(rd, c, e.row, e.rowNo)
  }

  function ReadsOf(rd: Readers, c: Contract.FieldContract): Reads {
    Reads((row: Row, rowNo: nat) => Admit(rd, c, row, rowNo), e => ReadLine(rd, c, e), e => LineRejections(rd, c, e),
          (e: Entry) => Collected(rd, c.doc, e.row, e.rowNo).0, (e: Entry) => Collected(rd, c.doc, e.row, e.rowNo).1)
  }

  datatype Scan = Scan(entries: seq<Entry>, rejections: seq<Rejection>)

  /** The keys of the entries, by first appearance. */
  function Keys(entries: seq<Entry>): seq<DocKey> {
    if entries == [] then []
    else
      var before, last := Keys(entries[..|entries| - 1]), entries[|entries| - 1];
      if last.key in before then before else before + [last.key]
  }

  /** An admitted row; the first of its document also carries the document's attributes. */
  function AddEntry(x: Reads, s: Scan, row: Row, rowNo: nat): Scan {
    match x.admit(row, rowNo)
    case Err(rejection) => Scan(s.entries, s.rejections + [rejection])
    case Ok(e) =>
      Scan(s.entries + [e], s.rejections + if e.key in Keys(s.entries) then [] else x.attributeFaults(e))
  }

  function ScanRows(x: Reads, rows: seq<Row>): Scan {
    if rows == [] then Scan([], [])
    else AddEntry(x, ScanRows(x, rows[..|rows| - 1]), rows[|rows| - 1], |rows| + 1)
  }

  function GroupOf(entries: seq<Entry>, key: DocKey): seq<Entry> {
    if entries == [] then []
    else
      var before, last := GroupOf(entries[..|entries| - 1], key), entries[|entries| - 1];
      if last.key == key then before + [last] else before
  }

  lemma {:induction false} GroupMembers(entries: seq<Entry>, key: DocKey)
    ensures forall e :: e in GroupOf(entries, key) ==> e.key == key && e in entries
  {
    if entries != [] {
      GroupMembers(entries[..|entries| - 1], key);
      assert forall e :: e in entries[..|entries| - 1] ==> e in entries;
    }
  }

  lemma {:induction false} GroupsExist(entries: seq<Entry>, key: DocKey)
    ensures key in Keys(entries) <==> GroupOf(entries, key) != []
  {
    if entries != [] {
      GroupsExist(entries[..|entries| - 1], key);
    }
  }

  lemma {:induction false} KeysAreDistinct(entries: seq<Entry>)
    ensures forall i, j :: 0 <= i < j < |Keys(entries)| ==> Keys(entries)[i] != Keys(entries)[j]
  {
    if entries != [] {
      KeysAreDistinct(entries[..|entries| - 1]);
    }
  }

  // ---------------------------------------------------------------------------
  // The second pass: entries to lines
  // ---------------------------------------------------------------------------

  function AddLine(x: Reads, before: (seq<Line>, seq<Rejection>), e: Entry): (seq<Line>, seq<Rejection>) {
    (before.0 + (if x.line(e).Some? then [x.line(e).value] else []), before.1 + x.lineFaults(e))
  }

  function LinesOf(x: Reads, group: seq<Entry>): (seq<Line>, seq<Rejection>) {
    if group == [] then ([], []) else AddLine(x, LinesOf(x, group[..|group| - 1]), group[|group| - 1])
  }

  lemma NoLine(before: seq<Line>)
    ensures before + [] == before
  {
  }

  method ValidateLines(rd: Readers, c: Contract.FieldContract, group: seq<Entry>) returns (lines: seq<Line>, errs: seq<Rejection>)
    ensures (lines, errs) == LinesOf(ReadsOf(rd, c), group)
  {
    ghost var x := ReadsOf(rd, c);
    lines, errs := [], [];
    for i := 0 to |group|
      invariant (lines, errs) == LinesOf(x, group[..i])
    {
      assert group[..i + 1][..i] == group[..i];
      var e := group[i];
      assert x.line(e) == ReadLine(rd, c, e) && x.lineFaults(e) == LineRejections(rd, c, e);
      NoLine(lines);
      errs := errs + LineRejections(rd, c, e);
      var line := ReadLine(rd, c, e);
      if line.Some? {
        lines := lines + [line.value];
      }
    }
    assert group[..|group|] == group;
  }

  // ---------------------------------------------------------------------------
  // Sorting
  // ---------------------------------------------------------------------------

  predicate Sorted(lines: seq<Line>) {
    forall i, j :: 0 <= i < j < |lines| ==> lines[i].number <= lines[j].number
  }

  predicate DistinctNumbers(lines: seq<Line>) {
    forall i, j :: 0 <= i < j < |lines| ==> lines[i].number != lines[j].number
  }

  /** After every line with the same or a smaller number. */
  function Place(line: Line, lines: seq<Line>): seq<Line> {
    if lines == [] || lines[|lines| - 1].number <= line.number then lines + [line]
    else Place(line, lines[..|lines| - 1]) + [lines[|lines| - 1]]
  }

  /** sorted(lines, key=line_number), which is stable. */
  function SortLines(lines: seq<Line>): seq<Line> {
    if lines == [] then [] else Place(lines[|lines| - 1], SortLines(lines[..|lines| - 1]))
  }

  lemma {:induction false} PlaceKeeps(line: Line, lines: seq<Line>)
    ensures multiset(Place(line, lines)) == multiset(lines) + multiset{line}
    ensures |Place(line, lines)| == |lines| + 1
  {
    if lines != [] && lines[|lines| - 1].number > line.number {
      var k := |lines| - 1;
      PlaceKeeps(line, lines[..k]);
      assert lines == lines[..k] + [lines[k]];
    }
  }

  lemma {:induction false} PlaceBounded(line: Line, lines: seq<Line>, top: int)
    requires line.number <= top && forall i :: 0 <= i < |lines| ==> lines[i].number <= top
    ensures forall i :: 0 <= i < |Place(line, lines)| ==> Place(line, lines)[i].number <= top
  {
    if lines != [] && lines[|lines| - 1].number > line.number {
      PlaceBounded(line, lines[..|lines| - 1], top);
    }
  }

  lemma {:induction false} PlaceSorted(line: Line, lines: seq<Line>)
    requires Sorted(lines)
    ensures Sorted(Place(line, lines))
  {
    if lines != [] && lines[|lines| - 1].number > line.number {
      var k := |lines| - 1;
      PlaceSorted(line, lines[..k]);
      PlaceBounded(line, lines[..k], lines[k].number);
    }
  }

  lemma {:induction false} SortKeeps(lines: seq<Line>)
    ensures multiset(SortLines(lines)) == multiset(lines) && Sorted(SortLines(lines))
  {
    if lines != [] {
      var k := |lines| - 1;
      SortKeeps(lines[..k]);
      PlaceKeeps(lines[k], SortLines(lines[..k]));
      PlaceSorted(lines[k], SortLines(lines[..k]));
      assert lines == lines[..k] + [lines[k]];
    }
  }

  // ---------------------------------------------------------------------------
  // Documents
  // ---------------------------------------------------------------------------

  /** The header and the document attributes are those of the first row; later rows that
      disagree are not noticed. */
  function DocumentOf(x: Reads, group: seq<Entry>): Document
    requires group != []
  {
    var first := group[0];
    Document(first.key.number, first.date, NonEmpty(first.key.gstin), first.name,
             if Cell(first.row, "currency") == "" then "INR" else Cell(first.row, "currency"),
             SortLines(LinesOf(x, group).0), x.attributes(first))
  }

  /** What a group comes to: a document unless no row gave a line, and what was wrong. */
  datatype Built = Built(document: Option<Document>, faults: seq<Rejection>)

  function Build(x: Reads, group: seq<Entry>): Built
    requires group != []
  {
    var (lines, faults) := LinesOf(x, group);
    if lines == [] then Built(None, faults)
    else
      Built(Some(DocumentOf(x, group)),
            faults + if DistinctNumbers(lines) then [] else [DuplicateLineNumbers(group[0].key.number)])
  }

  function Builds(x: Reads, entries: seq<Entry>, keys: seq<DocKey>): (bs: seq<Built>)
    requires forall i :: 0 <= i < |keys| ==> GroupOf(entries, keys[i]) != []
    ensures |bs| == |keys| && forall i :: 0 <= i < |bs| ==> bs[i] == Build(x, GroupOf(entries, keys[i]))
  {
    seq(|keys|, i requires 0 <= i < |keys| => Build(x, GroupOf(entries, keys[i])))
  }

  function Gather(bs: seq<Built>): Outcome {
    if bs == [] then Outcome([], [])
    else
      var before, last := Gather(bs[..|bs| - 1]), bs[|bs| - 1];
      Outcome(before.documents + (if last.document.Some? then [last.document.value] else []), before.rejections + last.faults)
  }

  function RequiredNames(attributes: seq<Contract.Attribute>): set<string> {
    set a | a in attributes && a.required :: a.name
  }

  function RequiredColumns(c: Contract.FieldContract): set<string> {
    REQUIRED_COLUMNS
    + (if c.counterparty.Required? then {"counterparty_gstin"} else if c.counterparty.Foreign? then {"counterparty_name"} else {})
    + RequiredNames(c.doc) + RequiredNames(c.line)
  }

  function ValidateRows(x: Reads, rows: seq<Row>): Outcome {
    var scan := ScanRows(x, rows);
    if scan.entries == [] && scan.rejections == [] then Outcome([], [NoDataRows])
    else
      KeysHaveGroups(scan.entries);
      var documents := Gather(Builds(x, scan.entries, Keys(scan.entries)));
      Outcome(documents.documents, scan.rejections + documents.rejections)
  }

  lemma KeysHaveGroups(entries: seq<Entry>)
    ensures forall i :: 0 <= i < |Keys(entries)| ==> GroupOf(entries, Keys(entries)[i]) != []
  {
    forall i | 0 <= i < |Keys(entries)| ensures GroupOf(entries, Keys(entries)[i]) != [] {
      GroupsExist(entries, Keys(entries)[i]);
    }
  }

  function Validate(rd: Readers, c: Contract.FieldContract, file: File): Outcome {
    match file
    case Undecodable => Outcome([], [NotUtf8])
    case NoHeader => Outcome([], [HeaderMissing])
    case Csv(header, rows) =>
      var missing := RequiredColumns(c) - header;
      if missing != {} then Outcome([], [MissingColumns(missing)]) else ValidateRows(ReadsOf(rd, c), rows)
  }

  function RowCount(documents: seq<Document>): nat {
    if documents == [] then 0 else RowCount(documents[..|documents| - 1]) + |documents[|documents| - 1].lines|
  }

  // ---------------------------------------------------------------------------
  // validate_transaction_csv
  // ---------------------------------------------------------------------------

  lemma NextEntry(entries: seq<Entry>, e: Entry)
    ensures Keys(entries + [e]) == if e.key in Keys(entries) then Keys(entries) else Keys(entries) + [e.key]
    ensures forall k :: GroupOf(entries + [e], k) == if e.key == k then GroupOf(entries, k) + [e] else GroupOf(entries, k)
  {
    assert (entries + [e])[..|entries|] == entries;
  }

  lemma NextRow(x: Reads, rows: seq<Row>, i: nat)
    requires i < |rows|
    ensures ScanRows(x, rows[..i + 1]) == AddEntry(x, ScanRows(x, rows[..i]), rows[i], i + 2)
  {
    assert rows[..i + 1][..i] == rows[..i];
  }

  ghost predicate Grouped(entries: seq<Entry>, order: seq<DocKey>, grouped: map<DocKey, seq<Entry>>) {
    && order == Keys(entries)
    && (forall k :: k in grouped <==> k in order)
    && forall k :: k in grouped ==> grouped[k] == GroupOf(entries, k)
  }

  /** grouped.setdefault(key, []).append(entry), in an insertion-ordered dictionary. */
  method Append(ghost entries: seq<Entry>, order: seq<DocKey>, grouped: map<DocKey, seq<Entry>>, e: Entry)
    returns (order': seq<DocKey>, grouped': map<DocKey, seq<Entry>>)
    requires Grouped(entries, order, grouped)
    ensures Grouped(entries + [e], order', grouped')
  {
    NextEntry(entries, e);
    GroupsExist(entries, e.key);
    order' := if e.key in grouped then order else order + [e.key];
    grouped' := grouped[e.key := (if e.key in grouped then grouped[e.key] else []) + [e]];
  }

  /** The first loop: entries by document, in order of first appearance. */
  method GroupRows(rd: Readers, c: Contract.FieldContract, ghost x: Reads, rows: seq<Row>)
    returns (order: seq<DocKey>, grouped: map<DocKey, seq<Entry>>, errs: seq<Rejection>)
    requires x == ReadsOf(rd, c)
    ensures errs == ScanRows(x, rows).rejections && Grouped(ScanRows(x, rows).entries, order, grouped)
  {
    order, grouped, errs := [], map[], [];
    ghost var entries: seq<Entry> := [];
    for i := 0 to |rows|
      invariant ScanRows(x, rows[..i]) == Scan(entries, errs)
      invariant Grouped(entries, order, grouped)
    {
      NextRow(x, rows, i);
      var admitted := AdmitRow(rd, c, x, rows[i], i + 2);
      if admitted.Err? {
        errs := errs + [admitted.error];
      } else {
        var e := admitted.value;
        var faults: seq<Rejection> := [];
        if e.key !in grouped {
          faults := DocumentFaults(rd, c, x, e);
        }
        errs := errs + faults;
        order, grouped := Append(entries, order, grouped, e);
        entries := entries + [e];
      }
    }
    assert rows[..|rows|] == rows;
  }

  method AdmitRow(rd: Readers, c: Contract.FieldContract, ghost x: Reads, row: Row, rowNo: nat) returns (r: Result<Entry, Rejection>)
    requires x == ReadsOf(rd, c)
    ensures r == x.admit(row, rowNo)
  {
    r := Admit(rd, c, row, rowNo);
  }

  method DocumentFaults(rd: Readers, c: Contract.FieldContract, ghost x: Reads, e: Entry) returns (faults: seq<Rejection>)
    requires x == ReadsOf(rd, c)
    ensures faults == x.attributeFaults(e)
  {
    var attributes;
    attributes, faults := CollectAttributes(rd, c.doc, e.row, e.rowNo);
  }

  /** One group: its lines, and a document unless there are none. */
  method BuildGroup(rd: Readers, c: Contract.FieldContract, group: seq<Entry>) returns (built: Built)
    requires group != []
    ensures built == Build(ReadsOf(rd, c), group)
  {
    var lines, errs := ValidateLines(rd, c, group);
    if lines == [] {
      return Built(None, errs);
    }
    if !DistinctNumbers(lines) {
      errs := errs + [DuplicateLineNumbers(group[0].key.number)];
    } else {
      assert errs + [] == errs;
    }
    var first := group[0];
    var attributes, _ := CollectAttributes(rd, c.doc, first.row, first.rowNo);
    assert ReadsOf(rd, c).attributes(first) == attributes;
    built := Built(Some(Document(first.key.number, first.date, NonEmpty(first.key.gstin), first.name,
                                 if Cell(first.row, "currency") == "" then "INR" else Cell(first.row, "currency"),
                                 SortLines(lines), attributes)), errs);
  }

  /** The second loop: each group becomes a document or leaves only rejections. */
  method BuildDocuments(rd: Readers, c: Contract.FieldContract, ghost entries: seq<Entry>, order: seq<DocKey>,
                        grouped: map<DocKey, seq<Entry>>) returns (r: Outcome)
    requires forall i :: 0 <= i < |order| ==> GroupOf(entries, order[i]) != []
    requires forall k :: k in order ==> k in grouped && grouped[k] == GroupOf(entries, k)
    ensures r == Gather(Builds(ReadsOf(rd, c), entries, order))
  {
    ghost var bs := Builds(ReadsOf(rd, c), entries, order);
    var documents: seq<Document>, errs: seq<Rejection> := [], [];
    for i := 0 to |order|
      invariant Outcome(documents, errs) == Gather(bs[..i])
    {
      assert bs[..i + 1][..i] == bs[..i];
      assert order[i] in order;
      var built := BuildGroup(rd, c, grouped[order[i]]);
      assert built == bs[i];
      errs := errs + built.faults;
      if built.document.Some? {
        documents := documents + [built.document.value];
      } else {
        assert documents + [] == documents;
      }
    }
    assert bs[..|order|] == bs;
    r := Outcome(documents, errs);
  }

  method ValidateTransactionCsv(rd: Readers, c: Contract.FieldContract, file: File) returns (r: Outcome)
    ensures r == Validate(rd, c, file)
  {
    if file.Undecodable? {
      return Outcome([], [NotUtf8]);
    }
    if file.NoHeader? {
      return Outcome([], [HeaderMissing]);
    }
    var missing := RequiredColumns(c) - file.header;
    if missing != {} {
      return Outcome([], [MissingColumns(missing)]);
    }
    ghost var x := ReadsOf(rd, c);
    var order, grouped, errs := GroupRows(rd, c, x, file.rows);
    ghost var entries := ScanRows(x, file.rows).entries;
    KeysOfNone(entries);
    if order == [] && errs == [] {
      return Outcome([], [NoDataRows]);
    }
    KeysHaveGroups(entries);
    var built := BuildDocuments(rd, c, entries, order, grouped);
    r := Outcome(built.documents, errs + built.rejections);
  }

  lemma KeysOfNone(entries: seq<Entry>)
    ensures Keys(entries) == [] <==> entries == []
  {
    if entries != [] {
      var last := entries[|entries| - 1].key;
      assert last in Keys(entries);
    }
  }

  // ---------------------------------------------------------------------------
  // An accepted file is conserved
  // ---------------------------------------------------------------------------

  /** Every row of a file without rejections is admitted. */
  lemma {:induction false} AllAdmitted(x: Reads, rows: seq<Row>)
    requires ScanRows(x, rows).rejections == []
    ensures var entries := ScanRows(x, rows).entries;
            |entries| == |rows| && forall i :: 0 <= i < |rows| ==> x.admit(rows[i], i + 2) == Ok(entries[i])
  {
    if rows != [] {
      AllAdmitted(x, rows[..|rows| - 1]);
    }
  }

  predicate GivesLine(x: Reads, e: Entry, l: Line) {
    x.line(e) == Some(l) && x.lineFaults(e) == []
  }

  lemma {:induction false} AllLines(x: Reads, group: seq<Entry>)
    requires Proper(x) && LinesOf(x, group).1 == []
    ensures |LinesOf(x, group).0| == |group|
    ensures forall i :: 0 <= i < |group| ==> GivesLine(x, group[i], LinesOf(x, group).0[i])
  {
    if group != [] {
      AllLines(x, group[..|group| - 1]);
    }
  }

  /** What an accepted group contributes. */
  ghost predicate GoodGroup(x: Reads, g: seq<Entry>, d: Document) {
    g != [] && d == DocumentOf(x, g) && LinesOf(x, g).1 == [] && DistinctNumbers(LinesOf(x, g).0)
  }

  lemma FaultlessGroup(x: Reads, g: seq<Entry>)
    requires Proper(x) && g != [] && Build(x, g).faults == []
    ensures Build(x, g).document.Some? && GoodGroup(x, g, Build(x, g).document.value)
  {
    assert LinesOf(x, g).1 == [];
    AllLines(x, g);
  }

  lemma {:induction false} GatherAll(bs: seq<Built>)
    requires forall i :: 0 <= i < |bs| && bs[i].faults == [] ==> bs[i].document.Some?
    requires Gather(bs).rejections == []
    ensures |Gather(bs).documents| == |bs|
    ensures forall i :: 0 <= i < |bs| ==> bs[i].faults == [] && bs[i].document == Some(Gather(bs).documents[i])
  {
    if bs != [] {
      var n := |bs| - 1;
      assert |Gather(bs[..n]).rejections| <= |Gather(bs).rejections| && |bs[n].faults| <= |Gather(bs).rejections|;
      GatherAll(bs[..n]);
    }
  }

  /** One document a key, in order, each with the lines of exactly its group. */
  lemma AllDocuments(x: Reads, entries: seq<Entry>, keys: seq<DocKey>)
    requires Proper(x) && forall i :: 0 <= i < |keys| ==> GroupOf(entries, keys[i]) != []
    requires Gather(Builds(x, entries, keys)).rejections == []
    ensures var ds := Gather(Builds(x, entries, keys)).documents;
            |ds| == |keys| && forall i :: 0 <= i < |keys| ==> GoodGroup(x, GroupOf(entries, keys[i]), ds[i])
  {
    var bs := Builds(x, entries, keys);
    forall i | 0 <= i < |bs| && bs[i].faults == []
      ensures bs[i].document.Some? && GoodGroup(x, GroupOf(entries, keys[i]), bs[i].document.value)
    {
      FaultlessGroup(x, GroupOf(entries, keys[i]));
    }
    GatherAll(bs);
  }

  /** Where a line ended up, or came from. */
  datatype Filed = Filed(key: DocKey, line: Option<Line>)

  function FiledRows(x: Reads, entries: seq<Entry>): seq<Filed> {
    seq(|entries|, i requires 0 <= i < |entries| => Filed(entries[i].key, x.line(entries[i])))
  }

  function FiledLines(d: Document): seq<Filed> {
    seq(|d.lines|, i requires 0 <= i < |d.lines| => Filed(d.Key(), Some(d.lines[i])))
  }

  function AllFiled(ds: seq<Document>): seq<Filed> {
    if ds == [] then [] else AllFiled(ds[..|ds| - 1]) + FiledLines(ds[|ds| - 1])
  }

  function Count(lines: seq<Line>, line: Option<Line>): nat {
    if line.Some? then multiset(lines)[line.value] else 0
  }

  lemma {:induction false} FiledUnder(key: DocKey, lines: seq<Line>, filed: seq<Filed>, f: Filed)
    requires |filed| == |lines| && forall i :: 0 <= i < |lines| ==> filed[i] == Filed(key, Some(lines[i]))
    ensures multiset(filed)[f] == if f.key == key then Count(lines, f.line) else 0
  {
    if lines != [] {
      var n := |lines| - 1;
      FiledUnder(key, lines[..n], filed[..n], f);
      assert lines == lines[..n] + [lines[n]] && filed == filed[..n] + [filed[n]];
    }
  }

  lemma {:induction false} FiledOfGroup(x: Reads, entries: seq<Entry>, f: Filed)
    ensures multiset(FiledRows(x, entries))[f] == multiset(FiledRows(x, GroupOf(entries, f.key)))[f]
  {
    if entries != [] {
      var n := |entries| - 1;
      var front, last := entries[..n], entries[n];
      FiledOfGroup(x, front, f);
      assert FiledRows(x, entries) == FiledRows(x, front) + [Filed(last.key, x.line(last))];
      if last.key == f.key {
        assert GroupOf(entries, f.key) == GroupOf(front, f.key) + [last];
        assert FiledRows(x, GroupOf(entries, f.key)) == FiledRows(x, GroupOf(front, f.key)) + [Filed(last.key, x.line(last))];
      }
    }
  }

  predicate DistinctKeys(ds: seq<Document>) {
    forall i, j :: 0 <= i < j < |ds| ==> ds[i].Key() != ds[j].Key()
  }

  lemma {:induction false} FiledOfDocuments(ds: seq<Document>, f: Filed, at: int)
    requires DistinctKeys(ds)
    requires if 0 <= at < |ds| then ds[at].Key() == f.key else forall i :: 0 <= i < |ds| ==> ds[i].Key() != f.key
    ensures multiset(AllFiled(ds))[f] == if 0 <= at < |ds| then Count(ds[at].lines, f.line) else 0
  {
    if ds != [] {
      var n := |ds| - 1;
      FiledOfDocuments(ds[..n], f, if at == n then -1 else at);
      FiledUnder(ds[n].Key(), ds[n].lines, FiledLines(ds[n]), f);
    }
  }

  lemma {:induction false} RowCountIsFiled(ds: seq<Document>)
    ensures |AllFiled(ds)| == RowCount(ds)
  {
    if ds != [] {
      RowCountIsFiled(ds[..|ds| - 1]);
    }
  }

  lemma DocumentsKey(x: Reads, entries: seq<Entry>, key: DocKey, d: Document)
    requires GoodGroup(x, GroupOf(entries, key), d)
    ensures d.Key() == key
  {
    GroupMembers(entries, key);
    assert GroupOf(entries, key)[0] in GroupOf(entries, key);
  }

  /** The documents of an accepted file, read off its rows. */
  lemma AcceptedDocuments(x: Reads, rows: seq<Row>)
    requires Proper(x) && ValidateRows(x, rows).rejections == []
    ensures var entries, ds := ScanRows(x, rows).entries, ValidateRows(x, rows).documents;
            && ScanRows(x, rows).rejections == [] && entries != []
            && |ds| == |Keys(entries)| && DistinctKeys(ds)
            && forall i :: 0 <= i < |ds| ==> GoodGroup(x, GroupOf(entries, Keys(entries)[i]), ds[i]) && ds[i].Key() == Keys(entries)[i]
  {
    var entries := ScanRows(x, rows).entries;
    var keys := Keys(entries);
    KeysHaveGroups(entries);
    AllDocuments(x, entries, keys);
    KeysAreDistinct(entries);
    var ds := Gather(Builds(x, entries, keys)).documents;
    forall i | 0 <= i < |keys| ensures ds[i].Key() == keys[i] {
      DocumentsKey(x, entries, keys[i], ds[i]);
    }
    KeysOfNone(entries);
  }

  lemma GroupIsFiled(x: Reads, entries: seq<Entry>, f: Filed)
    requires Proper(x) && LinesOf(x, GroupOf(entries, f.key)).1 == []
    ensures var g := GroupOf(entries, f.key);
             multiset(FiledRows(x, g))[f] == Count(LinesOf(x, g).0, f.line)
  {
    var g := GroupOf(entries, f.key);
    GroupMembers(entries, f.key);
    AllLines(x, g);
    forall i | 0 <= i < |g| ensures FiledRows(x, g)[i] == Filed(f.key, Some(LinesOf(x, g).0[i])) {
      assert GivesLine(x, g[i], LinesOf(x, g).0[i]) && g[i] in g;
    }
    FiledUnder(f.key, LinesOf(x, g).0, FiledRows(x, g), f);
  }

  lemma FiledTwice(x: Reads, entries: seq<Entry>, ds: seq<Document>, f: Filed)
    requires Proper(x) && |ds| == |Keys(entries)| && DistinctKeys(ds)
    requires forall i :: 0 <= i < |ds| ==> GoodGroup(x, GroupOf(entries, Keys(entries)[i]), ds[i]) && ds[i].Key() == Keys(entries)[i]
    ensures multiset(AllFiled(ds))[f] == multiset(FiledRows(x, entries))[f]
  {
    var keys := Keys(entries);
    FiledOfGroup(x, entries, f);
    GroupsExist(entries, f.key);
    if f.key in keys {
      var i :| 0 <= i < |keys| && keys[i] == f.key;
      FiledOfDocuments(ds, f, i);
      FiledOnce(x, entries, ds[i], f);
    } else {
      assert forall i :: 0 <= i < |ds| ==> keys[i] in keys && ds[i].Key() != f.key;
      FiledOfDocuments(ds, f, -1);
    }
  }

  lemma FiledOnce(x: Reads, entries: seq<Entry>, d: Document, f: Filed)
    requires Proper(x) && GoodGroup(x, GroupOf(entries, f.key), d)
    ensures Count(d.lines, f.line) == multiset(FiledRows(x, GroupOf(entries, f.key)))[f]
  {
    GroupIsFiled(x, entries, f);
    SortKeeps(LinesOf(x, GroupOf(entries, f.key)).0);
  }

  lemma RowsAreProper(rd: Readers, c: Contract.FieldContract)
    ensures Proper(ReadsOf(rd, c))
  {
    var x := ReadsOf(rd, c);
    forall e | x.line(e).None? ensures x.lineFaults(e) != [] {
      assert x.line(e) == ReadLine(rd, c, e) && x.lineFaults(e) == LineRejections(rd, c, e);
    }
  }

  lemma AcceptedIsCsv(rd: Readers, c: Contract.FieldContract, file: File)
    requires Validate(rd, c, file).rejections == []
    ensures file.Csv? && Validate(rd, c, file) == ValidateRows(ReadsOf(rd, c), file.rows)
  {
  }

  /** Nothing is lost, repeated or moved: the lines of the documents of an accepted file, each
      with its document's key, are the rows of the file, each with its own. */
  lemma RowsAreConserved(rd: Readers, c: Contract.FieldContract, file: File)
    requires Validate(rd, c, file).rejections == []
    ensures file.Csv?
    ensures var x, ds := ReadsOf(rd, c), Validate(rd, c, file).documents;
            && |ScanRows(x, file.rows).entries| == |file.rows|
            && (forall i :: 0 <= i < |file.rows| ==> x.admit(file.rows[i], i + 2) == Ok(ScanRows(x, file.rows).entries[i]))
            && multiset(AllFiled(ds)) == multiset(FiledRows(x, ScanRows(x, file.rows).entries))
            && RowCount(ds) == |file.rows|
  {
    var x := ReadsOf(rd, c);
    RowsAreProper(rd, c);
    AcceptedIsCsv(rd, c, file);
    ConservedBy(x, file.rows);
  }

  lemma ConservedBy(x: Reads, rows: seq<Row>)
    requires Proper(x) && ValidateRows(x, rows).rejections == []
    ensures var entries, ds := ScanRows(x, rows).entries, ValidateRows(x, rows).documents;
            && |entries| == |rows| && (forall i :: 0 <= i < |rows| ==> x.admit(rows[i], i + 2) == Ok(entries[i]))
            && multiset(AllFiled(ds)) == multiset(FiledRows(x, entries))
            && RowCount(ds) == |rows|
  {
    AcceptedDocuments(x, rows);
    AllAdmitted(x, rows);
    var entries, ds := ScanRows(x, rows).entries, ValidateRows(x, rows).documents;
    forall f: Filed ensures multiset(AllFiled(ds))[f] == multiset(FiledRows(x, entries))[f] {
      FiledTwice(x, entries, ds, f);
    }
    RowCountIsFiled(ds);
    assert |multiset(AllFiled(ds))| == |AllFiled(ds)|;
    assert |multiset(FiledRows(x, entries))| == |FiledRows(x, entries)|;
  }

  predicate StrictlyIncreasing(lines: seq<Line>) {
    forall i, j :: 0 <= i < j < |lines| ==> lines[i].number < lines[j].number
  }

  predicate OneTaxHead(l: Line) { !(l.igst > 0.0 && (l.cgst > 0.0 || l.sgst > 0.0)) }

  predicate CounterpartyRule(rd: Readers, c: Contract.FieldContract, d: Document) {
    && (d.gstin.Some? ==> rd.isGstin(d.gstin.value))
    && (c.counterparty.Required? ==> d.gstin.Some?)
    && (c.counterparty.Foreign? ==> d.gstin.None? && d.name.Some?)
  }

  ghost predicate AtMostOnce(lines: seq<Line>) {
    forall n: int :: Numbered(lines, n) <= 1
  }

  lemma {:induction false} Occurrences(lines: seq<Line>)
    ensures DistinctNumbers(lines) <==> AtMostOnce(lines)
  {
    if lines != [] {
      var k := |lines| - 1;
      var front := lines[..k];
      Occurrences(front);
      NumberedPositive(front, lines[k].number);
      assert forall n :: Numbered(lines, n) == Numbered(front, n) + if lines[k].number == n then 1 else 0;
      assert DistinctNumbers(lines) <==> DistinctNumbers(front) && !(exists i :: 0 <= i < |front| && front[i].number == lines[k].number);
      if AtMostOnce(lines) {
        assert AtMostOnce(front) by {
          forall n ensures Numbered(front, n) <= 1 {
            assert Numbered(lines, n) <= 1;
          }
        }
        assert Numbered(lines, lines[k].number) <= 1;
      }
    }
  }

  /** How many lines carry the number. */
  function Numbered(lines: seq<Line>, n: int): nat {
    if lines == [] then 0 else Numbered(lines[..|lines| - 1], n) + if lines[|lines| - 1].number == n then 1 else 0
  }

  lemma {:induction false} NumberedPositive(lines: seq<Line>, n: int)
    ensures Numbered(lines, n) > 0 <==> exists i :: 0 <= i < |lines| && lines[i].number == n
  {
    if lines != [] {
      var k := |lines| - 1;
      NumberedPositive(lines[..k], n);
      assert forall i :: 0 <= i < k ==> lines[..k][i] == lines[i];
    }
  }

  lemma {:induction false} PlaceCounts(line: Line, lines: seq<Line>, n: int)
    ensures Numbered(Place(line, lines), n) == Numbered(lines, n) + if line.number == n then 1 else 0
  {
    if lines == [] || lines[|lines| - 1].number <= line.number {
      assert (lines + [line])[..|lines|] == lines;
    } else {
      var k := |lines| - 1;
      PlaceCounts(line, lines[..k], n);
      PlaceKeeps(line, lines[..k]);
      assert Place(line, lines)[..|lines|] == Place(line, lines[..k]);
    }
  }

  lemma {:induction false} SortCounts(lines: seq<Line>, n: int)
    ensures Numbered(SortLines(lines), n) == Numbered(lines, n)
  {
    if lines != [] {
      SortCounts(lines[..|lines| - 1], n);
      PlaceCounts(lines[|lines| - 1], SortLines(lines[..|lines| - 1]), n);
    }
  }

  lemma SortedIsStrict(lines: seq<Line>)
    requires DistinctNumbers(lines)
    ensures StrictlyIncreasing(SortLines(lines))
  {
    var out := SortLines(lines);
    SortKeeps(lines);
    Occurrences(lines);
    Occurrences(out);
    forall n: int ensures Numbered(out, n) <= 1 {
      SortCounts(lines, n);
    }
    assert AtMostOnce(out);
  }

  ghost predicate GoodLine(c: Contract.FieldContract, l: Line) {
    OneTaxHead(l) && 0.0 <= l.rate <= 100.0 && HasRequired(c.line, l.attributes)
  }

  lemma FaultlessLine(rd: Readers, c: Contract.FieldContract, e: Entry, l: Line)
    requires GivesLine(ReadsOf(rd, c), e, l)
    ensures GoodLine(c, l)
  {
    var x := ReadsOf(rd, c);
    assert x.line(e) == ReadLine(rd, c, e) && x.lineFaults(e) == LineRejections(rd, c, e);
    assert LineFaults(rd, c, e.row, e.rowNo) == [];
    RateAndHeads(rd, c, e.row, e.rowNo);
    FaultlessHasRequired(rd, c.line, e.row, e.rowNo);
  }

  lemma RateAndHeads(rd: Readers, c: Contract.FieldContract, row: Row, n: nat)
    requires LineFaults(rd, c, row, n) == []
    ensures 0.0 <= Decimal(rd, Cell(row, "gst_rate")) <= 100.0
    ensures !(Decimal(rd, Cell(row, "igst_amount")) > 0.0
              && (Decimal(rd, Cell(row, "cgst_amount")) > 0.0 || Decimal(rd, Cell(row, "sgst_amount")) > 0.0))
    ensures Collected(rd, c.line, row, n).1 == []
  {
  }

  lemma SortedMembers(lines: seq<Line>)
    ensures |SortLines(lines)| == |lines| && forall l :: l in SortLines(lines) ==> l in lines
  {
    var out := SortLines(lines);
    SortKeeps(lines);
    assert |out| == |multiset(out)| == |multiset(lines)| == |lines|;
    forall l | l in out ensures l in lines {
      assert l in multiset(out);
      assert l in multiset(lines);
    }
  }

  lemma GroupIsGood(rd: Readers, c: Contract.FieldContract, x: Reads, g: seq<Entry>, d: Document)
    requires x == ReadsOf(rd, c) && GoodGroup(x, g, d)
    ensures d.lines != [] && StrictlyIncreasing(d.lines) && forall l :: l in d.lines ==> GoodLine(c, l)
  {
    var lines := LinesOf(x, g).0;
    RowsAreProper(rd, c);
    AllLines(x, g);
    SortedIsStrict(lines);
    SortedMembers(lines);
    forall i | 0 <= i < |lines| ensures GoodLine(c, lines[i]) {
      FaultlessLine(rd, c, g[i], lines[i]);
    }
  }

  lemma EntryObeysRule(rd: Readers, c: Contract.FieldContract, row: Row, rowNo: nat, e: Entry, d: Document)
    requires ReadsOf(rd, c).admit(row, rowNo) == Ok(e) && d.gstin == NonEmpty(e.key.gstin) && d.name == e.name
    ensures CounterpartyRule(rd, c, d)
  {
    assert ReadsOf(rd, c).admit(row, rowNo) == Admit(rd, c, row, rowNo);
  }

  /** What validation promises of each document. */
  ghost predicate WellFormed(rd: Readers, c: Contract.FieldContract, d: Document) {
    && d.lines != [] && StrictlyIncreasing(d.lines) && CounterpartyRule(rd, c, d) && HasRequired(c.doc, d.attributes)
    && forall l :: l in d.lines ==> GoodLine(c, l)
  }

  lemma FirstWasAdmitted(x: Reads, rows: seq<Row>, key: DocKey) returns (j: nat)
    requires ScanRows(x, rows).rejections == [] && GroupOf(ScanRows(x, rows).entries, key) != []
    ensures j < |rows| && x.admit(rows[j], j + 2) == Ok(GroupOf(ScanRows(x, rows).entries, key)[0])
  {
    var entries := ScanRows(x, rows).entries;
    var e := GroupOf(entries, key)[0];
    AllAdmitted(x, rows);
    GroupMembers(entries, key);
    assert e in entries;
    j :| 0 <= j < |entries| && entries[j] == e;
  }

  /** The row a document takes its attributes from gave no rejection for them. */
  lemma {:induction false} FirstIsFaultless(x: Reads, rows: seq<Row>, key: DocKey)
    requires ScanRows(x, rows).rejections == [] && GroupOf(ScanRows(x, rows).entries, key) != []
    ensures x.attributeFaults(GroupOf(ScanRows(x, rows).entries, key)[0]) == []
  {
    var front := ScanRows(x, rows[..|rows| - 1]);
    var e := x.admit(rows[|rows| - 1], |rows| + 1).value;
    NextEntry(front.entries, e);
    GroupsExist(front.entries, key);
    if GroupOf(front.entries, key) != [] {
      FirstIsFaultless(x, rows[..|rows| - 1], key);
    }
  }

  lemma DocumentIsWellFormed(rd: Readers, c: Contract.FieldContract, x: Reads, rows: seq<Row>, key: DocKey, d: Document)
    requires x == ReadsOf(rd, c) && ScanRows(x, rows).rejections == []
    requires GoodGroup(x, GroupOf(ScanRows(x, rows).entries, key), d)
    ensures WellFormed(rd, c, d)
  {
    var g := GroupOf(ScanRows(x, rows).entries, key);
    GroupIsGood(rd, c, x, g, d);
    var j := FirstWasAdmitted(x, rows, key);
    EntryObeysRule(rd, c, rows[j], j + 2, g[0], d);
    FirstIsFaultless(x, rows, key);
    assert x.attributes(g[0]) == Collected(rd, c.doc, g[0].row, g[0].rowNo).0;
    assert x.attributeFaults(g[0]) == Collected(rd, c.doc, g[0].row, g[0].rowNo).1;
    FaultlessHasRequired(rd, c.doc, g[0].row, g[0].rowNo);
  }

  /** An accepted file's documents have distinct keys and strictly increasing line numbers; no
      line has IGST beside CGST or SGST, every rate is a percentage, each counterparty obeys the
      contract, and every mandatory attribute of document and line has a value. */
  lemma AcceptedIsWellFormed(rd: Readers, c: Contract.FieldContract, file: File)
    requires Validate(rd, c, file).rejections == []
    ensures var ds := Validate(rd, c, file).documents;
            ds != [] && DistinctKeys(ds) && forall i :: 0 <= i < |ds| ==> WellFormed(rd, c, ds[i])
  {
    var x := ReadsOf(rd, c);
    AcceptedIsCsv(rd, c, file);
    RowsAreProper(rd, c);
    AcceptedDocuments(x, file.rows);
    var entries, ds := ScanRows(x, file.rows).entries, ValidateRows(x, file.rows).documents;
    KeysOfNone(entries);
    forall i | 0 <= i < |ds| ensures WellFormed(rd, c, ds[i]) {
      DocumentIsWellFormed(rd, c, x, file.rows, Keys(entries)[i], ds[i]);
    }
  }
}
