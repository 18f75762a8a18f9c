/** Reading a whole sales register file and loading it (parse_sales_register_csv and
    SalesRegisterLoader in src/silver/sales_register.py). */
module SalesLoader {
  import opened Prelude
  import opened Hashing
  import opened SalesRegister
  import opened Bitemporal

  datatype SalesFile = Undecodable | Csv(present: set<string>, rows: seq<Row>)

  datatype Rejection =
    | NotUtf8
    | MissingColumns(names: set<string>)
    | EmptyRequired(line: nat)
    | BadInvoice(invoiceNo: string, error: BuildError)
    | NoDataRows

  datatype ParseResult = ParseResult(invoices: seq<SalesInvoice>, rejections: seq<Rejection>)

  predicate Complete(row: Row) {
    && row.header[INVOICE_NO] != "" && row.header[INVOICE_DATE] != "" && row.header[INVOICE_TYPE] != ""
    && row.line[LINE_NUMBER] != "" && row.line[TAXABLE_VALUE] != ""
  }

  // ---------------------------------------------------------------------------
  // Grouping
  // ---------------------------------------------------------------------------

  function NumberOf(row: Row): string { row.header[INVOICE_NO] }

  /** The complete rows of one invoice, in file order. */
  function Group(rows: seq<Row>, number: string): (g: seq<Row>)
    ensures forall row :: row in g <==> row in rows && Complete(row) && NumberOf(row) == number
  {
    if rows == [] then []
    else
      var before := Group(rows[..|rows| - 1], number);
      var last := rows[|rows| - 1];
      assert forall row :: row in rows <==> row in rows[..|rows| - 1] || row == last;
      if Complete(last) && NumberOf(last) == number then before + [last] else before
  }

  /** The invoice numbers of the complete rows, by first appearance. */
  function Numbers(rows: seq<Row>): seq<string> {
    if rows == [] then []
    else
      var before := Numbers(rows[..|rows| - 1]);
      var last := rows[|rows| - 1];
      if Complete(last) && NumberOf(last) !in before then before + [NumberOf(last)] else before
  }

  lemma {:induction false} NumbersOfGroups(rows: seq<Row>)
    ensures forall n :: n in Numbers(rows) <==> Group(rows, n) != []
    ensures forall i, j :: 0 <= i < j < |Numbers(rows)| ==> Numbers(rows)[i] != Numbers(rows)[j]
  {
    if rows != [] {
      NumbersOfGroups(rows[..|rows| - 1]);
    }
  }

  function Incomplete(rows: seq<Row>): (r: seq<Rejection>)
    ensures r == [] <==> forall row :: row in rows ==> Complete(row)
  {
    if rows == [] then []
    else
      assert forall row :: row in rows <==> row in rows[..|rows| - 1] || row == rows[|rows| - 1];
      Incomplete(rows[..|rows| - 1]) + if Complete(rows[|rows| - 1]) then [] else [EmptyRequired(|rows| + 1)]
  }

  type Built = Result<SalesInvoice, BuildError>

  /** What _build_invoice makes of each number's rows. */
  function Builds(rd: Readers, sha: Sha, rows: seq<Row>, ns: seq<string>): (bs: seq<Built>)
    requires forall n :: n in ns ==> Group(rows, n) != []
    ensures |bs| == |ns|
    ensures forall i :: 0 <= i < |ns| ==> bs[i] == Invoice(rd, sha, Group(rows, ns[i]))
  {
    seq(|ns|, i requires 0 <= i < |ns| => Invoice(rd, sha, Group(rows, ns[i])))
  }

  /** Keep the invoices that build, record the rest. */
  function Collect(ns: seq<string>, bs: seq<Built>): ParseResult
    requires |bs| == |ns|
  {
    if ns == [] then ParseResult([], [])
    else
      var n := |ns| - 1;
      var before := Collect(ns[..n], bs[..n]);
      match bs[n]
      case Ok(invoice) => before.(invoices := before.invoices + [invoice])
      case Err(e) => before.(rejections := before.rejections + [BadInvoice(ns[n], e)])
  }

  lemma {:induction false} CollectAll(ns: seq<string>, bs: seq<Built>)
    requires |bs| == |ns|
    ensures Collect(ns, bs).rejections == [] <==> forall i :: 0 <= i < |bs| ==> bs[i].Ok?
    ensures Collect(ns, bs).rejections == [] ==>
              && |Collect(ns, bs).invoices| == |bs|
              && forall i :: 0 <= i < |bs| ==> bs[i] == Ok(Collect(ns, bs).invoices[i])
  {
    if ns != [] {
      CollectAll(ns[..|ns| - 1], bs[..|ns| - 1]);
    }
  }

  function Parse(rd: Readers, sha: Sha, file: SalesFile): ParseResult {
    match file
    case Undecodable => ParseResult([], [NotUtf8])
    case Csv(present, rows) =>
      if REQUIRED_COLUMNS - present != {} then ParseResult([], [MissingColumns(REQUIRED_COLUMNS - present)])
      else
        NumbersOfGroups(rows);
        var built := Collect(Numbers(rows), Builds(rd, sha, rows, Numbers(rows)));
        var rejections := Incomplete(rows) + built.rejections;
        if built.invoices == [] && rejections == [] then ParseResult([], [NoDataRows])
        else ParseResult(built.invoices, rejections)
  }

  lemma NextRow(rows: seq<Row>, i: nat)
    requires i < |rows|
    ensures rows[..i + 1] == rows[..i] + [rows[i]]
    ensures Incomplete(rows[..i + 1]) == Incomplete(rows[..i]) + if Complete(rows[i]) then [] else [EmptyRequired(i + 2)]
  {
    assert rows[..i + 1][..i] == rows[..i];
  }

  /** The dictionary after some rows: the complete ones by number, in order of appearance. */
  ghost predicate Grouped(rows: seq<Row>, order: seq<string>, grouped: map<string, seq<Row>>) {
    && order == Numbers(rows)
    && (forall n :: n in grouped <==> n in order)
    && forall n :: n in grouped ==> grouped[n] == Group(rows, n)
  }

  lemma RowAdded(before: seq<Row>, row: Row)
    requires Complete(row)
    ensures Numbers(before + [row]) == if NumberOf(row) in Numbers(before) then Numbers(before) else Numbers(before) + [NumberOf(row)]
    ensures forall n :: Group(before + [row], n) == if n == NumberOf(row) then Group(before, n) + [row] else Group(before, n)
    ensures NumberOf(row) in Numbers(before) <==> Group(before, NumberOf(row)) != []
  {
    assert (before + [row])[..|before|] == before;
    NumbersOfGroups(before);
  }

  /** grouped.setdefault(number, []).append(row) */
  method Append(ghost before: seq<Row>, order: seq<string>, grouped: map<string, seq<Row>>, row: Row)
    returns (order': seq<string>, grouped': map<string, seq<Row>>)
    requires Complete(row) && Grouped(before, order, grouped)
    ensures Grouped(before + [row], order', grouped')
  {
    var n := NumberOf(row);
    RowAdded(before, row);
    order' := if n in grouped then order else order + [n];
    grouped' := grouped[n := (if n in grouped then grouped[n] else []) + [row]];
  }

  /** One row of the loop: filed, or rejected for a blank mandatory cell. */
  method FileRow(ghost before: seq<Row>, order: seq<string>, grouped: map<string, seq<Row>>, rejections: seq<Rejection>, row: Row, line: nat)
    returns (order': seq<string>, grouped': map<string, seq<Row>>, rejections': seq<Rejection>)
    requires Grouped(before, order, grouped)
    ensures Grouped(before + [row], order', grouped')
    ensures rejections' == rejections + if Complete(row) then [] else [EmptyRequired(line)]
  {
    order', grouped', rejections' := order, grouped, rejections;
    if Complete(row) {
      order', grouped' := Append(before, order, grouped, row);
    } else {
      SkipRow(before, row, order, grouped);
      rejections' := rejections + [EmptyRequired(line)];
    }
  }

  lemma SkipRow(before: seq<Row>, row: Row, order: seq<string>, grouped: map<string, seq<Row>>)
    requires !Complete(row) && Grouped(before, order, grouped)
    ensures Grouped(before + [row], order, grouped)
  {
    assert (before + [row])[..|before|] == before;
  }

  /** The first loop: an insertion-ordered dictionary of the complete rows by number. */
  method GroupRows(rows: seq<Row>) returns (order: seq<string>, grouped: map<string, seq<Row>>, rejections: seq<Rejection>)
    ensures rejections == Incomplete(rows) && Grouped(rows, order, grouped)
  {
    rejections, order, grouped := [], [], map[];
    for i := 0 to |rows|
      invariant rejections == Incomplete(rows[..i]) && Grouped(rows[..i], order, grouped)
    {
      NextRow(rows, i);
      order, grouped, rejections := FileRow(rows[..i], order, grouped, rejections, rows[i], i + 2);
    }
    assert rows[..|rows|] == rows;
  }

  lemma CollectNext(ns: seq<string>, bs: seq<Built>, k: nat)
    requires k < |ns| == |bs|
    ensures var before := Collect(ns[..k], bs[..k]);
            Collect(ns[..k + 1], bs[..k + 1])
            == match bs[k]
               case Ok(invoice) => before.(invoices := before.invoices + [invoice])
               case Err(e) => before.(rejections := before.rejections + [BadInvoice(ns[k], e)])
  {
    assert ns[..k + 1][..k] == ns[..k] && bs[..k + 1][..k] == bs[..k];
  }

  /** The second loop: each group builds or is recorded as a rejection. */
  method BuildGroups(rd: Readers, sha: Sha, ghost rows: seq<Row>, order: seq<string>, grouped: map<string, seq<Row>>)
    returns (r: ParseResult)
    requires forall n :: n in order ==> Group(rows, n) != [] && n in grouped && grouped[n] == Group(rows, n)
    ensures r == Collect(order, Builds(rd, sha, rows, order))
  {
    ghost var bs := Builds(rd, sha, rows, order);
    var invoices: seq<SalesInvoice>, rejections: seq<Rejection> := [], [];
    for k := 0 to |order|
      invariant ParseResult(invoices, rejections) == Collect(order[..k], bs[..k])
    {
      CollectNext(order, bs, k);
      assert order[k] in order;
      var invoice := BuildInvoice(rd, sha, grouped[order[k]]);
      assert invoice == bs[k];
      if invoice.Ok? {
        invoices := invoices + [invoice.value];
      } else {
        rejections := rejections + [BadInvoice(order[k], invoice.error)];
      }
    }
    assert order[..|order|] == order && bs[..|order|] == bs;
    r := ParseResult(invoices, rejections);
  }

  method ParseSalesRegisterCsv(rd: Readers, sha: Sha, file: SalesFile) returns (r: ParseResult)
    ensures r == Parse(rd, sha, file)
  {
    if file.Undecodable? {
      return ParseResult([], [NotUtf8]);
    }
    var missing := REQUIRED_COLUMNS - file.present;
    if missing != {} {
      return ParseResult([], [MissingColumns(missing)]);
    }
    var order, grouped, rejections := GroupRows(file.rows);
    NumbersOfGroups(file.rows);
    var built := BuildGroups(rd, sha, file.rows, order, grouped);
    rejections := rejections + built.rejections;
    if built.invoices == [] && rejections == [] {
      rejections := rejections + [NoDataRows];
    }
    r := ParseResult(built.invoices, rejections);
  }

  lemma InvoiceCarriesItsNumber(rd: Readers, sha: Sha, rows: seq<Row>)
    requires rows != []
    ensures Invoice(rd, sha, rows).Ok? ==> Invoice(rd, sha, rows).value.invoiceNo == NumberOf(rows[0])
  {
  }

  /** A file without rejections gives one invoice per number, each built from exactly that
      number's rows. */
  lemma AcceptedInvoices(rd: Readers, sha: Sha, file: SalesFile)
    requires Parse(rd, sha, file).rejections == []
    ensures file.Csv?
    ensures var ns := Numbers(file.rows);
            var invoices := Parse(rd, sha, file).invoices;
            && |invoices| == |ns|
            && forall i :: 0 <= i < |ns| ==>
                 && Group(file.rows, ns[i]) != []
                 && Invoice(rd, sha, Group(file.rows, ns[i])) == Ok(invoices[i])
                 && invoices[i].invoiceNo == ns[i]
  {
    NumbersOfGroups(file.rows);
    var ns := Numbers(file.rows);
    var bs := Builds(rd, sha, file.rows, ns);
    CollectAll(ns, bs);
    forall i | 0 <= i < |ns|
      ensures bs[i].value.invoiceNo == ns[i]
    {
      var g := Group(file.rows, ns[i]);
      assert ns[i] in ns && g[0] in g;
      InvoiceCarriesItsNumber(rd, sha, g);
    }
  }

  // ---------------------------------------------------------------------------
  // The order of the file does not matter
  // ---------------------------------------------------------------------------

  lemma {:induction false} GroupCounts(rows: seq<Row>, number: string, row: Row)
    ensures multiset(Group(rows, number))[row]
            == if Complete(row) && NumberOf(row) == number then multiset(rows)[row] else 0
  {
    if rows != [] {
      GroupCounts(rows[..|rows| - 1], number, row);
      assert rows == rows[..|rows| - 1] + [rows[|rows| - 1]];
    }
  }

  lemma GroupOfReordered(rows: seq<Row>, other: seq<Row>, number: string)
    requires multiset(rows) == multiset(other)
    ensures multiset(Group(rows, number)) == multiset(Group(other, number))
  {
    forall row
      ensures multiset(Group(rows, number))[row] == multiset(Group(other, number))[row]
    {
      GroupCounts(rows, number, row);
      GroupCounts(other, number, row);
    }
  }

  lemma SameGroups(rd: Readers, sha: Sha, rows: seq<Row>, other: seq<Row>, n: string)
    requires multiset(rows) == multiset(other)
    ensures n in Numbers(rows) <==> n in Numbers(other)
    ensures Group(rows, n) != [] <==> n in Numbers(rows)
    ensures Group(other, n) != [] <==> n in Numbers(other)
    ensures Group(rows, n) != [] && Invoice(rd, sha, Group(rows, n)).Ok? ==>
              Group(other, n) != [] && Invoice(rd, sha, Group(other, n)) == Invoice(rd, sha, Group(rows, n))
  {
    NumbersOfGroups(rows);
    NumbersOfGroups(other);
    GroupOfReordered(rows, other, n);
    SameElements(Group(rows, n), Group(other, n));
    if Group(rows, n) != [] && Invoice(rd, sha, Group(rows, n)).Ok? {
      RowOrderIsIrrelevant(rd, sha, Group(rows, n), Group(other, n));
    }
  }

  lemma ReorderedIsAccepted(rd: Readers, sha: Sha, file: SalesFile, other: SalesFile)
    requires file.Csv? && other.Csv? && other.present == file.present
    requires multiset(file.rows) == multiset(other.rows)
    requires Parse(rd, sha, file).rejections == []
    ensures Parse(rd, sha, other).rejections == []
  {
    var rows, shuffled := file.rows, other.rows;
    NumbersOfGroups(shuffled);
    SameElements(rows, shuffled);
    AcceptedInvoices(rd, sha, file);
    var ns, ms := Numbers(rows), Numbers(shuffled);
    var bs := Builds(rd, sha, shuffled, ms);
    forall j | 0 <= j < |ms|
      ensures bs[j].Ok?
    {
      SameGroups(rd, sha, rows, shuffled, ms[j]);
      assert ms[j] in ms;
      var i :| 0 <= i < |ns| && ns[i] == ms[j];
    }
    CollectAll(ms, bs);
    assert Parse(rd, sha, file).invoices != [];
    assert ns[0] in ns;
    SameGroups(rd, sha, rows, shuffled, ns[0]);
    assert ms != [];
  }

  lemma SameInvoices(rd: Readers, sha: Sha, file: SalesFile, other: SalesFile)
    requires Parse(rd, sha, file).rejections == [] && Parse(rd, sha, other).rejections == []
    requires file.Csv? && other.Csv? && multiset(file.rows) == multiset(other.rows)
    ensures forall invoice :: invoice in Parse(rd, sha, file).invoices ==> invoice in Parse(rd, sha, other).invoices
  {
    AcceptedInvoices(rd, sha, file);
    AcceptedInvoices(rd, sha, other);
    var ns, ms := Numbers(file.rows), Numbers(other.rows);
    var a, b := Parse(rd, sha, file).invoices, Parse(rd, sha, other).invoices;
    forall i | 0 <= i < |a|
      ensures a[i] in b
    {
      assert ns[i] in ns;
      SameGroups(rd, sha, file.rows, other.rows, ns[i]);
      var j :| 0 <= j < |ms| && ms[j] == ns[i];
      assert b[j] == a[i];
    }
  }

  /** An accepted file with its rows in any other order is accepted and gives the same
      invoices, each with the same document hash. */
  lemma FileOrderIsIrrelevant(rd: Readers, sha: Sha, file: SalesFile, other: SalesFile)
    requires file.Csv? && other.Csv? && other.present == file.present
    requires multiset(file.rows) == multiset(other.rows)
    requires Parse(rd, sha, file).rejections == []
    ensures Parse(rd, sha, other).rejections == []
    ensures forall invoice :: invoice in Parse(rd, sha, other).invoices <==> invoice in Parse(rd, sha, file).invoices
  {
    ReorderedIsAccepted(rd, sha, file, other);
    SameInvoices(rd, sha, file, other);
    SameInvoices(rd, sha, other, file);
  }

  // ---------------------------------------------------------------------------
  // The loader
  // ---------------------------------------------------------------------------

  datatype SalesKey = SalesKey(entity: nat, gstin: string, invoiceNo: string)

  datatype Scope = Scope(entity: nat, gstin: string, taxPeriod: int, batch: nat, ingest: nat)

  datatype Header = Header(scope: Scope, invoice: SalesInvoice)

  type SalesTable = Table<SalesKey, Header>

  datatype LineRow = LineRow(headerId: nat, line: SalesLine)

  datatype BatchRow = BatchRow(scope: Scope, lineCount: nat)

  datatype UpsertOutcome = UpsertOutcome(inserted: nat, untouched: nat, superseded: nat, invoiceCount: nat, lineCount: nat)

  function CandidateOf(scope: Scope, invoice: SalesInvoice): Candidate<SalesKey, Header> {
    Candidate(SalesKey(scope.entity, scope.gstin, invoice.invoiceNo), invoice.documentHash,
              invoice.invoiceDate, Header(scope, invoice))
  }

  function Candidates(scope: Scope, invoices: seq<SalesInvoice>): (cs: seq<Candidate<SalesKey, Header>>)
    ensures |cs| == |invoices|
    ensures forall i :: 0 <= i < |cs| ==> cs[i] == CandidateOf(scope, invoices[i])
  {
    seq(|invoices|, i requires 0 <= i < |invoices| => CandidateOf(scope, invoices[i]))
  }

  function LineRows(headerId: nat, lines: seq<SalesLine>): (rows: seq<LineRow>)
    ensures |rows| == |lines|
    ensures forall i :: 0 <= i < |rows| ==> rows[i] == LineRow(headerId, lines[i])
  {
    seq(|lines|, i requires 0 <= i < |lines| => LineRow(headerId, lines[i]))
  }

  /** What sales_register_line must hold: the lines of every header ever inserted, closed ones
      included, under that header's id. */
  function StoredLines(t: SalesTable): seq<LineRow> {
    if t == [] then [] else StoredLines(t[..|t| - 1]) + LineRows(|t| - 1, t[|t| - 1].payload.invoice.lines)
  }

  lemma {:induction false} ClosingKeepsLines(t: SalesTable, i: nat, newFrom: int, now: int)
    requires i < |t|
    ensures StoredLines(t[i := Closed(t[i], newFrom, now)]) == StoredLines(t)
  {
    var t' := t[i := Closed(t[i], newFrom, now)];
    if i < |t| - 1 {
      ClosingKeepsLines(t[..|t| - 1], i, newFrom, now);
      assert t'[..|t| - 1] == t[..|t| - 1][i := Closed(t[i], newFrom, now)];
    } else {
      assert t'[..|t| - 1] == t[..|t| - 1];
    }
  }

  function LineCount(invoices: seq<SalesInvoice>): nat {
    if invoices == [] then 0 else LineCount(invoices[..|invoices| - 1]) + |invoices[|invoices| - 1].lines|
  }

  class SalesRegisterLoader {
    const rd: Readers
    const sha: Sha
    var headers: SalesTable
    var lines: seq<LineRow>
    var batches: seq<BatchRow>
    var quarantined: map<nat, seq<Rejection>>

    constructor (rd: Readers, sha: Sha)
      ensures this.rd == rd && this.sha == sha && Valid() && headers == [] && batches == []
    {
      this.rd, this.sha := rd, sha;
      headers, lines, batches, quarantined := [], [], [], map[];
    }

    ghost predicate Valid()
      reads this
    {
      lines == StoredLines(headers)
    }

    method Insert(c: Candidate<SalesKey, Header>)
      requires Valid()
      modifies this`headers, this`lines
      ensures Valid() && headers == old(headers) + [Open(c)]
    {
      var headerId := |headers|;
      headers := headers + [Open(c)];
      var invoice := c.payload.invoice;
      for k := 0 to |invoice.lines|
        invariant headers == old(headers) + [Open(c)]
        invariant lines == old(lines) + LineRows(headerId, invoice.lines)[..k]
      {
        lines := lines + [LineRow(headerId, invoice.lines[k])];
      }
      assert LineRows(headerId, invoice.lines)[..|invoice.lines|] == LineRows(headerId, invoice.lines);
      assert headers[..headerId] == old(headers);
    }

    method UpsertInvoice(scope: Scope, invoice: SalesInvoice, now: int) returns (outcome: Outcome)
      requires Valid()
      modifies this`headers, this`lines
      ensures Valid() && (headers, outcome) == Upsert(old(headers), CandidateOf(scope, invoice), now)
    {
      var c := CandidateOf(scope, invoice);
      var live := LiveIndex(headers, c.key);
      if live.None? {
        Insert(c);
        return Inserted;
      }
      var v := headers[live.value];
      if v.hash == invoice.documentHash {
        return Unchanged;
      }
      ClosingKeepsLines(headers, live.value, c.validFrom, now);
      var validTo := if c.validFrom > v.validFrom then Some(c.validFrom) else v.validTo;
      headers := headers[live.value := v.(supersededAt := Some(now), validTo := validTo)];
      Insert(c);
      outcome := Superseded;
    }

    method UpsertInvoices(scope: Scope, invoices: seq<SalesInvoice>, now: int) returns (counts: Counts)
      requires Valid()
      modifies this`headers, this`lines
      ensures Valid() && (headers, counts) == UpsertAll(old(headers), Candidates(scope, invoices), now)
    {
      ghost var cs := Candidates(scope, invoices);
      counts := Counts(0, 0, 0);
      for i := 0 to |invoices|
        invariant Valid() && (headers, counts) == UpsertAll(old(headers), cs[..i], now)
      {
        UpsertAllNext(old(headers), cs, i, now);
        var outcome := UpsertInvoice(scope, invoices[i], now);
        counts := counts.Add(outcome);
      }
      assert cs[..|invoices|] == cs;
    }

    /** One artefact.  A single rejection refuses the whole file. */
    method Load(scope: Scope, file: SalesFile, now: int) returns (r: Result<UpsertOutcome, seq<Rejection>>)
      requires Valid()
      modifies this
      ensures Valid()
      ensures r.Ok? <==> Parse(rd, sha, file).rejections == []
      ensures r.Ok? ==>
                var invoices := Parse(rd, sha, file).invoices;
                var (after, n) := UpsertAll(old(headers), Candidates(scope, invoices), now);
                && headers == after
                && r.value == UpsertOutcome(n.inserted, n.untouched, n.superseded, |invoices|, LineCount(invoices))
                && batches == old(batches) + [BatchRow(scope, LineCount(invoices))]
                && quarantined == old(quarantined)
      ensures r.Err? ==>
                && r.error == Parse(rd, sha, file).rejections
                && headers == old(headers) && batches == old(batches)
                && quarantined == old(quarantined)[scope.ingest := r.error]
    {
      var parsed := ParseSalesRegisterCsv(rd, sha, file);
      if parsed.rejections != [] {
        quarantined := quarantined[scope.ingest := parsed.rejections];
        return Err(parsed.rejections);
      }
      batches := batches + [BatchRow(scope, LineCount(parsed.invoices))];
      var counts := UpsertInvoices(scope, parsed.invoices, now);
      r := Ok(UpsertOutcome(counts.inserted, counts.untouched, counts.superseded,
                            |parsed.invoices|, LineCount(parsed.invoices)));
    }
  }

  // ---------------------------------------------------------------------------
  // Re-export
  // ---------------------------------------------------------------------------

  lemma AcceptedKeysAreDistinct(rd: Readers, sha: Sha, file: SalesFile, scope: Scope)
    requires Parse(rd, sha, file).rejections == []
    ensures Consistent(Candidates(scope, Parse(rd, sha, file).invoices))
  {
    AcceptedInvoices(rd, sha, file);
    var ns := Numbers(file.rows);
    NumbersOfGroups(file.rows);
    var cs := Candidates(scope, Parse(rd, sha, file).invoices);
    assert forall i, j :: 0 <= i < j < |cs| ==> ns[i] != ns[j] && cs[i].key != cs[j].key;
  }

  /** Re-exporting an accepted file for the same entity and GSTIN, its rows in any order, under a
      batch and an artefact of its own, at any later time and into any table, reports every
      invoice unchanged and changes nothing. */
  lemma ReexportIsIdempotent(rd: Readers, sha: Sha, file: SalesFile, again: SalesFile, scope: Scope, next: Scope,
                             t: SalesTable, now: int, later: int)
    requires next.entity == scope.entity && next.gstin == scope.gstin
    requires Chained(t) && file.Csv? && again.Csv? && again.present == file.present
    requires multiset(file.rows) == multiset(again.rows)
    requires Parse(rd, sha, file).rejections == []
    ensures Parse(rd, sha, again).rejections == []
    ensures var t1 := UpsertAll(t, Candidates(scope, Parse(rd, sha, file).invoices), now).0;
            UpsertAll(t1, Candidates(next, Parse(rd, sha, again).invoices), later)
            == (t1, Counts(0, |Parse(rd, sha, again).invoices|, 0))
  {
    FileOrderIsIrrelevant(rd, sha, file, again);
    AcceptedKeysAreDistinct(rd, sha, file, scope);
    var first, second := Parse(rd, sha, file).invoices, Parse(rd, sha, again).invoices;
    var cs, ds := Candidates(scope, first), Candidates(next, second);
    var t1 := UpsertAll(t, cs, now).0;
    forall j | 0 <= j < |ds|
      ensures Current(t1, ds[j].key) == Some(ds[j].hash)
    {
      assert second[j] in second;
      var i :| 0 <= i < |first| && first[i] == second[j];
      assert cs[i].key == ds[j].key && cs[i].hash == ds[j].hash;
      LoadSetsCurrent(t, cs, now, i);
    }
    NoOpWhenCurrent(t1, ds, later);
  }
}
