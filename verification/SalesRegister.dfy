/** The sales register (src/silver/sales_register.py): a flat export grouped into invoices,
    each with a header, lines in line-number order, and a document hash over both. */
module SalesRegister {
  import opened Prelude
  import opened Hashing
  import RegisterParser

  // A row is its stripped cells, in the order of HEADER_FIELDS and LINE_FIELDS.  A blank cell
  // is the empty string.  How cells read as numbers and dates is a parameter.

  const HEADER_FIELDS := [
    "invoice_no", "invoice_date", "customer_gstin", "invoice_type", "supply_type", "place_of_supply",
    "reverse_charge", "currency", "trade_discount", "freight", "packing", "insurance",
    "invoice_taxable_value", "invoice_cgst", "invoice_sgst", "invoice_igst", "invoice_cess",
    "invoice_total_value", "irn", "ewb_no"]

  const LINE_FIELDS := [
    "line_number", "hsn_sac", "description", "qty", "uom", "unit_price", "taxable_value", "gst_rate",
    "cgst", "sgst", "igst", "cess", "total_value"]

  const REQUIRED_COLUMNS: set<string> := set f | f in HEADER_FIELDS + LINE_FIELDS

  // positions of the fields the code treats specially
  const INVOICE_NO := 0
  const INVOICE_DATE := 1
  const INVOICE_TYPE := 3
  const REVERSE_CHARGE := 6
  const CURRENCY := 7
  const HEADER_AMOUNTS: seq<nat> := [8, 9, 10, 11, 12, 13, 14, 15, 16, 17]
  const LINE_NUMBER := 0
  const TAXABLE_VALUE := 6
  const LINE_AMOUNTS: seq<nat> := [3, 5, 6, 7, 8, 9, 10, 11, 12]

  datatype SalesRow = SalesRow(header: seq<string>, line: seq<string>)

  predicate WellShaped(row: SalesRow) {
    |row.header| == 20 && |row.line| == 13
  }

  type Row = row: SalesRow | WellShaped(row) witness SalesRow(seq(20, _ => ""), seq(13, _ => ""))

  type Readers = RegisterParser.Readers

  datatype SalesLine = SalesLine(lineNumber: int, cells: seq<string>, amounts: seq<Option<real>>, rowHash: string)

  datatype SalesInvoice = SalesInvoice(
    invoiceNo: string, invoiceDate: int, reverseCharge: bool, currency: string, header: seq<string>,
    amounts: seq<Option<real>>, rowHash: string, documentHash: string, lines: seq<SalesLine>)

  datatype BuildError =
    | HeadersDisagree | LineNumberUnreadable | DuplicateLineNumber | AmountUnreadable | DateUnreadable | FlagUnreadable

  // ---------------------------------------------------------------------------
  // One invoice
  // ---------------------------------------------------------------------------

  function ReadAmounts(rd: Readers, cells: seq<string>, at: seq<nat>): Option<seq<Option<real>>>
    requires forall i :: 0 <= i < |at| ==> at[i] < |cells|
  {
    if at == [] then Some([])
    else
      var rest := ReadAmounts(rd, cells, at[1..]);
      if cells[at[0]] == "" then
        (if rest.Some? then Some([None] + rest.value) else None)
      else
        var n := rd.decimal(cells[at[0]]);
        if n.Some? && rest.Some? then Some([n] + rest.value) else None
  }

  function ReadLine(rd: Readers, sha: Sha, row: Row): Result<SalesLine, BuildError> {
    var number := rd.integer(row.line[LINE_NUMBER]);
    var amounts := ReadAmounts(rd, row.line, LINE_AMOUNTS);
    if number.None? then Err(LineNumberUnreadable)
    else if amounts.None? || row.line[TAXABLE_VALUE] == "" then Err(AmountUnreadable)
    else Ok(SalesLine(number.value, row.line, amounts.value, HashOf(sha, row.line)))
  }

  predicate Numbered(lines: seq<SalesLine>, n: int) {
    exists i :: 0 <= i < |lines| && lines[i].lineNumber == n
  }

  /** The loop over the rows: an unreadable number, then a repeated one, then the amounts. */
  function ReadLines(rd: Readers, sha: Sha, rows: seq<Row>): Result<seq<SalesLine>, BuildError> {
    if rows == [] then Ok([])
    else
      var before := ReadLines(rd, sha, rows[..|rows| - 1]);
      var row := rows[|rows| - 1];
      var number := rd.integer(row.line[LINE_NUMBER]);
      if before.Err? then before
      else if number.Some? && Numbered(before.value, number.value) then Err(DuplicateLineNumber)
      else
        var line := ReadLine(rd, sha, row);
        if line.Err? then Err(line.error) else Ok(before.value + [line.value])
  }

  ghost predicate StrictlySorted(lines: seq<SalesLine>) {
    forall i, j :: 0 <= i < j < |lines| ==> lines[i].lineNumber < lines[j].lineNumber
  }

  ghost predicate DistinctNumbers(lines: seq<SalesLine>) {
    forall i, j :: 0 <= i < j < |lines| ==> lines[i].lineNumber != lines[j].lineNumber
  }

  function InsertLine(line: SalesLine, lines: seq<SalesLine>): (out: seq<SalesLine>)
    requires StrictlySorted(lines) && !Numbered(lines, line.lineNumber)
    ensures StrictlySorted(out) && |out| == |lines| + 1
    ensures forall x :: x in out <==> x == line || x in lines
  {
    if lines == [] || line.lineNumber < lines[0].lineNumber then [line] + lines
    else
      assert forall i :: 0 <= i < |lines[1..]| ==> lines[1..][i] == lines[i + 1];
      var rest := InsertLine(line, lines[1..]);
      assert forall x :: x in rest ==> lines[0].lineNumber < x.lineNumber;
      [lines[0]] + rest
  }

  function SortLines(lines: seq<SalesLine>): (out: seq<SalesLine>)
    requires DistinctNumbers(lines)
    ensures StrictlySorted(out) && |out| == |lines|
    ensures forall x :: x in out <==> x in lines
  {
    if lines == [] then []
    else
      var rest := SortLines(lines[..|lines| - 1]);
      var last := lines[|lines| - 1];
      assert !Numbered(rest, last.lineNumber) by {
        forall i | 0 <= i < |rest|
          ensures rest[i].lineNumber != last.lineNumber
        {
          assert rest[i] in lines[..|lines| - 1];
        }
      }
      assert forall x :: x in lines <==> x == last || x in lines[..|lines| - 1];
      InsertLine(last, rest)
  }

  lemma {:induction false} ReadLinesAreDistinct(rd: Readers, sha: Sha, rows: seq<Row>)
    requires ReadLines(rd, sha, rows).Ok?
    ensures DistinctNumbers(ReadLines(rd, sha, rows).value)
    ensures |ReadLines(rd, sha, rows).value| == |rows|
    ensures forall i :: 0 <= i < |rows| ==> ReadLine(rd, sha, rows[i]) == Ok(ReadLines(rd, sha, rows).value[i])
  {
    if rows != [] {
      ReadLinesAreDistinct(rd, sha, rows[..|rows| - 1]);
      var before := ReadLines(rd, sha, rows[..|rows| - 1]).value;
      assert forall i :: 0 <= i < |before| ==> ReadLines(rd, sha, rows).value[i] == before[i];
    }
  }

  function LineHashes(lines: seq<SalesLine>): (hashes: seq<string>)
    ensures |hashes| == |lines|
    ensures forall i :: 0 <= i < |lines| ==> hashes[i] == lines[i].rowHash
  {
    seq(|lines|, i requires 0 <= i < |lines| => lines[i].rowHash)
  }

  predicate SameHeaders(rows: seq<Row>) {
    forall i :: 0 < i < |rows| ==> rows[i].header == rows[0].header
  }

  function Currency(header: seq<string>): string
    requires |header| == 20
  {
    if header[CURRENCY] == "" then "INR" else header[CURRENCY]
  }

  function Assemble(rd: Readers, sha: Sha, header: seq<string>, lines: seq<SalesLine>): Result<SalesInvoice, BuildError>
    requires |header| == 20
  {
    var rowHash := HashOf(sha, header);
    var documentHash := HashOf(sha, [rowHash] + LineHashes(lines));
    var date := rd.date(header[INVOICE_DATE]);
    var flag := RegisterParser.ReadBoolean(Some(header[REVERSE_CHARGE]));
    var amounts := ReadAmounts(rd, header, HEADER_AMOUNTS);
    if date.None? then Err(DateUnreadable)
    else if flag.None? then Err(FlagUnreadable)
    else if amounts.None? then Err(AmountUnreadable)
    else Ok(SalesInvoice(header[INVOICE_NO], date.value, flag.value, Currency(header), header,
                         amounts.value, rowHash, documentHash, lines))
  }

  function Invoice(rd: Readers, sha: Sha, rows: seq<Row>): Result<SalesInvoice, BuildError>
    requires rows != []
  {
    if !SameHeaders(rows) then Err(HeadersDisagree)
    else
      var lines := ReadLines(rd, sha, rows);
      if lines.Err? then Err(lines.error)
      else
        ReadLinesAreDistinct(rd, sha, rows);
        Assemble(rd, sha, rows[0].header, SortLines(lines.value))
  }

  /** _build_invoice, with its two loops and the set of numbers seen. */
  method BuildInvoice(rd: Readers, sha: Sha, rows: seq<Row>) returns (r: Result<SalesInvoice, BuildError>)
    requires rows != []
    ensures r == Invoice(rd, sha, rows)
  {
    for i := 1 to |rows|
      invariant forall j :: 0 < j < i ==> rows[j].header == rows[0].header
    {
      if rows[i].header != rows[0].header {
        return Err(HeadersDisagree);
      }
    }
    var lines := CollectLines(rd, sha, rows);
    if lines.Err? {
      return Err(lines.error);
    }
    ReadLinesAreDistinct(rd, sha, rows);
    r := Assemble(rd, sha, rows[0].header, SortLines(lines.value));
  }

  /** Its second loop: the lines in file order, no number twice. */
  method CollectLines(rd: Readers, sha: Sha, rows: seq<Row>) returns (r: Result<seq<SalesLine>, BuildError>)
    ensures r == ReadLines(rd, sha, rows)
  {
    var lines: seq<SalesLine> := [];
    var seen: set<int> := {};
    for i := 0 to |rows|
      invariant ReadLines(rd, sha, rows[..i]) == Ok(lines)
      invariant forall n :: n in seen <==> Numbered(lines, n)
    {
      NextLine(rd, sha, rows, i);
      var number := rd.integer(rows[i].line[LINE_NUMBER]);
      if number.None? {
        return Err(LineNumberUnreadable);
      }
      if number.value in seen {
        return Err(DuplicateLineNumber);
      }
      seen := seen + {number.value};
      var line := ReadLine(rd, sha, rows[i]);
      if line.Err? {
        return Err(line.error);
      }
      NumberedOfAppend(lines, line.value);
      lines := lines + [line.value];
    }
    assert rows[..|rows|] == rows;
    return Ok(lines);
  }

  /** One more row: its line is appended, or its fault is the result for the whole group. */
  lemma NextLine(rd: Readers, sha: Sha, rows: seq<Row>, i: nat)
    requires i < |rows| && ReadLines(rd, sha, rows[..i]).Ok?
    ensures var lines, line := ReadLines(rd, sha, rows[..i]).value, ReadLine(rd, sha, rows[i]);
            var number := rd.integer(rows[i].line[LINE_NUMBER]);
            if number.Some? && Numbered(lines, number.value) then ReadLines(rd, sha, rows) == Err(DuplicateLineNumber)
            else if line.Err? then ReadLines(rd, sha, rows) == Err(line.error)
            else ReadLines(rd, sha, rows[..i + 1]) == Ok(lines + [line.value])
  {
    assert rows[..i + 1][..i] == rows[..i];
    if ReadLines(rd, sha, rows[..i + 1]).Err? {
      ErrorStays(rd, sha, rows, i + 1);
    }
  }

  lemma NumberedOfAppend(lines: seq<SalesLine>, line: SalesLine)
    ensures forall n :: Numbered(lines + [line], n) <==> n == line.lineNumber || Numbered(lines, n)
  {
    assert (lines + [line])[|lines|] == line;
    forall n | Numbered(lines, n)
      ensures Numbered(lines + [line], n)
    {
      var i :| 0 <= i < |lines| && lines[i].lineNumber == n;
      assert (lines + [line])[i].lineNumber == n;
    }
  }

  lemma {:induction false} ErrorStays(rd: Readers, sha: Sha, rows: seq<Row>, i: nat)
    requires i <= |rows| && ReadLines(rd, sha, rows[..i]).Err?
    ensures ReadLines(rd, sha, rows) == ReadLines(rd, sha, rows[..i])
    decreases |rows|
  {
    if i == |rows| {
      assert rows[..i] == rows;
    } else {
      var before := rows[..|rows| - 1];
      assert before[..i] == rows[..i];
      ErrorStays(rd, sha, before, i);
    }
  }

  // ---------------------------------------------------------------------------
  // The order of an invoice's rows in the file does not matter
  // ---------------------------------------------------------------------------

  /** What the rows must satisfy, said without an order: the numbers are pairwise different
      and every row reads. */
  ghost predicate Readable(rd: Readers, sha: Sha, rows: seq<Row>) {
    && (forall row :: row in rows ==> ReadLine(rd, sha, row).Ok?)
    && (forall i, j :: 0 <= i < j < |rows| ==>
          rd.integer(rows[i].line[LINE_NUMBER]) != rd.integer(rows[j].line[LINE_NUMBER]))
  }

  /** No earlier row has the row's line number. */
  ghost predicate Fresh(rd: Readers, before: seq<Row>, row: Row) {
    forall i :: 0 <= i < |before| ==> rd.integer(before[i].line[LINE_NUMBER]) != rd.integer(row.line[LINE_NUMBER])
  }

  lemma ReadableOneMore(rd: Readers, sha: Sha, before: seq<Row>, last: Row)
    ensures Readable(rd, sha, before + [last]) <==> Readable(rd, sha, before) && ReadLine(rd, sha, last).Ok? && Fresh(rd, before, last)
  {
    var rows := before + [last];
    assert forall row :: row in rows <==> row in before || row == last;
    assert forall i :: 0 <= i < |before| ==> rows[i] == before[i];
    assert rows[|before|] == last;
  }

  lemma ReadOneMore(rd: Readers, sha: Sha, before: seq<Row>, last: Row)
    ensures ReadLines(rd, sha, before + [last]).Ok?
            <==> && ReadLines(rd, sha, before).Ok? && ReadLine(rd, sha, last).Ok?
                 && !Numbered(ReadLines(rd, sha, before).value, ReadLine(rd, sha, last).value.lineNumber)
  {
    assert (before + [last])[..|before|] == before;
  }

  lemma FreshMeansUnnumbered(rd: Readers, sha: Sha, before: seq<Row>, last: Row)
    requires ReadLines(rd, sha, before).Ok? && ReadLine(rd, sha, last).Ok?
    ensures Fresh(rd, before, last) <==> !Numbered(ReadLines(rd, sha, before).value, ReadLine(rd, sha, last).value.lineNumber)
  {
    ReadLinesAreDistinct(rd, sha, before);
    var lines := ReadLines(rd, sha, before).value;
    forall i | 0 <= i < |before| ensures rd.integer(before[i].line[LINE_NUMBER]) == Some(lines[i].lineNumber) {
      assert ReadLine(rd, sha, before[i]) == Ok(lines[i]);
    }
  }

  lemma {:induction false} ReadLinesWhenReadable(rd: Readers, sha: Sha, rows: seq<Row>)
    ensures ReadLines(rd, sha, rows).Ok? <==> Readable(rd, sha, rows)
  {
    if rows != [] {
      var before, last := rows[..|rows| - 1], rows[|rows| - 1];
      ReadLinesWhenReadable(rd, sha, before);
      assert before + [last] == rows;
      ReadableOneMore(rd, sha, before, last);
      ReadOneMore(rd, sha, before, last);
      if ReadLines(rd, sha, before).Ok? && ReadLine(rd, sha, last).Ok? {
        FreshMeansUnnumbered(rd, sha, before, last);
      }
    }
  }

  lemma SortedTail(a: seq<SalesLine>)
    requires StrictlySorted(a) && a != []
    ensures StrictlySorted(a[1..])
    ensures forall x :: x in a[1..] <==> x in a && x.lineNumber != a[0].lineNumber
    ensures forall x :: x in a ==> a[0].lineNumber < x.lineNumber || x == a[0]
  {
    assert a == [a[0]] + a[1..];
    assert forall k :: 0 <= k < |a[1..]| ==> a[1..][k] == a[k + 1];
  }

  lemma SameEnds(a: seq<SalesLine>, b: seq<SalesLine>)
    requires StrictlySorted(a) && StrictlySorted(b)
    requires forall x :: x in a <==> x in b
    ensures (a == [] <==> b == []) && (a != [] ==> a[0] == b[0])
  {
    assert forall i :: 0 <= i < |a| ==> a[i] in b;
    assert forall i :: 0 <= i < |b| ==> b[i] in a;
    if a != [] {
      var i :| 0 <= i < |b| && b[i] == a[0];
      var j :| 0 <= j < |a| && a[j] == b[0];
    }
  }

  lemma {:induction false} SortedIsUnique(a: seq<SalesLine>, b: seq<SalesLine>)
    requires StrictlySorted(a) && StrictlySorted(b)
    requires forall x :: x in a <==> x in b
    ensures a == b
  {
    SameEnds(a, b);
    if a != [] {
      SortedTail(a);
      SortedTail(b);
      SortedIsUnique(a[1..], b[1..]);
      assert a == [a[0]] + a[1..] && b == [b[0]] + b[1..];
    }
  }

  lemma {:induction false} TwiceInMultiset<T>(s: seq<T>, i: nat, j: nat)
    requires i < j < |s| && s[i] == s[j]
    ensures multiset(s)[s[i]] >= 2
  {
    assert s == s[..j] + [s[j]] + s[j + 1..];
    assert s[..j][i] == s[j] && s[j] in s[..j];
  }

  lemma {:induction false} TwiceInSequence<T>(s: seq<T>, x: T) returns (i: nat, j: nat)
    requires multiset(s)[x] >= 2
    ensures i < j < |s| && s[i] == s[j] == x
  {
    var n := |s| - 1;
    assert s == s[..n] + [s[n]];
    if s[n] == x {
      assert x in s[..n];
      i :| 0 <= i < n && s[..n][i] == x;
      j := n;
    } else {
      i, j := TwiceInSequence(s[..n], x);
    }
  }

  /** Pairwise different keys survive reordering. */
  lemma ReadableOfReordered(rd: Readers, sha: Sha, rows: seq<Row>, other: seq<Row>)
    requires multiset(rows) == multiset(other) && Readable(rd, sha, rows)
    ensures Readable(rd, sha, other)
  {
    assert forall row :: row in other ==> row in multiset(other);
    forall i, j | 0 <= i < j < |other|
      ensures rd.integer(other[i].line[LINE_NUMBER]) != rd.integer(other[j].line[LINE_NUMBER])
    {
      if other[i] == other[j] {
        TwiceInMultiset(other, i, j);
        var k, l := TwiceInSequence(rows, other[i]);
        assert false;
      } else {
        assert other[i] in multiset(rows) && other[j] in multiset(rows);
        var k :| 0 <= k < |rows| && rows[k] == other[i];
        var l :| 0 <= l < |rows| && rows[l] == other[j];
      }
    }
  }

  lemma SameElements<T>(a: seq<T>, b: seq<T>)
    requires multiset(a) == multiset(b)
    ensures |a| == |b| && forall x :: x in a <==> x in b
  {
    assert |a| == |multiset(a)| && |b| == |multiset(b)|;
    assert forall x :: x in a <==> x in multiset(a);
    assert forall x :: x in b <==> x in multiset(b);
  }

  lemma HeadersOfReordered(rows: seq<Row>, other: seq<Row>)
    requires rows != [] && other != [] && SameHeaders(rows) && forall row :: row in other ==> row in rows
    ensures SameHeaders(other) && other[0].header == rows[0].header
  {
    assert forall row :: row in rows ==> row.header == rows[0].header;
    assert forall i :: 0 <= i < |other| ==> other[i] in other;
  }

  lemma LinesOfReordered(rd: Readers, sha: Sha, rows: seq<Row>, other: seq<Row>)
    requires multiset(rows) == multiset(other) && ReadLines(rd, sha, rows).Ok?
    ensures ReadLines(rd, sha, other).Ok?
    ensures DistinctNumbers(ReadLines(rd, sha, rows).value) && DistinctNumbers(ReadLines(rd, sha, other).value)
    ensures SortLines(ReadLines(rd, sha, rows).value) == SortLines(ReadLines(rd, sha, other).value)
  {
    SameElements(rows, other);
    ReadLinesWhenReadable(rd, sha, rows);
    ReadableOfReordered(rd, sha, rows, other);
    ReadLinesWhenReadable(rd, sha, other);
    ReadLinesAreDistinct(rd, sha, rows);
    ReadLinesAreDistinct(rd, sha, other);
    SameLines(rd, sha, rows, other);
    SortedIsUnique(SortLines(ReadLines(rd, sha, rows).value), SortLines(ReadLines(rd, sha, other).value));
  }

  /** Any reordering of an invoice's rows builds the same invoice: the same document hash, the
      same lines in the same order. */
  lemma RowOrderIsIrrelevant(rd: Readers, sha: Sha, rows: seq<Row>, other: seq<Row>)
    requires rows != [] && multiset(rows) == multiset(other)
    requires Invoice(rd, sha, rows).Ok?
    ensures other != [] && Invoice(rd, sha, other) == Invoice(rd, sha, rows)
  {
    SameElements(rows, other);
    HeadersOfReordered(rows, other);
    LinesOfReordered(rd, sha, rows, other);
  }

  lemma SameLines(rd: Readers, sha: Sha, rows: seq<Row>, other: seq<Row>)
    requires ReadLines(rd, sha, rows).Ok? && ReadLines(rd, sha, other).Ok?
    requires forall row :: row in other <==> row in rows
    ensures forall x :: x in ReadLines(rd, sha, rows).value <==> x in ReadLines(rd, sha, other).value
  {
    LinesAreReadings(rd, sha, rows);
    LinesAreReadings(rd, sha, other);
  }

  lemma LinesAreReadings(rd: Readers, sha: Sha, rows: seq<Row>)
    requires ReadLines(rd, sha, rows).Ok?
    ensures forall x :: x in ReadLines(rd, sha, rows).value <==> exists row :: row in rows && ReadLine(rd, sha, row) == Ok(x)
  {
    ReadLinesAreDistinct(rd, sha, rows);
    var lines := ReadLines(rd, sha, rows).value;
    forall x | x in lines
      ensures exists row :: row in rows && ReadLine(rd, sha, row) == Ok(x)
    {
      var i :| 0 <= i < |lines| && lines[i] == x;
      assert rows[i] in rows;
    }
    forall x, row | row in rows && ReadLine(rd, sha, row) == Ok(x)
      ensures x in lines
    {
      var i :| 0 <= i < |rows| && rows[i] == row;
      assert lines[i] == x;
    }
  }

  // ---------------------------------------------------------------------------
  // What the document hash identifies
  // ---------------------------------------------------------------------------

  predicate CleanRow(row: Row) {
    Fields(row.header) && Fields(row.line)
  }

  function LineCells(lines: seq<SalesLine>): (cells: seq<seq<string>>)
    ensures |cells| == |lines|
    ensures forall i :: 0 <= i < |lines| ==> cells[i] == lines[i].cells
  {
    seq(|lines|, i requires 0 <= i < |lines| => lines[i].cells)
  }

  /** Two invoices have the same document hash exactly when they have the same header cells and
      the same line cells in line-number order. */
  lemma DocumentHashIsIdentity(rd: Readers, sha: Sha, rows: seq<Row>, other: seq<Row>)
    requires Ideal(sha) && rows != [] && other != []
    requires forall row :: row in rows + other ==> CleanRow(row)
    requires Invoice(rd, sha, rows).Ok? && Invoice(rd, sha, other).Ok?
    ensures var a, b := Invoice(rd, sha, rows).value, Invoice(rd, sha, other).value;
            a.documentHash == b.documentHash <==> a.header == b.header && LineCells(a.lines) == LineCells(b.lines)
  {
    var a, b := Invoice(rd, sha, rows).value, Invoice(rd, sha, other).value;
    InvoiceIsHashed(rd, sha, rows);
    InvoiceIsHashed(rd, sha, other);
    var pa, pb := [a.rowHash] + LineHashes(a.lines), [b.rowHash] + LineHashes(b.lines);
    HashIdentifiesFields(sha, pa, pb);
    HashIdentifiesFields(sha, a.header, b.header);
    LineHashesIdentify(sha, a.lines, b.lines);
    assert pa[1..] == LineHashes(a.lines) && pb[1..] == LineHashes(b.lines);
  }

  lemma LineHashesIdentify(sha: Sha, a: seq<SalesLine>, b: seq<SalesLine>)
    requires Ideal(sha)
    requires (forall line :: line in a ==> HashedLine(sha, line)) && (forall line :: line in b ==> HashedLine(sha, line))
    ensures LineHashes(a) == LineHashes(b) <==> LineCells(a) == LineCells(b)
  {
    forall i | 0 <= i < |a| && i < |b|
      ensures LineHashes(a)[i] == LineHashes(b)[i] <==> LineCells(a)[i] == LineCells(b)[i]
    {
      assert HashedLine(sha, a[i]) && HashedLine(sha, b[i]);
      HashIdentifiesFields(sha, a[i].cells, b[i].cells);
    }
    assert |LineHashes(a)| == |a| == |LineCells(a)| && |LineHashes(b)| == |b| == |LineCells(b)|;
  }

  ghost predicate HashedLine(sha: Sha, line: SalesLine) {
    |line.cells| == 13 && Fields(line.cells) && line.rowHash == HashOf(sha, line.cells)
  }

  lemma LinesAreHashed(rd: Readers, sha: Sha, rows: seq<Row>)
    requires ReadLines(rd, sha, rows).Ok? && forall row :: row in rows ==> CleanRow(row)
    ensures forall line :: line in ReadLines(rd, sha, rows).value ==> HashedLine(sha, line)
  {
    LinesAreReadings(rd, sha, rows);
    forall line | line in ReadLines(rd, sha, rows).value
      ensures HashedLine(sha, line)
    {
      var row :| row in rows && ReadLine(rd, sha, row) == Ok(line);
    }
  }

  lemma HashesAreFields(sha: Sha, first: string, lines: seq<SalesLine>)
    requires Ideal(sha) && SEPARATOR !in first
    requires forall line :: line in lines ==> HashedLine(sha, line)
    ensures Fields([first] + LineHashes(lines))
  {
    forall p | p in [first] + LineHashes(lines)
      ensures SEPARATOR !in p
    {
      if p != first {
        var i :| 0 <= i < |lines| && LineHashes(lines)[i] == p;
        assert HashedLine(sha, lines[i]);
      }
    }
  }

  lemma InvoiceIsHashed(rd: Readers, sha: Sha, rows: seq<Row>)
    requires Ideal(sha) && rows != [] && Invoice(rd, sha, rows).Ok?
    requires forall row :: row in rows ==> CleanRow(row)
    ensures var a := Invoice(rd, sha, rows).value;
            && a.header == rows[0].header && |a.header| == 20 && Fields(a.header) && a.rowHash == HashOf(sha, a.header)
            && (forall line :: line in a.lines ==> HashedLine(sha, line))
            && a.documentHash == HashOf(sha, [a.rowHash] + LineHashes(a.lines))
            && Fields([a.rowHash] + LineHashes(a.lines))
  {
    LinesAreHashed(rd, sha, rows);
    ReadLinesAreDistinct(rd, sha, rows);
    assert rows[0] in rows;
    var a := Invoice(rd, sha, rows).value;
    assert forall line :: line in a.lines ==> line in ReadLines(rd, sha, rows).value;
    HashesAreFields(sha, a.rowHash, a.lines);
  }
}
