/** GSTR-2B statements (src/silver/gstn_returns/gstr2b.py): the parse of an already decoded
    payload, what its content hash sees and does not see, and the load. */
module Gstr2b {
  import opened Prelude
  import opened Hashing
  import Bitemporal
  import Statements

  // Dates, numbers and decimals are their printed text; a decimal also says whether it is zero.

  datatype Decimal = Decimal(text: string, zero: bool)

  datatype Line = Line(
    section: string, counterpartyGstin: Option<string>, counterpartyName: Option<string>,
    documentKind: string, documentNumber: string, documentDate: string, itemNumber: Option<string>,
    rate: Option<Decimal>, taxable: Option<Decimal>, igst: Decimal, cgst: Decimal, sgst: Decimal, cess: Decimal,
    itcAvailable: Option<bool>, itcUnavailableReason: Option<string>, placeOfSupply: Option<string>,
    reverseCharge: Option<bool>, attributes: map<string, Option<string>>)

  datatype Summary = Summary(category: string, availability: string, igst: Decimal, cgst: Decimal, sgst: Decimal, cess: Decimal)

  datatype Statement = Statement(
    gstin: string, returnPeriod: string, generatedAt: Option<string>, sourceVersion: Option<string>,
    lines: seq<Line>, summary: seq<Summary>)

  // ---------------------------------------------------------------------------
  // The payload and its parse
  // ---------------------------------------------------------------------------

  datatype Amounts = Amounts(taxable: Option<Decimal>, igst: Option<Decimal>, cgst: Option<Decimal>, sgst: Option<Decimal>, cess: Option<Decimal>)

  datatype Item = Item(num: Option<string>, rate: Option<Decimal>, amounts: Amounts)

  datatype Invoice = Invoice(inum: string, idt: string, itcavl: Option<string>, rsn: Option<string>, pos: Option<string>,
                             rev: Option<string>, attributes: map<string, Option<string>>, items: seq<Item>)

  datatype Supplier = Supplier(ctin: Option<string>, trdnm: Option<string>, attributes: map<string, Option<string>>, inv: seq<Invoice>)

  datatype Import = Import(boenum: string, boedt: string, amounts: Amounts, attributes: map<string, Option<string>>)

  datatype Isd = Isd(ctin: Option<string>, trdnm: Option<string>, docnum: string, docdt: string, amounts: Amounts, doctype: Option<string>)

  datatype CategoryRow = CategoryRow(category: string, amounts: Amounts)

  datatype Payload = Payload(
    gstin: string, rtnprd: string, version: Option<string>, gendt: Option<string>,
    b2b: seq<Supplier>, cdnr: seq<string>, impg: seq<Import>, isd: seq<Isd>,
    available: seq<CategoryRow>, notAvailable: seq<CategoryRow>)

  datatype Refusal = Malformed | PeriodMismatch(found: string) | UnparsedCdnr

  const ZERO := Decimal("0", true)

  /** _amount: an absent amount is zero. */
  function Amount(d: Option<Decimal>): Decimal { if d.None? then ZERO else d.value }

  function Flag(text: Option<string>): Option<bool> { if text.None? then None else Some(text.value == "Y") }

  /** `value or None` */
  function NonEmpty(text: Option<string>): Option<string> { if text == Some("") then None else text }

  function B2bLine(s: Supplier, inv: Invoice, item: Item): Line {
    Line("B2B", s.ctin, s.trdnm, "INVOICE", inv.inum, inv.idt, item.num,
         Some(Amount(item.rate)), Some(Amount(item.amounts.taxable)),
         Amount(item.amounts.igst), Amount(item.amounts.cgst), Amount(item.amounts.sgst), Amount(item.amounts.cess),
         Flag(inv.itcavl), NonEmpty(inv.rsn), inv.pos, Flag(inv.rev), s.attributes + inv.attributes)
  }

  function ItemLines(s: Supplier, inv: Invoice, items: seq<Item>): seq<Line> {
    seq(|items|, i requires 0 <= i < |items| => B2bLine(s, inv, items[i]))
  }

  function InvoiceLines(s: Supplier, invoices: seq<Invoice>): seq<Line> {
    if invoices == [] then []
    else InvoiceLines(s, invoices[..|invoices| - 1]) + ItemLines(s, invoices[|invoices| - 1], invoices[|invoices| - 1].items)
  }

  function B2bLines(suppliers: seq<Supplier>): seq<Line> {
    if suppliers == [] then []
    else B2bLines(suppliers[..|suppliers| - 1]) + InvoiceLines(suppliers[|suppliers| - 1], suppliers[|suppliers| - 1].inv)
  }

  method ParseB2b(suppliers: seq<Supplier>) returns (lines: seq<Line>)
    ensures lines == B2bLines(suppliers)
  {
    lines := [];
    for i := 0 to |suppliers|
      invariant lines == B2bLines(suppliers[..i])
    {
      var s := suppliers[i];
      for j := 0 to |s.inv|
        invariant lines == B2bLines(suppliers[..i]) + InvoiceLines(s, s.inv[..j])
      {
        var inv := s.inv[j];
        assert s.inv[..j + 1][..j] == s.inv[..j];
        ghost var before := lines;
        for k := 0 to |inv.items|
          invariant lines == before + ItemLines(s, inv, inv.items)[..k]
        {
          lines := lines + [B2bLine(s, inv, inv.items[k])];
        }
        assert ItemLines(s, inv, inv.items)[..|inv.items|] == ItemLines(s, inv, inv.items);
      }
      assert s.inv[..|s.inv|] == s.inv;
      assert suppliers[..i + 1][..i] == suppliers[..i];
    }
    assert suppliers[..|suppliers|] == suppliers;
  }

  function ImportLines(rows: seq<Import>): seq<Line> {
    seq(|rows|, i requires 0 <= i < |rows| =>
      Line("IMPG", None, None, "BILL_OF_ENTRY", rows[i].boenum, rows[i].boedt, None, None,
           Some(Amount(rows[i].amounts.taxable)), Amount(rows[i].amounts.igst), ZERO, ZERO, Amount(rows[i].amounts.cess),
           None, None, None, None, rows[i].attributes))
  }

  function IsdLines(rows: seq<Isd>): seq<Line> {
    seq(|rows|, i requires 0 <= i < |rows| =>
      Line("ISD", rows[i].ctin, rows[i].trdnm, "ISD_CREDIT", rows[i].docnum, rows[i].docdt, None, None, None,
           Amount(rows[i].amounts.igst), Amount(rows[i].amounts.cgst), Amount(rows[i].amounts.sgst), Amount(rows[i].amounts.cess),
           None, None, None, None, map["document_type" := rows[i].doctype]))
  }

  function SummaryRow(upper: string -> string, availability: string, row: CategoryRow): Summary {
    Summary(upper(row.category), availability, Amount(row.amounts.igst), Amount(row.amounts.cgst),
            Amount(row.amounts.sgst), Amount(row.amounts.cess))
  }

  function SummaryRows(upper: string -> string, availability: string, rows: seq<CategoryRow>): seq<Summary> {
    seq(|rows|, i requires 0 <= i < |rows| => SummaryRow(upper, availability, rows[i]))
  }

  method AddSummaryRows(upper: string -> string, availability: string, rows: seq<CategoryRow>, before: seq<Summary>) returns (out: seq<Summary>)
    ensures out == before + SummaryRows(upper, availability, rows)
  {
    out := before;
    for i := 0 to |rows|
      invariant out == before + SummaryRows(upper, availability, rows)[..i]
    {
      out := out + [SummaryRow(upper, availability, rows[i])];
    }
    assert SummaryRows(upper, availability, rows)[..|rows|] == SummaryRows(upper, availability, rows);
  }

  method ParseItcSummary(upper: string -> string, available: seq<CategoryRow>, notAvailable: seq<CategoryRow>) returns (out: seq<Summary>)
    ensures out == SummaryRows(upper, "AVAILABLE", available) + SummaryRows(upper, "NOT_AVAILABLE", notAvailable)
  {
    out := AddSummaryRows(upper, "AVAILABLE", available, []);
    out := AddSummaryRows(upper, "NOT_AVAILABLE", notAvailable, out);
  }

  /** The statement a payload stands for; `expected` is the month and year of the period asked for. */
  function StatementOf(upper: string -> string, payload: Option<Payload>, expected: string): Result<Statement, Refusal> {
    match payload
    case None => Err(Malformed)
    case Some(p) =>
      if p.rtnprd != expected then Err(PeriodMismatch(p.rtnprd))
      else if p.cdnr != [] then Err(UnparsedCdnr)
      else Ok(Statement(p.gstin, p.rtnprd, NonEmpty(p.gendt), p.version,
                        B2bLines(p.b2b) + ImportLines(p.impg) + IsdLines(p.isd),
                        SummaryRows(upper, "AVAILABLE", p.available) + SummaryRows(upper, "NOT_AVAILABLE", p.notAvailable)))
  }

  method ParseGstr2b(upper: string -> string, payload: Option<Payload>, expected: string) returns (r: Result<Statement, Refusal>)
    ensures r == StatementOf(upper, payload, expected)
  {
    if payload.None? {
      return Err(Malformed);
    }
    var p := payload.value;
    if p.rtnprd != expected {
      return Err(PeriodMismatch(p.rtnprd));
    }
    if p.cdnr != [] {
      return Err(UnparsedCdnr);
    }
    var lines := ParseB2b(p.b2b);
    lines := lines + ImportLines(p.impg);
    lines := lines + IsdLines(p.isd);
    var summary := ParseItcSummary(upper, p.available, p.notAvailable);
    return Ok(Statement(p.gstin, p.rtnprd, NonEmpty(p.gendt), p.version, lines, summary));
  }

  // ---------------------------------------------------------------------------
  // The grouped section loses no item
  // ---------------------------------------------------------------------------

  ghost predicate ItemAt(suppliers: seq<Supplier>, i: int, j: int, k: int) {
    0 <= i < |suppliers| && 0 <= j < |suppliers[i].inv| && 0 <= k < |suppliers[i].inv[j].items|
  }

  ghost predicate LineIs(suppliers: seq<Supplier>, l: Line, i: int, j: int, k: int) {
    ItemAt(suppliers, i, j, k) && l == B2bLine(suppliers[i], suppliers[i].inv[j], suppliers[i].inv[j].items[k])
  }

  function ItemsOf(invoices: seq<Invoice>): nat {
    if invoices == [] then 0 else ItemsOf(invoices[..|invoices| - 1]) + |invoices[|invoices| - 1].items|
  }

  function ItemCount(suppliers: seq<Supplier>): nat {
    if suppliers == [] then 0 else ItemCount(suppliers[..|suppliers| - 1]) + ItemsOf(suppliers[|suppliers| - 1].inv)
  }

  ghost predicate InvoiceItem(s: Supplier, invoices: seq<Invoice>, l: Line, j: int, k: int) {
    0 <= j < |invoices| && 0 <= k < |invoices[j].items| && l == B2bLine(s, invoices[j], invoices[j].items[k])
  }

  lemma {:induction false} InvoiceLinesAreItems(s: Supplier, invoices: seq<Invoice>, l: Line)
    ensures |InvoiceLines(s, invoices)| == ItemsOf(invoices)
    ensures l in InvoiceLines(s, invoices) <==> exists j, k :: InvoiceItem(s, invoices, l, j, k)
  {
    if invoices != [] {
      var n := |invoices| - 1;
      InvoiceLinesAreItems(s, invoices[..n], l);
      var last := ItemLines(s, invoices[n], invoices[n].items);
      if l in InvoiceLines(s, invoices[..n]) {
        var j, k :| InvoiceItem(s, invoices[..n], l, j, k);
        assert InvoiceItem(s, invoices, l, j, k);
      }
      if l in last {
        var k :| 0 <= k < |last| && last[k] == l;
        assert InvoiceItem(s, invoices, l, n, k);
      }
      forall j, k | InvoiceItem(s, invoices, l, j, k) ensures l in InvoiceLines(s, invoices) {
        if j < n {
          assert InvoiceItem(s, invoices[..n], l, j, k);
        } else {
          assert last[k] == l;
        }
      }
    }
  }

  ghost predicate SomeLine(suppliers: seq<Supplier>, l: Line) {
    exists i, j, k :: LineIs(suppliers, l, i, j, k)
  }

  ghost predicate SomeItem(s: Supplier, l: Line) {
    exists j, k :: InvoiceItem(s, s.inv, l, j, k)
  }

  lemma OneMoreSupplier(front: seq<Supplier>, s: Supplier, l: Line)
    ensures SomeLine(front + [s], l) <==> SomeLine(front, l) || SomeItem(s, l)
  {
    var suppliers, n := front + [s], |front|;
    if SomeLine(front, l) {
      var i, j, k :| LineIs(front, l, i, j, k);
      assert LineIs(suppliers, l, i, j, k);
    }
    if SomeItem(s, l) {
      var j, k :| InvoiceItem(s, s.inv, l, j, k);
      assert LineIs(suppliers, l, n, j, k);
    }
    if SomeLine(suppliers, l) {
      var i, j, k :| LineIs(suppliers, l, i, j, k);
      assert if i < n then LineIs(front, l, i, j, k) else InvoiceItem(s, s.inv, l, j, k);
    }
  }

  /** One line for each item of each invoice of each supplier, and no other. */
  lemma {:induction false} LinesAreItems(suppliers: seq<Supplier>, l: Line)
    ensures |B2bLines(suppliers)| == ItemCount(suppliers)
    ensures l in B2bLines(suppliers) <==> SomeLine(suppliers, l)
  {
    if suppliers != [] {
      var n := |suppliers| - 1;
      LinesAreItems(suppliers[..n], l);
      InvoiceLinesAreItems(suppliers[n], suppliers[n].inv, l);
      OneMoreSupplier(suppliers[..n], suppliers[n], l);
      assert suppliers[..n] + [suppliers[n]] == suppliers;
    }
  }

  // ---------------------------------------------------------------------------
  // Content identity
  // ---------------------------------------------------------------------------

  /** `value or ""` */
  function OrEmpty(text: Option<string>): string { if text.None? then "" else text.value }

  /** `str(amount or "")`: zero and absent both print as nothing. */
  function AmountOrEmpty(d: Option<Decimal>): string { if d.None? || d.value.zero then "" else d.value.text }

  function LineParts(l: Line): seq<string> {
    [l.section, OrEmpty(l.counterpartyGstin), l.documentKind, l.documentNumber, l.documentDate, OrEmpty(l.itemNumber),
     AmountOrEmpty(l.rate), AmountOrEmpty(l.taxable), l.igst.text, l.cgst.text, l.sgst.text, l.cess.text]
  }

  function SummaryParts(s: Summary): seq<string> {
    [s.category, s.availability, s.igst.text, s.cgst.text, s.sgst.text, s.cess.text]
  }

  function LineRows(lines: seq<Line>): seq<Statements.Parts> {
    seq(|lines|, i requires 0 <= i < |lines| => LineParts(lines[i]))
  }

  function SummaryPartRows(rows: seq<Summary>): seq<Statements.Parts> {
    seq(|rows|, i requires 0 <= i < |rows| => SummaryParts(rows[i]))
  }

  function RowHash(sha: Sha, l: Line): string { HashOf(sha, LineParts(l)) }

  function DocumentHash(sha: Sha, s: Statement): string {
    Statements.StatementHash(sha, [s.gstin, s.returnPeriod], LineRows(s.lines), SummaryPartRows(s.summary))
  }

  predicate Clean(s: Statement) {
    && Fields([s.gstin, s.returnPeriod])
    && (forall i :: 0 <= i < |s.lines| ==> Fields(LineParts(s.lines[i])))
    && (forall i :: 0 <= i < |s.summary| ==> Fields(SummaryParts(s.summary[i])))
  }

  /** What two lines must share for the hash to take them for one. */
  predicate SameLine(a: Line, b: Line) {
    && a.section == b.section && OrEmpty(a.counterpartyGstin) == OrEmpty(b.counterpartyGstin)
    && a.documentKind == b.documentKind && a.documentNumber == b.documentNumber && a.documentDate == b.documentDate
    && OrEmpty(a.itemNumber) == OrEmpty(b.itemNumber)
    && AmountOrEmpty(a.rate) == AmountOrEmpty(b.rate) && AmountOrEmpty(a.taxable) == AmountOrEmpty(b.taxable)
    && a.igst.text == b.igst.text && a.cgst.text == b.cgst.text && a.sgst.text == b.sgst.text && a.cess.text == b.cess.text
  }

  predicate SameSummary(a: Summary, b: Summary) {
    && a.category == b.category && a.availability == b.availability
    && a.igst.text == b.igst.text && a.cgst.text == b.cgst.text && a.sgst.text == b.sgst.text && a.cess.text == b.cess.text
  }

  /** Equal as far as the hash can tell: the same lines and the same summary rows, in order. */
  predicate SameContent(a: Statement, b: Statement) {
    && a.gstin == b.gstin && a.returnPeriod == b.returnPeriod
    && |a.lines| == |b.lines| && (forall i :: 0 <= i < |a.lines| ==> SameLine(a.lines[i], b.lines[i]))
    && |a.summary| == |b.summary| && (forall i :: 0 <= i < |a.summary| ==> SameSummary(a.summary[i], b.summary[i]))
  }

  lemma LinePartsAgree(a: Line, b: Line)
    ensures LineParts(a) == LineParts(b) <==> SameLine(a, b)
  {
    var p, q := LineParts(a), LineParts(b);
    if p == q {
      assert p[0] == q[0] && p[1] == q[1] && p[2] == q[2] && p[3] == q[3] && p[4] == q[4] && p[5] == q[5];
      assert p[6] == q[6] && p[7] == q[7] && p[8] == q[8] && p[9] == q[9] && p[10] == q[10] && p[11] == q[11];
    }
  }

  lemma SummaryPartsAgree(a: Summary, b: Summary)
    ensures SummaryParts(a) == SummaryParts(b) <==> SameSummary(a, b)
  {
    var p, q := SummaryParts(a), SummaryParts(b);
    if p == q {
      assert p[0] == q[0] && p[1] == q[1] && p[2] == q[2] && p[3] == q[3] && p[4] == q[4] && p[5] == q[5];
    }
  }

  lemma RowsAgree(a: Statement, b: Statement)
    ensures LineRows(a.lines) == LineRows(b.lines)
            <==> |a.lines| == |b.lines| && forall i :: 0 <= i < |a.lines| ==> SameLine(a.lines[i], b.lines[i])
    ensures SummaryPartRows(a.summary) == SummaryPartRows(b.summary)
            <==> |a.summary| == |b.summary| && forall i :: 0 <= i < |a.summary| ==> SameSummary(a.summary[i], b.summary[i])
  {
    var x, y := LineRows(a.lines), LineRows(b.lines);
    var u, v := SummaryPartRows(a.summary), SummaryPartRows(b.summary);
    forall i | 0 <= i < |x| && i < |y| ensures x[i] == y[i] <==> SameLine(a.lines[i], b.lines[i]) {
      LinePartsAgree(a.lines[i], b.lines[i]);
    }
    forall i | 0 <= i < |u| && i < |v| ensures u[i] == v[i] <==> SameSummary(a.summary[i], b.summary[i]) {
      SummaryPartsAgree(a.summary[i], b.summary[i]);
    }
    assert x == y ==> |x| == |y|;
    assert u == v ==> |u| == |v|;
  }

  /** The document hash is the identity of the hashed content, although nothing in it marks
      where the lines end and the summary begins. */
  lemma DocumentHashIsIdentity(sha: Sha, a: Statement, b: Statement)
    requires Ideal(sha) && Clean(a) && Clean(b)
    ensures DocumentHash(sha, a) == DocumentHash(sha, b) <==> SameContent(a, b)
  {
    var h, k := [a.gstin, a.returnPeriod], [b.gstin, b.returnPeriod];
    Statements.StatementHashIdentifies(sha, h, LineRows(a.lines), SummaryPartRows(a.summary),
                                       k, LineRows(b.lines), SummaryPartRows(b.summary), 12, 6);
    RowsAgree(a, b);
    assert h == k <==> a.gstin == b.gstin && a.returnPeriod == b.returnPeriod by {
      assert h == k ==> h[0] == k[0] && h[1] == k[1];
    }
  }

  /** What the hash does not see: a statement that changes only these is taken as unchanged. */
  lemma OmittedFieldsAreNotSeen(sha: Sha, s: Statement, i: nat, l: Line)
    requires i < |s.lines|
    requires l == s.lines[i].(counterpartyName := l.counterpartyName, itcAvailable := l.itcAvailable,
                              itcUnavailableReason := l.itcUnavailableReason, placeOfSupply := l.placeOfSupply,
                              reverseCharge := l.reverseCharge, attributes := l.attributes)
    ensures DocumentHash(sha, s.(lines := s.lines[i := l])) == DocumentHash(sha, s)
  {
    var t := s.(lines := s.lines[i := l]);
    forall j | 0 <= j < |s.lines| ensures LineRows(t.lines)[j] == LineRows(s.lines)[j] {
      LinePartsAgree(t.lines[j], s.lines[j]);
    }
    assert LineRows(t.lines) == LineRows(s.lines);
  }

  /** A zero rate and an absent rate are one to the hash. */
  lemma ZeroRateIsAbsent(sha: Sha, l: Line, zero: Decimal)
    requires zero.zero
    ensures RowHash(sha, l.(rate := Some(zero))) == RowHash(sha, l.(rate := None))
  {
    LinePartsAgree(l.(rate := Some(zero)), l.(rate := None));
  }

  // ---------------------------------------------------------------------------
  // The load
  // ---------------------------------------------------------------------------

  datatype Child = OfLine(line: Line) | OfSummary(row: Summary)

  function ChildrenOf(s: Statement): seq<Child> {
    seq(|s.lines| + |s.summary|, i requires 0 <= i < |s.lines| + |s.summary| =>
      if i < |s.lines| then OfLine(s.lines[i]) else OfSummary(s.summary[i - |s.lines|]))
  }

  function RowCountOf(s: Statement): nat { |s.lines| }

  lemma HashIdentifies(sha: Sha, hashOf: Statement -> string)
    requires Ideal(sha) && forall s :: hashOf(s) == DocumentHash(sha, s)
    ensures Statements.Identifies(hashOf, Clean, SameContent)
  {
    forall a, b | Clean(a) && Clean(b) ensures hashOf(a) == hashOf(b) <==> SameContent(a, b) {
      DocumentHashIsIdentity(sha, a, b);
    }
  }

  /** One payload.  A refusal writes nothing; otherwise a batch is written exactly when the live
      statement of the entity, GSTIN and period differs in its hashed content. */
  method Load(loader: Statements.StatementLoader<Statement, Child>, sha: Sha, upper: string -> string,
              key: Statements.Key, end: int, ingest: nat, contentHash: string,
              payload: Option<Payload>, expected: string, now: int) returns (r: Result<Statements.LoadOutcome, Refusal>)
    requires loader.Valid() && Statements.Configured(loader, s => DocumentHash(sha, s), ChildrenOf, RowCountOf)
    requires Ideal(sha) && Bitemporal.Chained(loader.headers)
    requires StatementOf(upper, payload, expected).Ok? ==> Statements.AllClean(loader.headers, StatementOf(upper, payload, expected).value, Clean)
    modifies loader
    ensures loader.Valid() && Bitemporal.Chained(loader.headers)
    ensures r.Ok? <==> StatementOf(upper, payload, expected).Ok?
    ensures r.Err? ==> r.error == StatementOf(upper, payload, expected).error
                       && loader.headers == old(loader.headers) && loader.batches == old(loader.batches) && loader.children == old(loader.children)
    ensures r.Ok? ==>
              var s := StatementOf(upper, payload, expected).value;
              && r.value.rowCount == |s.lines|
              && (r.value.inserted <==> !Statements.AlreadyLive(old(loader.headers), key, s, SameContent))
              && |loader.batches| == |old(loader.batches)| + (if r.value.inserted then 1 else 0)
              && (!r.value.inserted ==> loader.headers == old(loader.headers) && loader.children == old(loader.children))
              && Statements.AlreadyLive(loader.headers, key, s, SameContent)
  {
    var parsed := ParseGstr2b(upper, payload, expected);
    if parsed.Err? {
      return Err(parsed.error);
    }
    HashIdentifies(sha, loader.hashOf);
    var outcome := Statements.LoadContent(loader, key, end, ingest, contentHash, parsed.value, now, Clean, SameContent);
    return Ok(outcome);
  }
}
