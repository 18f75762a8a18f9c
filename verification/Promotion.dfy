/** Promotion of a validated transaction file (src/silver/promote.py): every document supersedes
    the live one of its key or is inserted, in one transaction with its lines and the batch. */
module Promotion {
  import opened Prelude
  import opened Chains
  import Clauses
  import Contract
  import opened Validation

  datatype DocumentKey = DocumentKey(entity: nat, docType: string, gstin: string, number: string)

  datatype Promoted = Promoted(batch: nat, ingest: nat, direction: Contract.Direction, document: Document,
                               totalTaxable: real, totalTax: real, total: real)

  type DocumentTable = seq<Chains.Row<DocumentKey, Promoted>>

  datatype LineRow = LineRow(doc: nat, line: Line)

  datatype Scope = Scope(entity: nat, docType: string, stream: string, direction: Contract.Direction, batch: nat, ingest: nat)

  datatype BatchRow = BatchRow(scope: Scope, rowCount: nat)

  // ---------------------------------------------------------------------------
  // Totals
  // ---------------------------------------------------------------------------

  function TaxOf(l: Line): real { l.cgst + l.sgst + l.igst + l.cess }

  function TotalTaxable(lines: seq<Line>): real {
    if lines == [] then 0.0 else TotalTaxable(lines[..|lines| - 1]) + lines[|lines| - 1].taxable
  }

  function TotalTax(lines: seq<Line>): real {
    if lines == [] then 0.0 else TotalTax(lines[..|lines| - 1]) + TaxOf(lines[|lines| - 1])
  }

  lemma {:induction false} TotalsConcat(a: seq<Line>, b: seq<Line>)
    ensures TotalTaxable(a + b) == TotalTaxable(a) + TotalTaxable(b) && TotalTax(a + b) == TotalTax(a) + TotalTax(b)
  {
    if b == [] {
      assert a + b == a;
    } else {
      TotalsConcat(a, b[..|b| - 1]);
      assert (a + b)[..|a + b| - 1] == a + b[..|b| - 1];
    }
  }

  lemma {:induction false} TotalsOfPlace(line: Line, lines: seq<Line>)
    ensures TotalTaxable(Place(line, lines)) == TotalTaxable(lines) + line.taxable
    ensures TotalTax(Place(line, lines)) == TotalTax(lines) + TaxOf(line)
  {
    if lines == [] || lines[|lines| - 1].number <= line.number {
      assert (lines + [line])[..|lines|] == lines;
    } else {
      var k := |lines| - 1;
      TotalsOfPlace(line, lines[..k]);
      var rest := Place(line, lines[..k]);
      assert (rest + [lines[k]])[..|rest|] == rest;
    }
  }

  /** Sorting a document's lines leaves its totals what the file's rows add up to. */
  lemma {:induction false} TotalsOfSorted(lines: seq<Line>)
    ensures TotalTaxable(SortLines(lines)) == TotalTaxable(lines) && TotalTax(SortLines(lines)) == TotalTax(lines)
  {
    if lines != [] {
      TotalsOfSorted(lines[..|lines| - 1]);
      TotalsOfPlace(lines[|lines| - 1], SortLines(lines[..|lines| - 1]));
    }
  }

  // ---------------------------------------------------------------------------
  // The loop
  // ---------------------------------------------------------------------------

  /** The expressions of transaction_document_natural_key_uq; an absent GSTIN is ''. */
  function KeyOf(scope: Scope, d: Document): DocumentKey {
    DocumentKey(scope.entity, scope.docType, d.Key().gstin, d.number)
  }

  function PayloadOf(scope: Scope, d: Document): Promoted {
    Promoted(scope.batch, scope.ingest, scope.direction, d, TotalTaxable(d.lines), TotalTax(d.lines),
             TotalTaxable(d.lines) + TotalTax(d.lines))
  }

  function PromoteAll(t: DocumentTable, scope: Scope, ds: seq<Document>, now: int): DocumentTable {
    if ds == [] then t
    else
      var d := ds[|ds| - 1];
      Supersede(PromoteAll(t, scope, ds[..|ds| - 1], now), KeyOf(scope, d), PayloadOf(scope, d), now)
  }

  function LineRows(doc: nat, lines: seq<Line>): (rows: seq<LineRow>)
    ensures |rows| == |lines| && forall i :: 0 <= i < |rows| ==> rows[i] == LineRow(doc, lines[i])
  {
    seq(|lines|, i requires 0 <= i < |lines| => LineRow(doc, lines[i]))
  }

  /** What transaction_line must hold: the lines of every document ever inserted. */
  function StoredLines(t: DocumentTable): seq<LineRow> {
    if t == [] then [] else StoredLines(t[..|t| - 1]) + LineRows(|t| - 1, t[|t| - 1].payload.document.lines)
  }

  lemma {:induction false} ClosingKeepsLines(t: DocumentTable, prior: Option<nat>, now: int)
    requires prior.Some? ==> prior.value < |t|
    ensures StoredLines(CloseRecord(t, prior, now)) == StoredLines(t)
  {
    if prior.Some? {
      var t' := CloseRecord(t, prior, now);
      if prior.value < |t| - 1 {
        ClosingKeepsLines(t[..|t| - 1], prior, now);
        assert t'[..|t| - 1] == CloseRecord(t[..|t| - 1], prior, now);
      } else {
        assert t'[..|t| - 1] == t[..|t| - 1];
      }
    }
  }

  // ---------------------------------------------------------------------------
  // The service
  // ---------------------------------------------------------------------------

  const RETIRED: set<string> := {"PURCHASE_REGISTER", "CREDIT_DEBIT_NOTE_REGISTER", "HO_COMMON_INPUT_SERVICE_INVOICE"}

  datatype RegistryRow = RegistryRow(stream: string, fieldContract: string, archetype: int)

  datatype Spec = Spec(stream: string, contract: Contract.FieldContract)

  datatype Refusal = NotInScope | Retired | WrongArchetype(archetype: int) | BadContract(fault: Clauses.Fault) | Rejected(rejections: seq<Rejection>)

  function SpecOf(registered: Option<RegistryRow>, docType: string): Result<Spec, Refusal> {
    match registered
    case None => Err(NotInScope)
    case Some(r) =>
      if docType in RETIRED then Err(Retired)
      else if r.archetype != 1 then Err(WrongArchetype(r.archetype))
      else
        var c := Contract.ContractOf(r.fieldContract);
        if c.Err? then Err(BadContract(c.error)) else Ok(Spec(r.stream, c.value))
  }

  class SilverPromotionService {
    const rd: Readers
    var documents: DocumentTable
    var lines: seq<LineRow>
    var batches: seq<BatchRow>
    var quarantined: map<nat, seq<Rejection>>

    constructor (rd: Readers)
      ensures this.rd == rd && Valid() && documents == [] && batches == []
    {
      this.rd := rd;
      documents, lines, batches, quarantined := [], [], [], map[];
    }

    ghost predicate Valid()
      reads this
    {
      lines == StoredLines(documents)
    }

    method InsertDocument(key: DocumentKey, payload: Promoted, prior: Option<nat>)
      requires Valid()
      modifies this`documents, this`lines
      ensures Valid() && documents == old(documents) + [Row(key, payload, prior, None)]
    {
      var doc := |documents|;
      documents := documents + [Row(key, payload, prior, None)];
      var rows := payload.document.lines;
      for i := 0 to |rows|
        invariant documents == old(documents) + [Row(key, payload, prior, None)]
        invariant lines == old(lines) + LineRows(doc, rows)[..i]
      {
        lines := lines + [LineRow(doc, rows[i])];
      }
      assert LineRows(doc, rows)[..|rows|] == LineRows(doc, rows);
      assert documents[..doc] == old(documents);
    }

    method PromoteDocument(scope: Scope, d: Document, now: int)
      requires Valid()
      modifies this`documents, this`lines
      ensures Valid() && documents == Supersede(old(documents), KeyOf(scope, d), PayloadOf(scope, d), now)
    {
      var prior := CurrentOf(documents, KeyOf(scope, d));
      ClosingKeepsLines(documents, prior, now);
      if prior.Some? {
        documents := documents[prior.value := documents[prior.value].(supersededAt := Some(now))];
      }
      InsertDocument(KeyOf(scope, d), PayloadOf(scope, d), prior);
    }

    method PromoteDocuments(scope: Scope, ds: seq<Document>, now: int)
      requires Valid()
      modifies this`documents, this`lines
      ensures Valid() && documents == PromoteAll(old(documents), scope, ds, now)
    {
      for i := 0 to |ds|
        invariant Valid() && documents == PromoteAll(old(documents), scope, ds[..i], now)
      {
        assert ds[..i + 1][..i] == ds[..i];
        PromoteDocument(scope, ds[i], now);
      }
      assert ds[..|ds|] == ds;
    }

    /** One artefact: refused, quarantined whole, or promoted whole with one batch. */
    method PromoteTransactionDocuments(registered: Option<RegistryRow>, docType: string, entity: nat, ingest: nat, file: File, now: int)
      returns (r: Result<BatchRow, Refusal>)
      requires Valid()
      modifies this
      ensures Valid()
      ensures SpecOf(registered, docType).Err? ==>
                r == Err(SpecOf(registered, docType).error) && documents == old(documents) && batches == old(batches)
                && quarantined == old(quarantined)
      ensures SpecOf(registered, docType).Ok? ==>
                var spec := SpecOf(registered, docType).value;
                var outcome := Validate(rd, spec.contract, file);
                if outcome.rejections != [] then
                  && r == Err(Rejected(outcome.rejections)) && documents == old(documents) && batches == old(batches)
                  && quarantined == old(quarantined)[ingest := outcome.rejections]
                else
                  var scope := Scope(entity, docType, spec.stream, spec.contract.direction, |old(batches)|, ingest);
                  && r == Ok(BatchRow(scope, RowCount(outcome.documents)))
                  && documents == PromoteAll(old(documents), scope, outcome.documents, now)
                  && batches == old(batches) + [BatchRow(scope, RowCount(outcome.documents))]
                  && quarantined == old(quarantined)
    {
      var spec := SpecOf(registered, docType);
      if spec.Err? {
        return Err(spec.error);
      }
      var outcome := ValidateTransactionCsv(rd, spec.value.contract, file);
      if outcome.rejections != [] {
        quarantined := quarantined[ingest := outcome.rejections];
        return Err(Rejected(outcome.rejections));
      }
      var scope := Scope(entity, docType, spec.value.stream, spec.value.contract.direction, |batches|, ingest);
      var batch := BatchRow(scope, RowCount(outcome.documents));
      batches := batches + [batch];
      PromoteDocuments(scope, outcome.documents, now);
      return Ok(batch);
    }
  }

  // ---------------------------------------------------------------------------
  // One promotion
  // ---------------------------------------------------------------------------

  lemma {:induction false} PromotionKeepsChained(t: DocumentTable, scope: Scope, ds: seq<Document>, now: int)
    requires Chained(t)
    ensures Chained(PromoteAll(t, scope, ds, now))
  {
    if ds != [] {
      var d := ds[|ds| - 1];
      PromotionKeepsChained(t, scope, ds[..|ds| - 1], now);
      SupersedeKeepsChained(PromoteAll(t, scope, ds[..|ds| - 1], now), KeyOf(scope, d), PayloadOf(scope, d), now);
    }
  }

  predicate Names(scope: Scope, ds: seq<Document>, key: DocumentKey) {
    exists i :: 0 <= i < |ds| && KeyOf(scope, ds[i]) == key
  }

  predicate DistinctDocuments(scope: Scope, ds: seq<Document>) {
    forall i, j :: 0 <= i < j < |ds| ==> KeyOf(scope, ds[i]) != KeyOf(scope, ds[j])
  }

  /** What a promotion does to the rows that were there: the live ones of its keys are closed. */
  predicate OldRows(t: DocumentTable, t': DocumentTable, scope: Scope, ds: seq<Document>, now: int) {
    |t| <= |t'| && forall i :: 0 <= i < |t| ==>
      t'[i] == if t[i].Live() && Names(scope, ds, t[i].key) then t[i].(supersededAt := Some(now)) else t[i]
  }

  /** And what it adds: each document live, pointing at the row that was live before. */
  predicate NewRows(t: DocumentTable, t': DocumentTable, scope: Scope, ds: seq<Document>) {
    |t'| == |t| + |ds| && forall i :: 0 <= i < |ds| ==>
      t'[|t| + i] == Row(KeyOf(scope, ds[i]), PayloadOf(scope, ds[i]), CurrentOf(t, KeyOf(scope, ds[i])), None)
  }

  /** The live row of a key that the promotion has not reached yet. */
  lemma UntouchedKey(t: DocumentTable, t': DocumentTable, scope: Scope, ds: seq<Document>, key: DocumentKey, now: int)
    requires Chained(t) && Chained(t') && OldRows(t, t', scope, ds, now) && NewRows(t, t', scope, ds) && !Names(scope, ds, key)
    ensures CurrentOf(t', key) == CurrentOf(t, key)
  {
    forall i | 0 <= i < |t'| && t'[i].key == key ensures i < |t| && t[i].key == key {
      if i >= |t| {
        NewRowIs(t, t', scope, ds, i - |t|);
        assert Names(scope, ds, t'[i].key);
      }
    }
    SameCurrent(t, t', key);
  }

  lemma NewRowIs(t: DocumentTable, t': DocumentTable, scope: Scope, ds: seq<Document>, i: nat)
    requires NewRows(t, t', scope, ds) && i < |ds|
    ensures t'[|t| + i].key == KeyOf(scope, ds[i]) && t'[|t| + i].Live()
    ensures t'[|t| + i].payload.document == ds[i] && t'[|t| + i].supersedes == CurrentOf(t, KeyOf(scope, ds[i]))
  {
  }

  lemma NamesOneMore(scope: Scope, ds: seq<Document>, d: Document, key: DocumentKey)
    ensures Names(scope, ds + [d], key) <==> Names(scope, ds, key) || KeyOf(scope, d) == key
  {
    assert (ds + [d])[|ds|] == d;
    assert forall i :: 0 <= i < |ds| ==> (ds + [d])[i] == ds[i];
  }

  lemma StepEffect(t: DocumentTable, mid: DocumentTable, scope: Scope, ds: seq<Document>, d: Document, now: int)
    requires Chained(t) && Chained(mid) && OldRows(t, mid, scope, ds, now) && NewRows(t, mid, scope, ds)
    requires !Names(scope, ds, KeyOf(scope, d))
    ensures var t' := Supersede(mid, KeyOf(scope, d), PayloadOf(scope, d), now);
            OldRows(t, t', scope, ds + [d], now) && NewRows(t, t', scope, ds + [d])
  {
    var key := KeyOf(scope, d);
    var t' := Supersede(mid, key, PayloadOf(scope, d), now);
    var prior := CurrentOf(mid, key);
    UntouchedKey(t, mid, scope, ds, key, now);
    OneLivePerKey(mid);
    forall i | 0 <= i < |t|
      ensures t'[i] == if t[i].Live() && Names(scope, ds + [d], t[i].key) then t[i].(supersededAt := Some(now)) else t[i]
    {
      NamesOneMore(scope, ds, d, t[i].key);
      assert mid[i] in mid;
      assert mid[i].Live() && mid[i].key == key ==> prior == Some(i);
    }
    forall i | 0 <= i <= |ds|
      ensures t'[|t| + i] == Row(KeyOf(scope, (ds + [d])[i]), PayloadOf(scope, (ds + [d])[i]), CurrentOf(t, KeyOf(scope, (ds + [d])[i])), None)
    {
      assert i < |ds| ==> mid[|t| + i].key == KeyOf(scope, ds[i]) != key;
    }
  }

  lemma LastIsNew(scope: Scope, ds: seq<Document>)
    requires ds != [] && DistinctDocuments(scope, ds)
    ensures var n := |ds| - 1; DistinctDocuments(scope, ds[..n]) && !Names(scope, ds[..n], KeyOf(scope, ds[n]))
  {
  }

  /** A promotion of documents with distinct keys closes exactly the rows that were live for
      those keys and leaves every document it adds live: none closes another of its batch. */
  lemma {:induction false} PromotionEffect(t: DocumentTable, scope: Scope, ds: seq<Document>, now: int)
    requires Chained(t) && DistinctDocuments(scope, ds)
    ensures var t' := PromoteAll(t, scope, ds, now);
            Chained(t') && OldRows(t, t', scope, ds, now) && NewRows(t, t', scope, ds)
  {
    PromotionKeepsChained(t, scope, ds, now);
    if ds != [] {
      var n := |ds| - 1;
      PromotionEffect(t, scope, ds[..n], now);
      LastIsNew(scope, ds);
      StepEffect(t, PromoteAll(t, scope, ds[..n], now), scope, ds[..n], ds[n], now);
      assert ds[..n] + [ds[n]] == ds;
    }
  }

  /** An accepted file is such a promotion: validation keeps the keys distinct. */
  lemma AcceptedFilePromotes(rd: Readers, c: Contract.FieldContract, file: File, t: DocumentTable, scope: Scope, now: int)
    requires Chained(t) && Validate(rd, c, file).rejections == []
    ensures var ds := Validate(rd, c, file).documents;
            var t' := PromoteAll(t, scope, ds, now);
            Chained(t') && OldRows(t, t', scope, ds, now) && NewRows(t, t', scope, ds)
  {
    AcceptedIsWellFormed(rd, c, file);
    var ds := Validate(rd, c, file).documents;
    forall i, j | 0 <= i < j < |ds| ensures KeyOf(scope, ds[i]) != KeyOf(scope, ds[j]) {
      assert ds[i].Key() != ds[j].Key();
    }
    PromotionEffect(t, scope, ds, now);
  }

  /** Promoting a file again is never a no-op: there is no content check, so every document is
      superseded by its own copy. */
  lemma RepromotionSupersedesAll(t: DocumentTable, t1: DocumentTable, t2: DocumentTable, first: Scope, again: Scope,
                                 ds: seq<Document>, now: int, later: int, i: nat)
    requires Chained(t) && DistinctDocuments(first, ds) && i < |ds|
    requires again.entity == first.entity && again.docType == first.docType
    requires t1 == PromoteAll(t, first, ds, now) && t2 == PromoteAll(t1, again, ds, later)
    ensures |t1| == |t| + |ds| && |t2| == |t1| + |ds|
    ensures t2[|t| + i] == t1[|t| + i].(supersededAt := Some(later))
    ensures t2[|t1| + i].Live() && t2[|t1| + i].supersedes == Some(|t| + i)
    ensures t2[|t1| + i].payload.document == t2[|t| + i].payload.document
  {
    SameKeys(first, again, ds);
    PromotionEffect(t, first, ds, now);
    PromotionEffect(t1, again, ds, later);
    CopyReplaces(t, t1, t2, first, again, ds, later, i);
  }

  lemma OldRowIs(t: DocumentTable, t': DocumentTable, scope: Scope, ds: seq<Document>, now: int, i: nat)
    requires OldRows(t, t', scope, ds, now) && i < |t| && t[i].Live() && Names(scope, ds, t[i].key)
    ensures t'[i] == t[i].(supersededAt := Some(now))
  {
  }

  lemma CopyReplaces(t: DocumentTable, t1: DocumentTable, t2: DocumentTable, first: Scope, again: Scope, ds: seq<Document>, later: int, i: nat)
    requires Chained(t1) && NewRows(t, t1, first, ds) && i < |ds|
    requires OldRows(t1, t2, again, ds, later) && NewRows(t1, t2, again, ds)
    requires KeyOf(again, ds[i]) == KeyOf(first, ds[i])
    ensures t2[|t| + i] == t1[|t| + i].(supersededAt := Some(later))
    ensures t2[|t1| + i].Live() && t2[|t1| + i].supersedes == Some(|t| + i)
    ensures t2[|t1| + i].payload.document == t2[|t| + i].payload.document
  {
    NewRowIs(t, t1, first, ds, i);
    NewRowIs(t1, t2, again, ds, i);
    OnlyCurrent(t1, |t| + i);
    assert Names(again, ds, t1[|t| + i].key);
    OldRowIs(t1, t2, again, ds, later, |t| + i);
  }

  lemma SameKeys(first: Scope, again: Scope, ds: seq<Document>)
    requires again.entity == first.entity && again.docType == first.docType && DistinctDocuments(first, ds)
    ensures DistinctDocuments(again, ds) && forall j :: 0 <= j < |ds| ==> KeyOf(again, ds[j]) == KeyOf(first, ds[j])
  {
    assert forall j :: 0 <= j < |ds| ==> KeyOf(again, ds[j]) == KeyOf(first, ds[j]);
  }

  datatype Promotion = Promotion(scope: Scope, documents: seq<Document>, now: int)

  function RunPromotions(ps: seq<Promotion>): DocumentTable {
    if ps == [] then []
    else
      var p := ps[|ps| - 1];
      PromoteAll(RunPromotions(ps[..|ps| - 1]), p.scope, p.documents, p.now)
  }

  /** Under any run of promotions there is one live document per coalesced key, at the end of
      an unbranched chain of the documents it replaced. */
  lemma {:induction false} EveryRunIsChained(ps: seq<Promotion>)
    ensures Chained(RunPromotions(ps))
    ensures forall i, j :: 0 <= i < j < |RunPromotions(ps)| && RunPromotions(ps)[i].Live() && RunPromotions(ps)[j].Live()
                           ==> RunPromotions(ps)[i].key != RunPromotions(ps)[j].key
  {
    if ps != [] {
      var p := ps[|ps| - 1];
      EveryRunIsChained(ps[..|ps| - 1]);
      PromotionKeepsChained(RunPromotions(ps[..|ps| - 1]), p.scope, p.documents, p.now);
    }
    OneLivePerKey(RunPromotions(ps));
  }
}
