/** The batch queue that a polling consumer reads (src/reader/silver_reader.py). */
module Queue {

  // Silver publishes batches; Gold holds what the consumer has done with them: one execution
  // row per (batch, version tuple), the facts of each execution, and one watermark per
  // (consumer, document type).  The two public operations are the poll and the recording of
  // an execution; both are single transactions, so each is one atomic step here.
  //
  // Times are integers.  Identifiers drawn with uuid4 are natural numbers.

  const EPOCH := 0

  type BatchId = nat

  datatype Versions = Versions(ruleCatalog: string, corpus: string, tenantPack: string)

  datatype Batch = Batch(id: BatchId, docType: string, ready: bool, readyAt: int, rowCount: nat)

  /** What a caller hands in for one fact. */
  datatype Fact = Fact(invoice: nat, ruleId: string, factType: string, severity: string,
                       detail: string, bronzeIngest: nat)

  /** A row of fact_record.  The table has no column for the tenant-pack version. */
  datatype FactRow = FactRow(batch: BatchId, fact: Fact, ruleCatalog: string, corpus: string)

  datatype ExecutionKey = ExecutionKey(batch: BatchId, versions: Versions)

  datatype Cursor = Cursor(consumer: string, docType: string)

  datatype Watermark = Watermark(lastReadyAt: int, lastBatch: BatchId)

  datatype Gold = Gold(executions: map<ExecutionKey, nat>, facts: seq<FactRow>, watermarks: map<Cursor, Watermark>)

  const EMPTY_GOLD := Gold(map[], [], map[])

  function WatermarkOf(gold: Gold, cursor: Cursor): int {
    if cursor in gold.watermarks then gold.watermarks[cursor].lastReadyAt else EPOCH
  }

  predicate Executed(gold: Gold, b: Batch, v: Versions) {
    ExecutionKey(b.id, v) in gold.executions
  }

  /** The WHERE clause of the poll. */
  predicate Eligible(gold: Gold, cursor: Cursor, v: Versions, overlap: int, b: Batch) {
    && b.ready
    && b.docType == cursor.docType
    && b.readyAt > WatermarkOf(gold, cursor) - overlap
    && !Executed(gold, b, v)
  }

  // ---------------------------------------------------------------------------
  // The poll
  // ---------------------------------------------------------------------------

  ghost predicate SortedByReadyAt(bs: seq<Batch>) {
    forall i, j :: 0 <= i < j < |bs| ==> bs[i].readyAt <= bs[j].readyAt
  }

  ghost predicate Distinct(bs: seq<Batch>) {
    forall i, j :: 0 <= i < j < |bs| ==> bs[i] != bs[j]
  }

  /** What any correct answer to the poll is, whatever order the database gives to ties:
      eligible rows only, oldest first, and nothing left out that is older than a row kept. */
  ghost predicate PollResult(batches: seq<Batch>, gold: Gold, cursor: Cursor, v: Versions,
                             overlap: int, limit: nat, out: seq<Batch>) {
    && |out| <= limit
    && SortedByReadyAt(out)
    && Distinct(out)
    && (forall b :: b in out ==> b in batches && Eligible(gold, cursor, v, overlap, b))
    && (forall b :: b in batches && Eligible(gold, cursor, v, overlap, b) && b !in out ==>
          |out| == limit && forall x :: x in out ==> x.readyAt <= b.readyAt)
  }

  function SelectEligible(batches: seq<Batch>, gold: Gold, cursor: Cursor, v: Versions, overlap: int): (out: seq<Batch>)
    ensures forall b :: b in out <==> b in batches && Eligible(gold, cursor, v, overlap, b)
  {
    if batches == [] then []
    else
      var rest := SelectEligible(batches[1..], gold, cursor, v, overlap);
      if Eligible(gold, cursor, v, overlap, batches[0]) then [batches[0]] + rest else rest
  }

  lemma {:induction false} SelectKeepsDistinct(batches: seq<Batch>, gold: Gold, cursor: Cursor, v: Versions, overlap: int)
    requires Distinct(batches)
    ensures Distinct(SelectEligible(batches, gold, cursor, v, overlap))
  {
    if batches != [] {
      TailDistinct(batches);
      SelectKeepsDistinct(batches[1..], gold, cursor, v, overlap);
      ConsDistinct(batches[0], SelectEligible(batches[1..], gold, cursor, v, overlap));
    }
  }

  function InsertByReadyAt(b: Batch, bs: seq<Batch>): (out: seq<Batch>)
    requires SortedByReadyAt(bs)
    ensures SortedByReadyAt(out) && |out| == |bs| + 1
    ensures forall x :: x in out <==> x == b || x in bs
  {
    if bs == [] || b.readyAt <= bs[0].readyAt then [b] + bs
    else
      var rest := InsertByReadyAt(b, bs[1..]);
      assert forall x :: x in rest ==> bs[0].readyAt <= x.readyAt;
      [bs[0]] + rest
  }

  lemma ConsDistinct(b: Batch, bs: seq<Batch>)
    requires Distinct(bs) && b !in bs
    ensures Distinct([b] + bs)
  {
    var out := [b] + bs;
    assert forall i :: 1 <= i < |out| ==> out[i] == bs[i - 1] && out[i] in bs;
  }

  lemma TailDistinct(bs: seq<Batch>)
    requires Distinct(bs) && bs != []
    ensures Distinct(bs[1..]) && bs[0] !in bs[1..]
  {
  }

  lemma {:induction false} InsertKeepsDistinct(b: Batch, bs: seq<Batch>)
    requires SortedByReadyAt(bs) && Distinct(bs) && b !in bs
    ensures Distinct(InsertByReadyAt(b, bs))
  {
    if bs == [] || b.readyAt <= bs[0].readyAt {
      ConsDistinct(b, bs);
    } else {
      TailDistinct(bs);
      InsertKeepsDistinct(b, bs[1..]);
      ConsDistinct(bs[0], InsertByReadyAt(b, bs[1..]));
    }
  }

  function OrderByReadyAt(bs: seq<Batch>): (out: seq<Batch>)
    ensures SortedByReadyAt(out) && |out| == |bs|
    ensures forall x :: x in out <==> x in bs
  {
    if bs == [] then [] else InsertByReadyAt(bs[0], OrderByReadyAt(bs[1..]))
  }

  lemma {:induction false} OrderKeepsDistinct(bs: seq<Batch>)
    requires Distinct(bs)
    ensures Distinct(OrderByReadyAt(bs))
  {
    if bs != [] {
      TailDistinct(bs);
      OrderKeepsDistinct(bs[1..]);
      InsertKeepsDistinct(bs[0], OrderByReadyAt(bs[1..]));
    }
  }

  /** The first rows of a sorted list are distinct, sorted, and no older row is left out. */
  lemma OldestKept(rows: seq<Batch>, limit: nat)
    requires SortedByReadyAt(rows) && Distinct(rows)
    ensures var out := if |rows| <= limit then rows else rows[..limit];
            && |out| <= limit && SortedByReadyAt(out) && Distinct(out)
            && (forall b :: b in out ==> b in rows)
            && (forall b :: b in rows && b !in out ==> |out| == limit && forall x :: x in out ==> x.readyAt <= b.readyAt)
  {
    if |rows| > limit {
      var out := rows[..limit];
      forall b | b in rows && b !in out
        ensures forall x :: x in out ==> x.readyAt <= b.readyAt
      {
        assert rows == out + rows[limit..];
        var k :| 0 <= k < |rows[limit..]| && rows[limit..][k] == b;
      }
    }
  }

  // ---------------------------------------------------------------------------
  // Recording an execution
  // ---------------------------------------------------------------------------

  function FactRows(b: Batch, v: Versions, facts: seq<Fact>): (rows: seq<FactRow>)
    ensures |rows| == |facts|
    ensures forall i :: 0 <= i < |facts| ==> rows[i] == FactRow(b.id, facts[i], v.ruleCatalog, v.corpus)
  {
    seq(|facts|, i requires 0 <= i < |facts| => FactRow(b.id, facts[i], v.ruleCatalog, v.corpus))
  }

  function Max(x: int, y: int): int { if x < y then y else x }

  function Advance(gold: Gold, cursor: Cursor, b: Batch): Watermark {
    if cursor in gold.watermarks
    then Watermark(Max(gold.watermarks[cursor].lastReadyAt, b.readyAt), b.id)
    else Watermark(b.readyAt, b.id)
  }

  /** One committed call of record_execution, as a function of the Gold schema. */
  function Record(gold: Gold, consumer: string, b: Batch, v: Versions, facts: seq<Fact>): (r: (Gold, bool)) {
    if Executed(gold, b, v) then (gold, false)
    else
      var cursor := Cursor(consumer, b.docType);
      (Gold(gold.executions[ExecutionKey(b.id, v) := b.rowCount],
            gold.facts + FactRows(b, v, facts),
            gold.watermarks[cursor := Advance(gold, cursor, b)]), true)
  }

  // ---------------------------------------------------------------------------
  // The reader
  // ---------------------------------------------------------------------------

  class SilverReader {
    const consumer: string
    var batches: seq<Batch>  // the visible rows of v1_ingest_batch
    var executions: map<ExecutionKey, nat>
    var facts: seq<FactRow>
    var watermarks: map<Cursor, Watermark>

    constructor (consumer: string, batches: seq<Batch>)
      ensures this.consumer == consumer && this.batches == batches && GoldSchema() == EMPTY_GOLD
    {
      this.consumer := consumer;
      this.batches := batches;
      executions, facts, watermarks := map[], [], map[];
    }

    ghost function GoldSchema(): Gold
      reads this
    {
      Gold(executions, facts, watermarks)
    }

    method PendingBatches(v: Versions, docType: string, limit: nat, overlap: int) returns (out: seq<Batch>)
      requires Distinct(batches)
      ensures PollResult(batches, GoldSchema(), Cursor(consumer, docType), v, overlap, limit, out)
    {
      var cursor := Cursor(consumer, docType);
      var eligible := SelectEligible(batches, Gold(executions, facts, watermarks), cursor, v, overlap);
      var rows := OrderByReadyAt(eligible);
      SelectKeepsDistinct(batches, Gold(executions, facts, watermarks), cursor, v, overlap);
      OrderKeepsDistinct(eligible);
      out := if |rows| <= limit then rows else rows[..limit];
      OldestKept(rows, limit);
    }

    /** False when the execution was already there; then nothing is written. */
    method RecordExecution(b: Batch, v: Versions, newFacts: seq<Fact>) returns (won: bool)
      modifies this
      ensures (GoldSchema(), won) == Record(old(GoldSchema()), consumer, b, v, newFacts)
      ensures batches == old(batches)
    {
      var key := ExecutionKey(b.id, v);
      if key in executions {
        return false;
      }
      executions := executions[key := b.rowCount];

      for i := 0 to |newFacts|
        invariant facts == old(facts) + FactRows(b, v, newFacts)[..i]
        invariant executions == old(executions)[key := b.rowCount]
        invariant watermarks == old(watermarks) && batches == old(batches)
      {
        facts := facts + [FactRow(b.id, newFacts[i], v.ruleCatalog, v.corpus)];
      }

      assert FactRows(b, v, newFacts)[..|newFacts|] == FactRows(b, v, newFacts);

      var cursor := Cursor(consumer, b.docType);
      if cursor in watermarks {
        watermarks := watermarks[cursor := Watermark(Max(watermarks[cursor].lastReadyAt, b.readyAt), b.id)];
      } else {
        watermarks := watermarks[cursor := Watermark(b.readyAt, b.id)];
      }
      won := true;
    }
  }
}
