/** Any number of `receive` calls, interleaved step by step and dying at any point. */
module BronzeProtocol {
  import opened Prelude
  import opened Bronze

  /** Where one call stands. */
  datatype Call =
    | Looking(req: Request)
    | Scanning(req: Request)
    | Putting(req: Request)
    | Inserting(req: Request, ingestId: nat, location: Location)
    | Rereading(req: Request)
    | Returned(receipt: Receipt)
    | Refused(reason: Refusal)
    | AssertionFailed

  datatype Handed = Handed(data: Bytes, receipt: Receipt)

  datatype State = State(tables: Tables, calls: map<nat, Call>, cleared: set<Bytes>, receipts: seq<Handed>)

  datatype Step =
    | Arrive(p: nat, req: Request)
    | Lookup(p: nat)
    | Scan(p: nat, clean: bool)
    | Put(p: nat)
    | Insert(p: nat)
    | Reread(p: nat)
    | Die(p: nat)

  const START := State(Tables([], map[], 0), map[], {}, [])

  predicate Enabled(s: State, step: Step) {
    match step
    case Arrive(p, req) => p !in s.calls
    case Lookup(p) => p in s.calls && s.calls[p].Looking?
    case Scan(p, clean) => p in s.calls && s.calls[p].Scanning?
    case Put(p) => p in s.calls && s.calls[p].Putting?
    case Insert(p) => p in s.calls && s.calls[p].Inserting?
    case Reread(p) => p in s.calls && s.calls[p].Rereading?
    case Die(p) => p in s.calls
  }

  function Return(s: State, p: nat, data: Bytes, receipt: Receipt): State {
    s.(calls := s.calls[p := Returned(receipt)], receipts := s.receipts + [Handed(data, receipt)])
  }

  function Apply(c: Config, s: State, step: Step): State
    requires Enabled(s, step)
  {
    match step
    case Arrive(p, req) =>
      var gate := Gate(c, req);
      s.(calls := s.calls[p := if gate.Some? then Refused(gate.value) else Looking(req)])
    case Lookup(p) =>
      var req := s.calls[p].req;
      var row := FindByHash(s.tables.ledger, c.sha(req.data));
      if row.Some? then Return(s, p, req.data, ReceiptFor(row.value, true))
      else s.(calls := s.calls[p := Scanning(req)])
    case Scan(p, clean) =>
      var req := s.calls[p].req;
      if clean then s.(calls := s.calls[p := Putting(req)], cleared := s.cleared + {req.data})
      else s.(calls := s.calls[p := Refused(VirusScan)])
    case Put(p) =>
      var req := s.calls[p].req;
      s.(tables := PutObject(c, s.tables, req),
         calls := s.calls[p := Inserting(req, s.tables.nextId, Destination(c, s.tables, req))])
    case Insert(p) =>
      var me := s.calls[p];
      var row := NewRow(c, me.req, me.ingestId, me.location);
      var inserted := InsertRow(s.tables, row);
      if inserted.None? then s.(calls := s.calls[p := Rereading(me.req)])
      else Return(s.(tables := inserted.value), p, me.req.data, ReceiptFor(row, false))
    case Reread(p) =>
      var req := s.calls[p].req;
      var row := FindByHash(s.tables.ledger, c.sha(req.data));
      if row.Some? then Return(s, p, req.data, ReceiptFor(row.value, true))
      else s.(calls := s.calls[p := AssertionFailed])
    case Die(p) => s.(calls := s.calls - {p})
  }

  predicate IsRun(c: Config, s: State, steps: seq<Step>)
    decreases steps
  {
    steps == [] || (Enabled(s, steps[0]) && IsRun(c, Apply(c, s, steps[0]), steps[1..]))
  }

  function After(c: Config, s: State, steps: seq<Step>): State
    requires IsRun(c, s, steps)
    decreases steps
  {
    if steps == [] then s else After(c, Apply(c, s, steps[0]), steps[1..])
  }

  // ---------------------------------------------------------------------------
  // The invariant
  // ---------------------------------------------------------------------------

  ghost predicate CallInv(c: Config, s: State, call: Call) {
    match call
    case Looking(req) => PassesFileCheck(c, req)
    case Scanning(req) => PassesFileCheck(c, req)
    case Putting(req) => PassesFileCheck(c, req) && req.data in s.cleared
    case Inserting(req, ingestId, location) =>
      && ingestId < s.tables.nextId
      && location.bucket == c.bucket
      && location in s.tables.store && s.tables.store[location] == req.data
      && (forall row :: row in s.tables.ledger ==> row.ingestId != ingestId)
    case Rereading(req) => FindByHash(s.tables.ledger, c.sha(req.data)).Some?
    case Returned(_) => true
    case Refused(_) => true
    case AssertionFailed => false
  }

  /** The ids drawn by calls that have not inserted yet are all different. */
  ghost predicate CallsInv(c: Config, s: State) {
    && (forall p :: p in s.calls ==> CallInv(c, s, s.calls[p]))
    && (forall p, q :: p in s.calls && q in s.calls && p != q && s.calls[p].Inserting? && s.calls[q].Inserting? ==>
          s.calls[p].ingestId != s.calls[q].ingestId)
  }

  ghost predicate Backed(c: Config, t: Tables, h: Handed) {
    && h.receipt.hash == c.sha(h.data)
    && exists row :: row in t.ledger && ReceiptFor(row, h.receipt.deduplicated) == h.receipt
  }

  ghost predicate ReceiptsInv(c: Config, s: State) {
    && (forall h :: h in s.receipts ==> Backed(c, s.tables, h))
    && (forall i, j :: 0 <= i < j < |s.receipts| ==>
          s.receipts[i].receipt.deduplicated || s.receipts[j].receipt.deduplicated
          || s.receipts[i].receipt.hash != s.receipts[j].receipt.hash)
  }

  ghost predicate Inv(c: Config, s: State) {
    && TablesInv(c, s.tables, s.cleared)
    && CallsInv(c, s)
    && ReceiptsInv(c, s)
  }

  lemma MoreTablesSameReceipts(c: Config, s: State, t: Tables)
    requires ReceiptsInv(c, s) && Extends(s.tables, t)
    ensures ReceiptsInv(c, s.(tables := t))
  {
    forall h | h in s.receipts
      ensures Backed(c, t, h)
    {
      var row :| row in s.tables.ledger && ReceiptFor(row, h.receipt.deduplicated) == h.receipt;
      assert row in t.ledger;
    }
  }

  lemma HandOut(c: Config, s: State, p: nat, data: Bytes, row: LedgerRow, deduplicated: bool)
    requires Inv(c, s) && row in s.tables.ledger && row.hash == c.sha(data)
    requires !deduplicated ==> forall h :: h in s.receipts ==> h.receipt.hash != row.hash
    ensures Inv(c, Return(s, p, data, ReceiptFor(row, deduplicated)))
  {
    var s' := Return(s, p, data, ReceiptFor(row, deduplicated));
    var n := |s.receipts|;
    assert Backed(c, s'.tables, s'.receipts[n]);
    assert forall i :: 0 <= i < n ==> s'.receipts[i] == s.receipts[i] && s.receipts[i] in s.receipts;
    assert forall q :: q in s.calls ==> CallInv(c, s, s.calls[q]);
  }

  lemma PutStep(c: Config, s: State, p: nat)
    requires Inv(c, s) && Enabled(s, Put(p))
    ensures Inv(c, Apply(c, s, Put(p)))
  {
    var req := s.calls[p].req;
    assert CallInv(c, s, s.calls[p]);
    PutKeepsInv(c, s.tables, req, s.cleared);
    MoreTablesSameReceipts(c, s, PutObject(c, s.tables, req));
    var s' := Apply(c, s, Put(p));
    assert forall q :: q in s.calls ==> CallInv(c, s, s.calls[q]);
    assert forall q :: q in s.calls && q != p ==> CallInv(c, s', s.calls[q]);
  }

  lemma CallsSurviveInsert(c: Config, s: State, p: nat, row: LedgerRow)
    requires Inv(c, s) && Enabled(s, Insert(p)) && InsertRow(s.tables, row).Some?
    requires row == NewRow(c, s.calls[p].req, s.calls[p].ingestId, s.calls[p].location)
    ensures var s1 := s.(tables := InsertRow(s.tables, row).value, calls := s.calls - {p});
            forall q :: q in s1.calls ==> CallInv(c, s1, s1.calls[q])
  {
    var s1 := s.(tables := InsertRow(s.tables, row).value, calls := s.calls - {p});
    forall q | q in s1.calls
      ensures CallInv(c, s1, s1.calls[q])
    {
      assert CallInv(c, s, s.calls[q]);
      if s.calls[q].Rereading? {
        var held := FindByHash(s.tables.ledger, c.sha(s.calls[q].req.data)).value;
        assert held in s1.tables.ledger;
      }
    }
  }

  lemma InsertStep(c: Config, s: State, p: nat)
    requires Inv(c, s) && Enabled(s, Insert(p))
    ensures Inv(c, Apply(c, s, Insert(p)))
  {
    var me := s.calls[p];
    assert CallInv(c, s, me);
    var row := NewRow(c, me.req, me.ingestId, me.location);
    var inserted := InsertRow(s.tables, row);
    if inserted.None? {
      assert forall q :: q in s.calls ==> CallInv(c, s, s.calls[q]);
    } else {
      InsertKeepsInv(c, s.tables, me.req, me.ingestId, me.location, s.cleared);
      MoreTablesSameReceipts(c, s, inserted.value);
      // the inserting call keeps its pc until HandOut replaces it
      var s1 := s.(tables := inserted.value, calls := s.calls - {p});
      CallsSurviveInsert(c, s, p, row);
      forall h | h in s.receipts
        ensures h.receipt.hash != row.hash
      {
        assert Backed(c, s.tables, h);
      }
      assert row in s1.tables.ledger;
      HandOut(c, s1, p, me.req.data, row, false);
      assert s1.calls[p := Returned(ReceiptFor(row, false))] == s.calls[p := Returned(ReceiptFor(row, false))];
    }
  }

  lemma StepKeepsInv(c: Config, s: State, step: Step)
    requires Inv(c, s) && Enabled(s, step)
    ensures Inv(c, Apply(c, s, step))
  {
    match step
    case Put(p) => PutStep(c, s, p);
    case Insert(p) => InsertStep(c, s, p);
    case Lookup(p) =>
      var req := s.calls[p].req;
      var row := FindByHash(s.tables.ledger, c.sha(req.data));
      if row.Some? {
        HandOut(c, s, p, req.data, row.value, true);
      } else {
        assert forall q :: q in s.calls ==> CallInv(c, s, s.calls[q]);
      }
    case Reread(p) =>
      var req := s.calls[p].req;
      assert CallInv(c, s, s.calls[p]);
      HandOut(c, s, p, req.data, FindByHash(s.tables.ledger, c.sha(req.data)).value, true);
    case _ =>
      assert forall q :: q in s.calls ==> CallInv(c, s, s.calls[q]);
  }

  lemma StepOnlyAdds(c: Config, s: State, step: Step)
    requires Inv(c, s) && Enabled(s, step)
    ensures Extends(s.tables, Apply(c, s, step).tables)
    ensures s.receipts <= Apply(c, s, step).receipts
  {
    match step
    case Put(p) =>
      assert CallInv(c, s, s.calls[p]);
      PutKeepsInv(c, s.tables, s.calls[p].req, s.cleared);
    case _ =>
  }

  lemma {:induction false} RunKeepsInv(c: Config, s: State, steps: seq<Step>)
    requires Inv(c, s) && IsRun(c, s, steps)
    ensures Inv(c, After(c, s, steps))
    ensures Extends(s.tables, After(c, s, steps).tables) && s.receipts <= After(c, s, steps).receipts
    decreases steps
  {
    if steps != [] {
      StepKeepsInv(c, s, steps[0]);
      StepOnlyAdds(c, s, steps[0]);
      RunKeepsInv(c, Apply(c, s, steps[0]), steps[1..]);
      ExtendsTransitive(s.tables, Apply(c, s, steps[0]).tables, After(c, s, steps).tables);
    }
  }

  // ---------------------------------------------------------------------------
  // What follows for callers
  // ---------------------------------------------------------------------------

  /** In every reachable state each ledger row names a stored object whose bytes have that
      hash and size, no two rows share a hash, every object (orphans included) holds bytes
      that passed the size gate and some scan, and no re-read has found nothing. */
  lemma BronzeIsSafe(c: Config, steps: seq<Step>)
    requires IsRun(c, START, steps)
    ensures var s := After(c, START, steps);
            && (forall row :: row in s.tables.ledger ==>
                  && row.location in s.tables.store
                  && c.sha(s.tables.store[row.location]) == row.hash
                  && |s.tables.store[row.location]| == row.size)
            && (forall i, j :: 0 <= i < j < |s.tables.ledger| ==> s.tables.ledger[i].hash != s.tables.ledger[j].hash)
            && (forall l :: l in s.tables.store ==>
                  s.tables.store[l] in s.cleared && 0 < |s.tables.store[l]| <= c.maxBytes)
            && (forall p :: p in s.calls ==> s.calls[p] != AssertionFailed)
  {
    RunKeepsInv(c, START, steps);
    var s := After(c, START, steps);
    assert forall p :: p in s.calls ==> CallInv(c, s, s.calls[p]);
  }

  /** Indexed at one time, indexed and stored for ever: whatever happens later, the row and
      the object are both still there, unchanged. */
  lemma EvidenceIsKept(c: Config, steps: seq<Step>, more: seq<Step>)
    requires IsRun(c, START, steps) && IsRun(c, After(c, START, steps), more)
    ensures Extends(After(c, START, steps).tables, After(c, After(c, START, steps), more).tables)
  {
    RunKeepsInv(c, START, steps);
    RunKeepsInv(c, After(c, START, steps), more);
  }

  lemma OneRowPerHash(c: Config, t: Tables, cleared: set<Bytes>, a: LedgerRow, b: LedgerRow)
    requires TablesInv(c, t, cleared) && a in t.ledger && b in t.ledger
    ensures a == b <==> a.hash == b.hash
    ensures a == b <==> a.ingestId == b.ingestId
  {
    var i :| 0 <= i < |t.ledger| && t.ledger[i] == a;
    var j :| 0 <= j < |t.ledger| && t.ledger[j] == b;
  }

  /** Two receipts carry the same identity exactly when their bytes have the same hash, and
      of all receipts for one hash at most one claims to be the first. */
  lemma OneIdentityPerContent(c: Config, steps: seq<Step>, i: nat, j: nat)
    requires IsRun(c, START, steps) && i < j < |After(c, START, steps).receipts|
    ensures var a, b := After(c, START, steps).receipts[i], After(c, START, steps).receipts[j];
            && (c.sha(a.data) == c.sha(b.data) <==> a.receipt.ingestId == b.receipt.ingestId)
            && (c.sha(a.data) == c.sha(b.data) ==>
                  && a.receipt.(deduplicated := true) == b.receipt.(deduplicated := true)
                  && (a.receipt.deduplicated || b.receipt.deduplicated))
  {
    RunKeepsInv(c, START, steps);
    var s := After(c, START, steps);
    var a, b := s.receipts[i], s.receipts[j];
    assert Backed(c, s.tables, a) && Backed(c, s.tables, b);
    var ra :| ra in s.tables.ledger && ReceiptFor(ra, a.receipt.deduplicated) == a.receipt;
    var rb :| rb in s.tables.ledger && ReceiptFor(rb, b.receipt.deduplicated) == b.receipt;
    OneRowPerHash(c, s.tables, s.cleared, ra, rb);
  }

  /** Fetching by a receipt's id, at any later time, gives back the received bytes. */
  lemma FetchReturnsWhatWasReceived(c: Config, steps: seq<Step>, h: Handed)
    requires IsRun(c, START, steps) && h in After(c, START, steps).receipts
    requires forall x, y :: c.sha(x) == c.sha(y) ==> x == y
    ensures Fetch(c, After(c, START, steps).tables, h.receipt.ingestId) == Ok(h.data)
  {
    RunKeepsInv(c, START, steps);
    var s := After(c, START, steps);
    assert Backed(c, s.tables, h);
    var row :| row in s.tables.ledger && ReceiptFor(row, h.receipt.deduplicated) == h.receipt;
    var found := FindById(s.tables.ledger, h.receipt.ingestId).value;
    OneRowPerHash(c, s.tables, s.cleared, row, found);
  }
}
