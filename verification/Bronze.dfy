/** Bronze intake (src/bronze/service.py): file check, document-type check, hash, dedup,
    virus scan, PUT, INSERT, and the re-read after a lost race. */
module Bronze {
  import opened Prelude

  // Every database transaction and every call on the object store is one atomic step; between
  // two steps of one `receive` any number of others may run, or the process may die.  The
  // hash is a parameter.  A uuid4 is the next unused number.

  newtype Byte = x: int | 0 <= x < 256
  type Bytes = seq<Byte>

  datatype Key = Key(date: int, ingestId: nat, suffix: string)
  datatype Location = Location(bucket: string, key: Key)

  datatype LedgerRow = LedgerRow(ingestId: nat, entity: nat, docType: string, hash: string,
                                 location: Location, size: nat, filename: Option<string>)

  datatype Receipt = Receipt(ingestId: nat, hash: string, location: Location, size: nat, deduplicated: bool)

  datatype Request = Request(entity: nat, data: Bytes, docType: string, filename: Option<string>, receivedAt: int)

  /** One deployment: the hash, the tenant's bucket, and the two gates before the hash. */
  datatype Config = Config(sha: Bytes -> string, bucket: string, maxBytes: nat,
                           extensions: set<string>, inScope: set<string>)

  datatype Tables = Tables(ledger: seq<LedgerRow>, store: map<Location, Bytes>, nextId: nat)

  datatype Refusal = FileCheck | DocumentType | VirusScan

  // ---------------------------------------------------------------------------
  // The gates
  // ---------------------------------------------------------------------------

  function LastDot(s: string): (i: int)
    ensures -1 <= i < |s|
    ensures i >= 0 ==> s[i] == '.' && '.' !in s[i + 1..]
    ensures i < 0 ==> '.' !in s
  {
    if s == [] then -1
    else if s[|s| - 1] == '.' then |s| - 1
    else LastDot(s[..|s| - 1])
  }

  function ExtensionOf(filename: Option<string>): string {
    match filename
    case None => ""
    case Some(name) => if LastDot(name) < 0 then "" else Lower(name[LastDot(name) + 1..])
  }

  predicate PassesFileCheck(c: Config, req: Request) {
    && req.data != []
    && |req.data| <= c.maxBytes
    && ExtensionOf(req.filename) in c.extensions
  }

  function Gate(c: Config, req: Request): Option<Refusal> {
    if !PassesFileCheck(c, req) then Some(FileCheck)
    else if req.docType !in c.inScope then Some(DocumentType)
    else None
  }

  // ---------------------------------------------------------------------------
  // The atomic steps
  // ---------------------------------------------------------------------------

  function FindByHash(ledger: seq<LedgerRow>, hash: string): (r: Option<LedgerRow>)
    ensures r.Some? ==> r.value in ledger && r.value.hash == hash
    ensures r.None? <==> forall row :: row in ledger ==> row.hash != hash
  {
    if ledger == [] then None
    else if ledger[0].hash == hash then Some(ledger[0])
    else FindByHash(ledger[1..], hash)
  }

  function FindById(ledger: seq<LedgerRow>, ingestId: nat): (r: Option<LedgerRow>)
    ensures r.Some? ==> r.value in ledger && r.value.ingestId == ingestId
    ensures r.None? <==> forall row :: row in ledger ==> row.ingestId != ingestId
  {
    if ledger == [] then None
    else if ledger[0].ingestId == ingestId then Some(ledger[0])
    else FindById(ledger[1..], ingestId)
  }

  function ReceiptFor(row: LedgerRow, deduplicated: bool): Receipt {
    Receipt(row.ingestId, row.hash, row.location, row.size, deduplicated)
  }

  function Suffix(filename: Option<string>): string {
    match filename
    case None => "bin"
    case Some(name) => if LastDot(name) < 0 then "bin" else name[LastDot(name) + 1..]
  }

  function Destination(c: Config, t: Tables, req: Request): Location {
    Location(c.bucket, Key(req.receivedAt, t.nextId, Suffix(req.filename)))
  }

  /** PUT under a key made from a new ingest id. */
  function PutObject(c: Config, t: Tables, req: Request): Tables {
    t.(store := t.store[Destination(c, t, req) := req.data], nextId := t.nextId + 1)
  }

  function NewRow(c: Config, req: Request, ingestId: nat, location: Location): LedgerRow {
    LedgerRow(ingestId, req.entity, req.docType, c.sha(req.data), location, |req.data|, req.filename)
  }

  /** INSERT into the ledger; the unique index on content_hash refuses a second row. */
  function InsertRow(t: Tables, row: LedgerRow): Option<Tables> {
    if FindByHash(t.ledger, row.hash).Some? then None else Some(t.(ledger := t.ledger + [row]))
  }

  datatype FetchError = NoSuchArtefact | ForeignBucket | ObjectMissing

  function Fetch(c: Config, t: Tables, ingestId: nat): Result<Bytes, FetchError> {
    match FindById(t.ledger, ingestId)
    case None => Err(NoSuchArtefact)
    case Some(row) =>
      if row.location.bucket != c.bucket then Err(ForeignBucket)
      else if row.location !in t.store then Err(ObjectMissing)
      else Ok(t.store[row.location])
  }

  // ---------------------------------------------------------------------------
  // What the tables always satisfy
  // ---------------------------------------------------------------------------

  /** `cleared` is the set of byte strings some scan has called clean. */
  ghost predicate TablesInv(c: Config, t: Tables, cleared: set<Bytes>) {
    && (forall row :: row in t.ledger ==>
          && row.ingestId < t.nextId
          && row.location.bucket == c.bucket
          && row.location in t.store
          && row.hash == c.sha(t.store[row.location])
          && row.size == |t.store[row.location]|)
    && (forall i, j :: 0 <= i < j < |t.ledger| ==>
          t.ledger[i].hash != t.ledger[j].hash && t.ledger[i].ingestId != t.ledger[j].ingestId)
    && (forall l :: l in t.store ==>
          && l.key.ingestId < t.nextId
          && t.store[l] in cleared
          && 0 < |t.store[l]| <= c.maxBytes)
  }

  /** Rows and objects are only ever added. */
  ghost predicate Extends(t: Tables, t': Tables) {
    && t.ledger <= t'.ledger
    && t.nextId <= t'.nextId
    && (forall l :: l in t.store ==> l in t'.store && t'.store[l] == t.store[l])
  }

  lemma ExtendsTransitive(t0: Tables, t1: Tables, t2: Tables)
    requires Extends(t0, t1) && Extends(t1, t2)
    ensures Extends(t0, t2)
  {
  }

  lemma PutKeepsInv(c: Config, t: Tables, req: Request, cleared: set<Bytes>)
    requires TablesInv(c, t, cleared) && req.data in cleared && PassesFileCheck(c, req)
    ensures TablesInv(c, PutObject(c, t, req), cleared) && Extends(t, PutObject(c, t, req))
    ensures Destination(c, t, req) !in t.store
  {
  }

  lemma InsertKeepsInv(c: Config, t: Tables, req: Request, ingestId: nat, location: Location, cleared: set<Bytes>)
    requires TablesInv(c, t, cleared) && ingestId < t.nextId && location.bucket == c.bucket
    requires location in t.store && t.store[location] == req.data
    requires forall row :: row in t.ledger ==> row.ingestId != ingestId
    requires InsertRow(t, NewRow(c, req, ingestId, location)).Some?
    ensures var t' := InsertRow(t, NewRow(c, req, ingestId, location)).value;
            TablesInv(c, t', cleared) && Extends(t, t')
  {
    var row := NewRow(c, req, ingestId, location);
    var t' := InsertRow(t, row).value;
    var n := |t.ledger|;
    assert forall i :: 0 <= i < n ==> t'.ledger[i] == t.ledger[i] && t.ledger[i] in t.ledger;
    assert t'.ledger[n] == row;
  }

  // ---------------------------------------------------------------------------
  // The service, one call at a time, other calls interfering between its steps
  // ---------------------------------------------------------------------------

  class BronzeIngestionService {
    const c: Config
    var ledger: seq<LedgerRow>
    var store: map<Location, Bytes>
    var nextId: nat
    ghost var cleared: set<Bytes>

    constructor (c: Config)
      ensures this.c == c && Contents() == Tables([], map[], 0) && Valid()
    {
      this.c := c;
      ledger, store, nextId, cleared := [], map[], 0, {};
    }

    ghost function Contents(): Tables
      reads this
    {
      Tables(ledger, store, nextId)
    }

    ghost predicate Valid()
      reads this
    {
      TablesInv(c, Contents(), cleared)
    }

    /** Whatever other `receive` calls do between two steps of this one: they keep the tables
        valid, only add to them, and never use the ingest id this call has drawn. */
    method Interfere(ghost drawn: nat)
      requires Valid()
      modifies this
      ensures Valid() && Extends(old(Contents()), Contents()) && old(cleared) <= cleared
      ensures forall row :: row in ledger && row !in old(ledger) ==> row.ingestId != drawn
    {
    }

    method PutBronze(req: Request) returns (ingestId: nat, location: Location)
      requires Valid() && req.data in cleared && PassesFileCheck(c, req)
      modifies this
      ensures Valid() && Contents() == PutObject(c, old(Contents()), req) && cleared == old(cleared)
      ensures ingestId == old(nextId) && location == Destination(c, old(Contents()), req)
      ensures location !in old(store)
    {
      PutKeepsInv(c, Contents(), req, cleared);
      ingestId := nextId;
      location := Location(c.bucket, Key(req.receivedAt, ingestId, Suffix(req.filename)));
      store := store[location := req.data];
      nextId := nextId + 1;
    }

    method InsertLedger(req: Request, ingestId: nat, location: Location) returns (conflict: bool)
      requires Valid() && ingestId < nextId && location.bucket == c.bucket
      requires location in store && store[location] == req.data
      requires forall row :: row in ledger ==> row.ingestId != ingestId
      modifies this`ledger
      ensures Valid()
      ensures conflict <==> FindByHash(old(ledger), c.sha(req.data)).Some?
      ensures ledger == old(ledger) + if conflict then [] else [NewRow(c, req, ingestId, location)]
    {
      var row := NewRow(c, req, ingestId, location);
      conflict := FindByHash(ledger, row.hash).Some?;
      if !conflict {
        InsertKeepsInv(c, Contents(), req, ingestId, location, cleared);
        ledger := ledger + [row];
      }
    }

    /** `verdict` is the scanner's answer for these bytes, if it is asked.  With
        `deduplicated` false the row is this call's own; otherwise it is the one row that
        holds these bytes' hash, and the re-read after a conflict always finds it. */
    method Receive(req: Request, verdict: bool) returns (r: Result<Receipt, Refusal>)
      requires Valid()
      modifies this
      ensures Valid() && Extends(old(Contents()), Contents())
      ensures r.Ok? ==>
                && r.value.hash == c.sha(req.data)
                && exists row :: row in ledger && ReceiptFor(row, r.value.deduplicated) == r.value
      ensures r.Ok? && !r.value.deduplicated ==>
                && verdict
                && FindByHash(old(ledger), c.sha(req.data)).None?
                && r.value.location in store && store[r.value.location] == req.data
      ensures FindByHash(old(ledger), c.sha(req.data)).Some? && Gate(c, req).None? ==>
                r.Ok? && r.value.deduplicated
      ensures r.Err? <==>
                Gate(c, req).Some? || (!verdict && FindByHash(old(ledger), c.sha(req.data)).None?)
      ensures r.Err? ==> Contents() == old(Contents())
    {
      var gate := Gate(c, req);
      if gate.Some? {
        return Err(gate.value);
      }
      var hash := c.sha(req.data);
      var existing := FindByHash(ledger, hash);
      if existing.Some? {
        return Ok(ReceiptFor(existing.value, true));
      }
      if !verdict {
        return Err(VirusScan);
      }
      cleared := cleared + {req.data};
      ghost var t0 := Contents();
      Interfere(nextId);
      ghost var t1 := Contents();
      var ingestId, location := PutBronze(req);
      ghost var t2 := Contents();
      Interfere(ingestId);
      ghost var t3 := Contents();
      ExtendsTransitive(t0, t1, t2);
      ExtendsTransitive(t0, t2, t3);

      var conflict := InsertLedger(req, ingestId, location);
      ghost var t4 := Contents();
      ExtendsTransitive(t0, t3, t4);
      if conflict {
        ghost var holder := FindByHash(ledger, hash).value;
        Interfere(ingestId);
        ExtendsTransitive(t0, t4, Contents());
        assert holder in ledger;
        var winner := FindByHash(ledger, hash);
        return Ok(ReceiptFor(winner.value, true));
      }
      var row := NewRow(c, req, ingestId, location);
      assert row in ledger;
      r := Ok(ReceiptFor(row, false));
    }

    method FetchBytes(ingestId: nat) returns (r: Result<Bytes, FetchError>)
      requires Valid()
      ensures r == Fetch(c, Contents(), ingestId)
      ensures r.Ok? <==> exists row :: row in ledger && row.ingestId == ingestId
      ensures forall row :: row in ledger && row.ingestId == ingestId ==> r.Ok? && c.sha(r.value) == row.hash
    {
      var row := FindById(ledger, ingestId);
      if row.None? {
        return Err(NoSuchArtefact);
      }
      forall other | other in ledger && other.ingestId == ingestId
        ensures other == row.value
      {
        var i :| 0 <= i < |ledger| && ledger[i] == other;
        var j :| 0 <= j < |ledger| && ledger[j] == row.value;
      }
      r := Ok(store[row.value.location]);
    }
  }
}
