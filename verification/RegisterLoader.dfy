/** Loading one parsed register (RegisterLoader in src/silver/registers/loader.py). */
module RegisterLoader {
  import opened Prelude
  import opened Hashing
  import opened RegisterParser
  import opened Bitemporal

  // One load is one transaction.  The column values of a row, its envelope included, are the
  // payload of a bitemporal version; its key is what the table's partial unique index covers.

  /** What a load is scoped to; none of it is taken from the file. */
  datatype Scope = Scope(entity: int, gstin: string, periodStart: int, periodEnd: int, docType: string,
                         batch: nat, ingest: nat)

  /** The calendar facts the loader needs of a date. */
  type FyOf = int -> string

  type Key = seq<Option<Value>>

  datatype Stored = Stored(scope: Scope, period: Value, values: Values)

  type RegisterTable = Table<Key, Stored>

  /** The key columns exist, and the content hash is among them exactly when it is the identity. */
  ghost predicate KeyFits(spec: RegisterSpec) {
    && WellFormed(spec)
    && (forall k :: k in spec.keyColumns && k !in {"entity_id", "gstin", spec.periodColumn, "row_hash"} ==>
          FindColumn(spec.columns, k).Some?)
    && ("row_hash" in spec.keyColumns <==> spec.keyKind.Content?)
  }

  /** None when an annual register's period straddles two financial years. */
  function PeriodValue(spec: RegisterSpec, fyOf: FyOf, scope: Scope): Option<Value> {
    if spec.periodColumn == "tax_period" then Some(Date(scope.periodStart))
    else if fyOf(scope.periodEnd) != fyOf(scope.periodStart) then None
    else Some(Text(fyOf(scope.periodStart)))
  }

  function KeyPart(spec: RegisterSpec, scope: Scope, period: Value, row: RegisterRow, name: string): Option<Value> {
    if name == "entity_id" then Some(Integer(scope.entity))
    else if name == "gstin" then Some(Text(scope.gstin))
    else if name == spec.periodColumn then Some(period)
    else if name == "row_hash" then Some(Text(row.rowHash))
    else if name in row.values then row.values[name]
    else None
  }

  function KeyOf(spec: RegisterSpec, scope: Scope, period: Value, row: RegisterRow): (key: Key)
    ensures |key| == |spec.keyColumns|
    ensures forall i :: 0 <= i < |key| ==> key[i] == KeyPart(spec, scope, period, row, spec.keyColumns[i])
  {
    seq(|spec.keyColumns|, i requires 0 <= i < |spec.keyColumns| => KeyPart(spec, scope, period, row, spec.keyColumns[i]))
  }

  function ValidFrom(spec: RegisterSpec, scope: Scope, row: RegisterRow): int {
    match spec.validFromColumn
    case None => scope.periodStart
    case Some(name) =>
      if name in row.values && row.values[name].Some? && row.values[name].value.Date?
      then row.values[name].value.day else scope.periodStart
  }

  function CandidateOf(spec: RegisterSpec, scope: Scope, period: Value, row: RegisterRow): Candidate<Key, Stored> {
    Candidate(KeyOf(spec, scope, period, row), row.rowHash, ValidFrom(spec, scope, row), Stored(scope, period, row.values))
  }

  function Candidates(spec: RegisterSpec, scope: Scope, period: Value, rows: seq<RegisterRow>): (cs: seq<Candidate<Key, Stored>>)
    ensures |cs| == |rows|
    ensures forall i :: 0 <= i < |rows| ==> cs[i] == CandidateOf(spec, scope, period, rows[i])
  {
    seq(|rows|, i requires 0 <= i < |rows| => CandidateOf(spec, scope, period, rows[i]))
  }

  /** The cast in _valid_from is safe: a declared date column of an accepted row holds a date. */
  lemma ValidFromIsTheColumn(rd: Readers, sha: Sha, spec: RegisterSpec, cells: Cells, line: nat, scope: Scope)
    requires WellFormed(spec) && spec.validFromColumn.Some?
    requires forall name :: name in cells ==> cells[name] != ""
    requires ParseRow(rd, sha, spec, cells, line).Ok?
    ensures var row := ParseRow(rd, sha, spec, cells, line).value;
            && spec.validFromColumn.value in row.values
            && row.values[spec.validFromColumn.value] == Some(Date(ValidFrom(spec, scope, row)))
  {
    AcceptedRowIsTyped(rd, sha, spec, cells, line, FindColumn(spec.columns, spec.validFromColumn.value).value);
  }

  // ---------------------------------------------------------------------------
  // The lookup
  // ---------------------------------------------------------------------------

  /** A key column is compared with IS NOT DISTINCT FROM when it is a nullable business
      column and with `=`, which is never true of NULL, otherwise. */
  predicate Nullable(spec: RegisterSpec, name: string) {
    var c := FindColumn(spec.columns, name);
    c.Some? && !c.value.required
  }

  predicate SqlMatches(spec: RegisterSpec, stored: Key, wanted: Key)
    requires |stored| == |wanted| == |spec.keyColumns|
  {
    forall i :: 0 <= i < |wanted| ==>
      stored[i] == wanted[i] && (Nullable(spec, spec.keyColumns[i]) || wanted[i].Some?)
  }

  /** Only nullable business columns are NULL in a key. */
  ghost predicate FilledKey(spec: RegisterSpec, key: Key) {
    && |key| == |spec.keyColumns|
    && forall i :: 0 <= i < |key| && key[i].None? ==> Nullable(spec, spec.keyColumns[i])
  }

  ghost predicate RequiredFilled(spec: RegisterSpec, row: RegisterRow) {
    forall c :: c in spec.columns && c.required ==> c.name in row.values && row.values[c.name].Some?
  }

  lemma AcceptedRowIsFilled(rd: Readers, sha: Sha, spec: RegisterSpec, cells: Cells, line: nat)
    requires WellFormed(spec) && ParseRow(rd, sha, spec, cells, line).Ok?
    requires forall name :: name in cells ==> cells[name] != ""
    ensures RequiredFilled(spec, ParseRow(rd, sha, spec, cells, line).value)
  {
    forall c | c in spec.columns && c.required {
      AcceptedRowIsTyped(rd, sha, spec, cells, line, c);
    }
  }

  lemma FilledRowFilledKey(spec: RegisterSpec, scope: Scope, period: Value, row: RegisterRow)
    requires KeyFits(spec) && RequiredFilled(spec, row)
    ensures FilledKey(spec, KeyOf(spec, scope, period, row))
  {
    var key := KeyOf(spec, scope, period, row);
    forall i | 0 <= i < |key| && key[i].None?
      ensures Nullable(spec, spec.keyColumns[i])
    {
      assert spec.keyColumns[i] in spec.keyColumns;
      assert FindColumn(spec.columns, spec.keyColumns[i]).Some?;
    }
  }

  function LiveMatch(spec: RegisterSpec, t: RegisterTable, key: Key): (r: Option<nat>)
    requires |key| == |spec.keyColumns| && forall v :: v in t ==> |v.key| == |spec.keyColumns|
  {
    if t == [] then None
    else if SqlMatches(spec, t[|t| - 1].key, key) && t[|t| - 1].Live() then Some(|t| - 1)
    else LiveMatch(spec, t[..|t| - 1], key)
  }

  /** The mixed operators find the same row as comparing whole keys, NULL equal to NULL. */
  lemma {:induction false} LookupIsNullSafe(spec: RegisterSpec, t: RegisterTable, key: Key)
    requires FilledKey(spec, key) && forall v :: v in t ==> |v.key| == |spec.keyColumns|
    ensures LiveMatch(spec, t, key) == LiveIndex(t, key)
  {
    if t != [] {
      LookupIsNullSafe(spec, t[..|t| - 1], key);
      assert SqlMatches(spec, t[|t| - 1].key, key) <==> t[|t| - 1].key == key;
    }
  }

  // ---------------------------------------------------------------------------
  // The loader
  // ---------------------------------------------------------------------------

  datatype BatchRow = BatchRow(scope: Scope, rowCount: nat)

  datatype RejectedRow = RejectedRow(scope: Scope, rejection: Rejection)

  datatype RegisterOutcome = RegisterOutcome(inserted: nat, untouched: nat, superseded: nat, rejected: nat,
                                             rowCount: nat, collapsed: nat)

  datatype LoadError = WrongDocType | DocTypeRequired | PeriodStraddles | ValidationRejected(fatal: Fatal)

  datatype Upload = CsvUpload(csv: CsvFile) | NdjsonUpload(nd: NdFile)

  function ParseUpload(rd: Readers, sha: Sha, spec: RegisterSpec, upload: Upload): Result<Tally, Fatal> {
    match upload
    case CsvUpload(csv) => CsvResult(rd, sha, spec, csv)
    case NdjsonUpload(nd) => NdResult(rd, sha, spec, nd)
  }

  /** The registry code of a load: the only one there is, or the one the caller names. */
  function ResolveDocType(spec: RegisterSpec, docType: Option<string>): Result<string, LoadError> {
    match docType
    case None => if |spec.docTypeCodes| == 1 then Ok(spec.docTypeCodes[0]) else Err(DocTypeRequired)
    case Some(code) => if code in spec.docTypeCodes then Ok(code) else Err(WrongDocType)
  }

  function RejectedRows(scope: Scope, rejections: seq<Rejection>): (rows: seq<RejectedRow>)
    ensures |rows| == |rejections|
    ensures forall i :: 0 <= i < |rows| ==> rows[i] == RejectedRow(scope, rejections[i])
  {
    seq(|rejections|, i requires 0 <= i < |rejections| => RejectedRow(scope, rejections[i]))
  }

  class Loader {
    const rd: Readers
    const sha: Sha
    const spec: RegisterSpec
    const fyOf: FyOf
    var rows: RegisterTable
    var batches: seq<BatchRow>
    var rejected: seq<RejectedRow>
    var quarantined: map<nat, Fatal>

    constructor (rd: Readers, sha: Sha, spec: RegisterSpec, fyOf: FyOf)
      requires KeyFits(spec)
      ensures Valid()
      ensures this.rd == rd && this.sha == sha && this.spec == spec && this.fyOf == fyOf
      ensures rows == [] && batches == [] && rejected == [] && quarantined == map[]
    {
      this.rd, this.sha, this.spec, this.fyOf := rd, sha, spec, fyOf;
      rows, batches, rejected, quarantined := [], [], [], map[];
    }

    ghost predicate Valid()
      reads this
    {
      KeyFits(spec) && KeysAgree(rows, spec)
    }

    method Close(live: nat, newValidFrom: int, now: int)
      requires live < |rows|
      modifies this`rows
      ensures rows == old(rows)[live := Closed(old(rows)[live], newValidFrom, now)]
    {
      var v := rows[live];
      var validTo := if newValidFrom > v.validFrom then Some(newValidFrom) else v.validTo;
      rows := rows[live := v.(supersededAt := Some(now), validTo := validTo)];
    }

    method UpsertNatural(scope: Scope, period: Value, row: RegisterRow, now: int) returns (outcome: Outcome)
      requires Valid() && FilledKey(spec, KeyOf(spec, scope, period, row))
      modifies this`rows
      ensures Valid() && (rows, outcome) == Upsert(old(rows), CandidateOf(spec, scope, period, row), now)
    {
      var c := CandidateOf(spec, scope, period, row);
      UpsertKeepsKeysAgree(rows, spec, scope, period, row, now);
      LookupIsNullSafe(spec, rows, c.key);
      var live := LiveMatch(spec, rows, c.key);
      if live.None? {
        rows := rows + [Open(c)];
        return Inserted;
      }
      if rows[live.value].hash == c.hash {
        return Unchanged;
      }
      Close(live.value, c.validFrom, now);
      rows := rows + [Open(c)];
      outcome := Superseded;
    }

    /** ON CONFLICT DO NOTHING: no look at the hash, because the hash is in the key. */
    method UpsertContent(scope: Scope, period: Value, row: RegisterRow, ghost now: int) returns (outcome: Outcome)
      requires Valid() && spec.keyKind.Content?
      modifies this`rows
      ensures Valid() && (rows, outcome) == Upsert(old(rows), CandidateOf(spec, scope, period, row), now)
    {
      var c := CandidateOf(spec, scope, period, row);
      UpsertKeepsKeysAgree(rows, spec, scope, period, row, now);
      ContentHashIsTheKey(spec, scope, period, row, rows, now);
      if LiveIndex(rows, c.key).Some? {
        return Unchanged;
      }
      rows := rows + [Open(c)];
      outcome := Inserted;
    }

    method UpsertRow(scope: Scope, period: Value, row: RegisterRow, now: int) returns (outcome: Outcome)
      requires Valid() && FilledKey(spec, KeyOf(spec, scope, period, row))
      modifies this`rows
      ensures Valid() && (rows, outcome) == Upsert(old(rows), CandidateOf(spec, scope, period, row), now)
    {
      if spec.keyKind.Natural? {
        outcome := UpsertNatural(scope, period, row, now);
      } else {
        outcome := UpsertContent(scope, period, row, now);
      }
    }

    method UpsertRows(scope: Scope, period: Value, parsed: seq<RegisterRow>, now: int) returns (counts: Counts)
      requires Valid() && forall row :: row in parsed ==> FilledKey(spec, KeyOf(spec, scope, period, row))
      modifies this`rows
      ensures Valid() && (rows, counts) == UpsertAll(old(rows), Candidates(spec, scope, period, parsed), now)
    {
      ghost var cs := Candidates(spec, scope, period, parsed);
      counts := Counts(0, 0, 0);
      for i := 0 to |parsed|
        invariant Valid()
        invariant (rows, counts) == UpsertAll(old(rows), cs[..i], now)
      {
        UpsertAllNext(old(rows), cs, i, now);
        var outcome := UpsertRow(scope, period, parsed[i], now);
        counts := counts.Add(outcome);
      }
      assert cs[..|parsed|] == cs;
    }

    method RecordRejections(scope: Scope, rejections: seq<Rejection>)
      modifies this`rejected
      ensures rejected == old(rejected) + RejectedRows(scope, rejections)
    {
      for i := 0 to |rejections|
        invariant rejected == old(rejected) + RejectedRows(scope, rejections)[..i]
      {
        rejected := rejected + [RejectedRow(scope, rejections[i])];
      }
      assert RejectedRows(scope, rejections)[..|rejections|] == RejectedRows(scope, rejections);
    }

    /** One artefact.  On success the table is the candidates upserted in file order and the
        batch and every rejection are recorded with it; on failure no table of data changes. */
    method Load(request: Scope, docType: Option<string>, upload: Upload, now: int) returns (r: Result<RegisterOutcome, LoadError>)
      requires Valid()
      modifies this
      ensures Valid()
      ensures r.Ok? <==>
                && ResolveDocType(spec, docType).Ok?
                && PeriodValue(spec, fyOf, request).Some?
                && ParseUpload(rd, sha, spec, upload).Ok?
      ensures r.Ok? ==>
                var scope := request.(docType := ResolveDocType(spec, docType).value);
                var t := ParseUpload(rd, sha, spec, upload).value;
                var cs := Candidates(spec, scope, PeriodValue(spec, fyOf, scope).value, t.rows);
                var (after, n) := UpsertAll(old(rows), cs, now);
                && rows == after
                && r.value == RegisterOutcome(n.inserted, n.untouched, n.superseded, |t.rejections|, |t.rows|, t.collapsed)
                && batches == old(batches) + [BatchRow(scope, |t.rows|)]
                && rejected == old(rejected) + RejectedRows(scope, t.rejections)
                && quarantined == old(quarantined)
      ensures r.Err? ==> rows == old(rows) && batches == old(batches) && rejected == old(rejected)
      ensures r.Err? ==> quarantined == if r.error.ValidationRejected?
                                        then old(quarantined)[request.ingest := r.error.fatal] else old(quarantined)
    {
      var code := ResolveDocType(spec, docType);
      if code.Err? {
        return Err(code.error);
      }
      var scope := request.(docType := code.value);
      var period := PeriodValue(spec, fyOf, scope);
      if period.None? {
        return Err(PeriodStraddles);
      }

      var parsed: Result<Tally, Fatal>;
      match upload {
        case CsvUpload(csv) => parsed := ParseRegisterCsv(rd, sha, spec, csv);
        case NdjsonUpload(nd) => parsed := ParseRegisterNdjson(rd, sha, spec, nd);
      }
      if parsed.Err? {
        quarantined := quarantined[scope.ingest := parsed.error];
        return Err(ValidationRejected(parsed.error));
      }
      var tally := parsed.value;

      batches := batches + [BatchRow(scope, |tally.rows|)];
      UploadKeysAreFilled(rd, sha, spec, scope, period.value, upload);
      var counts := UpsertRows(scope, period.value, tally.rows, now);
      if tally.rejections != [] {
        RecordRejections(scope, tally.rejections);
      }
      r := Ok(RegisterOutcome(counts.inserted, counts.untouched, counts.superseded,
                              |tally.rejections|, |tally.rows|, tally.collapsed));
    }
  }

  /** A stored row's hash is the one its content key names. */
  ghost predicate KeysAgree(t: RegisterTable, spec: RegisterSpec) {
    && (forall v :: v in t ==> |v.key| == |spec.keyColumns|)
    && (forall v, i :: v in t && 0 <= i < |spec.keyColumns| && spec.keyColumns[i] == "row_hash" ==>
          v.key[i] == Some(Text(v.hash)))
  }

  lemma UpsertKeepsKeysAgree(t: RegisterTable, spec: RegisterSpec, scope: Scope, period: Value, row: RegisterRow, now: int)
    requires KeyFits(spec) && KeysAgree(t, spec)
    ensures KeysAgree(Upsert(t, CandidateOf(spec, scope, period, row), now).0, spec)
  {
    var c := CandidateOf(spec, scope, period, row);
    var t' := Upsert(t, c, now).0;
    forall v | v in t'
      ensures v == Open(c) || exists u :: u in t && u.key == v.key && u.hash == v.hash
    {
      var i :| 0 <= i < |t'| && t'[i] == v;
      if i < |t| {
        assert t[i] in t && t[i].key == v.key && t[i].hash == v.hash;
      }
    }
  }

  /** For a content register, a live row with the key has the content, so the two upserts are one. */
  lemma ContentHashIsTheKey(spec: RegisterSpec, scope: Scope, period: Value, row: RegisterRow, t: RegisterTable, now: int)
    requires KeyFits(spec) && spec.keyKind.Content? && KeysAgree(t, spec)
    ensures var c := CandidateOf(spec, scope, period, row);
            Upsert(t, c, now) == if LiveIndex(t, c.key).Some? then (t, Unchanged) else (t + [Open(c)], Inserted)
  {
    var c := CandidateOf(spec, scope, period, row);
    var i :| 0 <= i < |spec.keyColumns| && spec.keyColumns[i] == "row_hash";
    assert c.key[i] == Some(Text(c.hash));
    match LiveIndex(t, c.key)
    case None =>
    case Some(p) => assert t[p] in t;
  }

  lemma UploadKeysAreFilled(rd: Readers, sha: Sha, spec: RegisterSpec, scope: Scope, period: Value, upload: Upload)
    requires KeyFits(spec) && ParseUpload(rd, sha, spec, upload).Ok?
    ensures forall row :: row in ParseUpload(rd, sha, spec, upload).value.rows ==> FilledKey(spec, KeyOf(spec, scope, period, row))
  {
    var recs := if upload.CsvUpload? then CsvRecords(spec, upload.csv.rows) else NdRecords(spec, upload.nd.lines);
    if upload.NdjsonUpload? {
      NdCellsAreNormalised(spec, upload.nd.lines);
    }
    var ps := ParseAll(rd, sha, spec, recs);
    var at := KeptAreFirstOccurrences(ps);
    var rows := FileAll(ps).rows;
    forall k | 0 <= k < |rows|
      ensures FilledKey(spec, KeyOf(spec, scope, period, rows[k]))
    {
      var rec := recs[at[k]];
      AcceptedRowIsFilled(rd, sha, spec, rec.cells, rec.line);
      FilledRowFilledKey(spec, scope, period, rows[k]);
    }
  }

  lemma {:induction false} NdCellsAreNormalised(spec: RegisterSpec, lines: seq<NdLine>)
    ensures forall rec :: rec in NdRecords(spec, lines) && rec.Row? ==> forall name :: name in rec.cells ==> rec.cells[name] != ""
  {
    if lines != [] {
      NdCellsAreNormalised(spec, lines[..|lines| - 1]);
    }
  }

  // ---------------------------------------------------------------------------
  // Re-export
  // ---------------------------------------------------------------------------

  ghost predicate DistinctKeys(spec: RegisterSpec, scope: Scope, period: Value, rows: seq<RegisterRow>) {
    forall i, j :: 0 <= i < j < |rows| ==> KeyOf(spec, scope, period, rows[i]) != KeyOf(spec, scope, period, rows[j])
  }

  /** Loading the same upload again for the same entity, GSTIN and period, under a batch and an
      artefact of its own and at any later time, reports everything unchanged and leaves the
      table as it is: always for a content register, and for a natural register exactly when no
      two of the retained rows share a natural key. */
  lemma ReexportIsIdempotent(rd: Readers, sha: Sha, spec: RegisterSpec, scope: Scope, again: Scope, period: Value,
                             upload: Upload, t: RegisterTable, now: int, later: int)
    requires KeyFits(spec) && Chained(t) && ParseUpload(rd, sha, spec, upload).Ok?
    requires again.entity == scope.entity && again.gstin == scope.gstin
    ensures var rows := ParseUpload(rd, sha, spec, upload).value.rows;
            var t1 := UpsertAll(t, Candidates(spec, scope, period, rows), now).0;
            UpsertAll(t1, Candidates(spec, again, period, rows), later) == (t1, Counts(0, |rows|, 0))
            <==> spec.keyKind.Content? || DistinctKeys(spec, scope, period, rows)
  {
    var rows := ParseUpload(rd, sha, spec, upload).value.rows;
    var cs, ds := Candidates(spec, scope, period, rows), Candidates(spec, again, period, rows);
    forall i | 0 <= i < |rows| ensures cs[i].key == ds[i].key {
      SameKey(spec, scope, again, period, rows[i]);
    }
    ReloadIsNoOp(t, cs, ds, now, later);
    var recs := if upload.CsvUpload? then CsvRecords(spec, upload.csv.rows) else NdRecords(spec, upload.nd.lines);
    KeptAreDistinct(ParseAll(rd, sha, spec, recs));
    ConsistentWhenDistinct(spec, scope, period, rows);
  }

  lemma SameKey(spec: RegisterSpec, scope: Scope, again: Scope, period: Value, row: RegisterRow)
    requires again.entity == scope.entity && again.gstin == scope.gstin
    ensures KeyOf(spec, scope, period, row) == KeyOf(spec, again, period, row)
  {
  }

  lemma ConsistentWhenDistinct(spec: RegisterSpec, scope: Scope, period: Value, rows: seq<RegisterRow>)
    requires KeyFits(spec)
    requires forall i, j :: 0 <= i < j < |rows| ==> rows[i].rowHash != rows[j].rowHash
    ensures Consistent(Candidates(spec, scope, period, rows)) <==> spec.keyKind.Content? || DistinctKeys(spec, scope, period, rows)
  {
    var cs := Candidates(spec, scope, period, rows);
    if spec.keyKind.Content? {
      var k :| 0 <= k < |spec.keyColumns| && spec.keyColumns[k] == "row_hash";
      assert forall i :: 0 <= i < |cs| ==> cs[i].key[k] == Some(Text(cs[i].hash));
    }
    if Consistent(cs) {
      forall i, j | 0 <= i < j < |rows|
        ensures KeyOf(spec, scope, period, rows[i]) != KeyOf(spec, scope, period, rows[j])
      {
        assert cs[i].hash != cs[j].hash;
      }
    }
  }
}
