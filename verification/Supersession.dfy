/** Entity master records and their fact rows (src/silver/entity_master.py,
    src/silver/supersede.py, src/silver/entity_master_fact.py and TableFactExtractor in
    src/extraction/entity_master_types.py). */
module Supersession {
  import opened Prelude
  import opened Chains

  // `record_or_supersede` and the write hook it runs are one transaction.

  datatype MasterKey = MasterKey(entity: nat, masterType: string, reference: string)

  datatype Master = Master(asOf: int, batch: nat, ingest: nat)

  type Record = Row<MasterKey, Master>

  datatype FactRow<F> = FactRow(table: string, record: nat, entity: nat, fact: F, supersededAt: Option<int>)
  {
    predicate Live() { supersededAt.None? }
  }

  /** One snapshot of a master record, and the rows of its table if its type has one. */
  datatype Snapshot<F> = Snapshot(key: MasterKey, asOf: int, batch: nat, ingest: nat, rows: seq<F>)

  /** The fact table of each type; None for the header-only types. */
  type FactTables = string -> Option<string>

  datatype Silver<F> = Silver(records: seq<Record>, facts: seq<FactRow<F>>)

  // ---------------------------------------------------------------------------
  // The statements
  // ---------------------------------------------------------------------------

  /** UPDATE table SET superseded_at WHERE record_id = prior AND superseded_at IS NULL. */
  function CloseFacts<F>(facts: seq<FactRow<F>>, table: string, prior: nat, now: int): (out: seq<FactRow<F>>)
    ensures |out| == |facts|
    ensures forall i :: 0 <= i < |facts| ==>
              out[i] == if facts[i].table == table && facts[i].record == prior && facts[i].Live()
                        then facts[i].(supersededAt := Some(now)) else facts[i]
  {
    seq(|facts|, i requires 0 <= i < |facts| =>
      if facts[i].table == table && facts[i].record == prior && facts[i].Live()
      then facts[i].(supersededAt := Some(now)) else facts[i])
  }

  function NewFacts<F>(table: string, record: nat, entity: nat, rows: seq<F>): (out: seq<FactRow<F>>)
    ensures |out| == |rows|
    ensures forall i :: 0 <= i < |rows| ==> out[i] == FactRow(table, record, entity, rows[i], None)
  {
    seq(|rows|, i requires 0 <= i < |rows| => FactRow(table, record, entity, rows[i], None))
  }

  function RecordOrSupersede<F>(tables: FactTables, s: Silver<F>, snap: Snapshot<F>, now: int): Silver<F> {
    var prior := CurrentOf(s.records, snap.key);
    var id := |s.records|;
    var records := Supersede(s.records, snap.key, Master(snap.asOf, snap.batch, snap.ingest), now);
    match tables(snap.key.masterType)
    case None => Silver(records, s.facts)
    case Some(table) =>
      var kept := if prior.Some? then CloseFacts(s.facts, table, prior.value, now) else s.facts;
      Silver(records, kept + NewFacts(table, id, snap.key.entity, snap.rows))
  }

  class EntityMasterService<F(0)> {
    const tables: FactTables
    var records: seq<Record>
    var facts: seq<FactRow<F>>

    constructor (tables: FactTables)
      ensures this.tables == tables && Contents() == Silver([], [])
    {
      this.tables := tables;
      records, facts := [], [];
    }

    ghost function Contents(): Silver<F>
      reads this
    {
      Silver(records, facts)
    }

    /** Close the current row for the key and return its id, or None. */
    method CloseCurrent(key: MasterKey, now: int) returns (prior: Option<nat>)
      modifies this`records
      ensures prior == CurrentOf(old(records), key)
      ensures records == CloseRecord(old(records), prior, now)
    {
      prior := CurrentOf(records, key);
      if prior.Some? {
        records := records[prior.value := records[prior.value].(supersededAt := Some(now))];
      }
    }

    method RecordFactRows(table: string, record: nat, entity: nat, rows: seq<F>)
      modifies this`facts
      ensures facts == old(facts) + NewFacts(table, record, entity, rows)
    {
      for i := 0 to |rows|
        invariant facts == old(facts) + NewFacts(table, record, entity, rows)[..i]
      {
        facts := facts + [FactRow(table, record, entity, rows[i], None)];
      }
      assert NewFacts(table, record, entity, rows)[..|rows|] == NewFacts(table, record, entity, rows);
    }

    method RecordOrSupersedeSnapshot(snap: Snapshot<F>, now: int) returns (id: nat)
      modifies this
      ensures Contents() == RecordOrSupersede(tables, old(Contents()), snap, now)
      ensures id == |old(records)|
    {
      id := |records|;
      var prior := CloseCurrent(snap.key, now);
      records := records + [Row(snap.key, Master(snap.asOf, snap.batch, snap.ingest), prior, None)];
      var table := tables(snap.key.masterType);
      if table.Some? {
        if prior.Some? {
          facts := CloseFacts(facts, table.value, prior.value, now);
        }
        RecordFactRows(table.value, id, snap.key.entity, snap.rows);
      }
    }
  }

  // ---------------------------------------------------------------------------
  // The invariant
  // ---------------------------------------------------------------------------

  ghost predicate Follows<F(!new)>(tables: FactTables, records: seq<Record>, f: FactRow<F>) {
    && f.record < |records|
    && tables(records[f.record].key.masterType) == Some(f.table)
    && (f.Live() <==> records[f.record].Live())
  }

  ghost predicate FactsFollow<F(!new)>(tables: FactTables, s: Silver<F>) {
    forall i :: 0 <= i < |s.facts| ==> Follows(tables, s.records, s.facts[i])
  }

  ghost predicate Inv<F(!new)>(tables: FactTables, s: Silver<F>) {
    Chained(s.records) && FactsFollow(tables, s)
  }

  lemma StepKeepsFacts<F(!new)>(tables: FactTables, s: Silver<F>, snap: Snapshot<F>, now: int)
    requires FactsFollow(tables, s)
    ensures FactsFollow(tables, RecordOrSupersede(tables, s, snap, now))
  {
    var s' := RecordOrSupersede(tables, s, snap, now);
    var prior := CurrentOf(s.records, snap.key);
    forall i | 0 <= i < |s'.facts|
      ensures Follows(tables, s'.records, s'.facts[i])
    {
      if i < |s.facts| {
        assert Follows(tables, s.records, s.facts[i]);
      }
    }
  }

  lemma StepKeepsInv<F(!new)>(tables: FactTables, s: Silver<F>, snap: Snapshot<F>, now: int)
    requires Inv(tables, s)
    ensures Inv(tables, RecordOrSupersede(tables, s, snap, now))
  {
    SupersedeKeepsChained(s.records, snap.key, Master(snap.asOf, snap.batch, snap.ingest), now);
    StepKeepsFacts(tables, s, snap, now);
  }

  function RecordAll<F>(tables: FactTables, s: Silver<F>, snaps: seq<(Snapshot<F>, int)>): Silver<F> {
    if snaps == [] then s
    else
      var last := snaps[|snaps| - 1];
      RecordOrSupersede(tables, RecordAll(tables, s, snaps[..|snaps| - 1]), last.0, last.1)
  }

  /** Under any run of record_or_supersede: the links form a chain per key with the live row
      at its end, and a fact row is live exactly while its record is. */
  lemma {:induction false} EveryRunKeepsInv<F(!new)>(tables: FactTables, snaps: seq<(Snapshot<F>, int)>)
    ensures Inv(tables, RecordAll(tables, Silver([], []), snaps))
  {
    if snaps != [] {
      EveryRunKeepsInv(tables, snaps[..|snaps| - 1]);
      var last := snaps[|snaps| - 1];
      StepKeepsInv(tables, RecordAll(tables, Silver([], []), snaps[..|snaps| - 1]), last.0, last.1);
    }
  }

  // ---------------------------------------------------------------------------
  // What the invariant means
  // ---------------------------------------------------------------------------

  /** The facts currently true of a key. */
  function CurrentFacts<F>(records: seq<Record>, facts: seq<FactRow<F>>, key: MasterKey): seq<F> {
    if facts == [] then []
    else
      var f := facts[|facts| - 1];
      CurrentFacts(records, facts[..|facts| - 1], key)
      + if f.Live() && f.record < |records| && records[f.record].key == key then [f.fact] else []
  }

  /** A new snapshot replaces the whole of its key's current facts by its own rows, and the
      current facts of every other key stay what they were. */
  lemma SnapshotReplacesFacts<F(!new)>(tables: FactTables, s: Silver<F>, snap: Snapshot<F>, now: int, key: MasterKey)
    requires Inv(tables, s) && tables(snap.key.masterType).Some?
    ensures var s' := RecordOrSupersede(tables, s, snap, now);
            CurrentFacts(s'.records, s'.facts, key)
            == if key == snap.key then snap.rows else CurrentFacts(s.records, s.facts, key)
  {
    var s' := RecordOrSupersede(tables, s, snap, now);
    var table := tables(snap.key.masterType).value;
    var prior := CurrentOf(s.records, snap.key);
    var kept := if prior.Some? then CloseFacts(s.facts, table, prior.value, now) else s.facts;
    var added := NewFacts(table, |s.records|, snap.key.entity, snap.rows);
    CurrentIsLast(s.records, snap.key);
    forall i | 0 <= i < |kept| && s.records[kept[i].record].key == snap.key
      ensures !kept[i].Live()
    {
      assert Follows(tables, s.records, s.facts[i]);
      assert Linked(s.records, s.facts[i].record);
    }
    assert forall i :: 0 <= i < |kept| && s.records[kept[i].record].key == key && key != snap.key ==> kept[i] == s.facts[i];
    KeptFacts(s.records, s'.records, s.facts, kept, key, snap.key);
    AppendedFacts(s'.records, kept, added, key);
    AddedFacts(s'.records, table, |s.records|, snap.key.entity, snap.rows, key);
  }

  lemma {:induction false} KeptFacts<F(!new)>(records: seq<Record>, records': seq<Record>, facts: seq<FactRow<F>>,
                                              kept: seq<FactRow<F>>, key: MasterKey, closing: MasterKey)
    requires |facts| == |kept| && |records| <= |records'|
    requires forall i :: 0 <= i < |records| ==> records'[i].key == records[i].key
    requires forall i :: 0 <= i < |facts| ==> facts[i].record == kept[i].record < |records|
    requires forall i :: 0 <= i < |kept| ==>
               if records[kept[i].record].key == closing then !kept[i].Live()
               else records[kept[i].record].key == key ==> kept[i] == facts[i]
    ensures CurrentFacts(records', kept, key) == if key == closing then [] else CurrentFacts(records, facts, key)
  {
    if facts != [] {
      var n := |facts| - 1;
      KeptFacts(records, records', facts[..n], kept[..n], key, closing);
    }
  }

  lemma {:induction false} AppendedFacts<F(!new)>(records: seq<Record>, a: seq<FactRow<F>>, b: seq<FactRow<F>>, key: MasterKey)
    ensures CurrentFacts(records, a + b, key) == CurrentFacts(records, a, key) + CurrentFacts(records, b, key)
  {
    if b == [] {
      assert a + b == a;
    } else {
      AppendedFacts(records, a, b[..|b| - 1], key);
      assert (a + b)[..|a + b| - 1] == a + b[..|b| - 1];
    }
  }

  lemma {:induction false} AddedFacts<F(!new)>(records: seq<Record>, table: string, record: nat, entity: nat, rows: seq<F>, key: MasterKey)
    requires record < |records|
    ensures CurrentFacts(records, NewFacts(table, record, entity, rows), key)
            == if records[record].key == key then rows else []
  {
    if rows != [] {
      var n := |rows| - 1;
      AddedFacts(records, table, record, entity, rows[..n], key);
      assert NewFacts(table, record, entity, rows)[..n] == NewFacts(table, record, entity, rows[..n]);
      assert rows == rows[..n] + [rows[n]];
    }
  }
}
