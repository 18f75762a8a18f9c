/** Supersession chains: a new row closes the live row of its key and points back to it
    (src/silver/supersede.py close_current and record_or_supersede in
    src/silver/entity_master.py; the document loop of src/silver/promote.py). */
module Chains {
  import opened Prelude

  // A row's id is its position in the table: ids are never reused.

  datatype Row<+K, +P> = Row(key: K, payload: P, supersedes: Option<nat>, supersededAt: Option<int>)
  {
    predicate Live() { supersededAt.None? }
  }

  /** SELECT id WHERE key AND superseded_at IS NULL. */
  function CurrentOf<K(==), P>(records: seq<Row<K, P>>, key: K): (r: Option<nat>)
    ensures r.Some? ==> r.value < |records| && records[r.value].key == key && records[r.value].Live()
    ensures r.None? <==> forall rec :: rec in records && rec.key == key ==> !rec.Live()
  {
    if records == [] then None
    else if records[|records| - 1].key == key && records[|records| - 1].Live() then Some(|records| - 1)
    else CurrentOf(records[..|records| - 1], key)
  }

  function CloseRecord<K, P>(records: seq<Row<K, P>>, prior: Option<nat>, now: int): seq<Row<K, P>>
    requires prior.Some? ==> prior.value < |records|
  {
    if prior.Some? then records[prior.value := records[prior.value].(supersededAt := Some(now))] else records
  }

  /** Close the live row of the key, if there is one, and append its successor. */
  function Supersede<K(==), P>(records: seq<Row<K, P>>, key: K, payload: P, now: int): seq<Row<K, P>> {
    var prior := CurrentOf(records, key);
    CloseRecord(records, prior, now) + [Row(key, payload, prior, None)]
  }

  // ---------------------------------------------------------------------------
  // The invariant
  // ---------------------------------------------------------------------------

  /** The last row of a key, live or not. */
  function LastOf<K(==), P>(records: seq<Row<K, P>>, key: K): (r: Option<nat>)
    ensures r.Some? ==> r.value < |records| && records[r.value].key == key
    ensures r.Some? ==> forall i :: r.value < i < |records| ==> records[i].key != key
    ensures r.None? ==> forall i :: 0 <= i < |records| ==> records[i].key != key
  {
    if records == [] then None
    else if records[|records| - 1].key == key then Some(|records| - 1)
    else LastOf(records[..|records| - 1], key)
  }

  ghost predicate Linked<K(!new), P(!new)>(records: seq<Row<K, P>>, i: nat)
    requires i < |records|
  {
    && records[i].supersedes == LastOf(records[..i], records[i].key)
    && (records[i].Live() <==> LastOf(records, records[i].key) == Some(i))
  }

  /** Each row supersedes the row of its key before it, and is live while it is the last. */
  ghost predicate Chained<K(!new), P(!new)>(records: seq<Row<K, P>>) {
    forall i :: 0 <= i < |records| ==> Linked(records, i)
  }

  /** LastOf looks at keys only. */
  lemma {:induction false} LastOfSameKeys<K(!new), P(!new)>(a: seq<Row<K, P>>, b: seq<Row<K, P>>, key: K)
    requires |a| == |b| && forall i :: 0 <= i < |a| ==> a[i].key == b[i].key
    ensures LastOf(a, key) == LastOf(b, key)
  {
    if a != [] {
      LastOfSameKeys(a[..|a| - 1], b[..|b| - 1], key);
    }
  }

  lemma CurrentIsLast<K(!new), P(!new)>(records: seq<Row<K, P>>, key: K)
    requires Chained(records)
    ensures CurrentOf(records, key) == LastOf(records, key)
  {
    assert CurrentOf(records, key).Some? ==> Linked(records, CurrentOf(records, key).value);
    match LastOf(records, key)
    case Some(i) => assert Linked(records, i) && records[i] in records;
    case None => assert forall rec :: rec in records ==> rec.key != key;
  }

  /** Closing the last row of a key and appending its successor keeps every link. */
  lemma AppendKeepsLinks<K(!new), P(!new)>(records: seq<Row<K, P>>, closed: seq<Row<K, P>>, r: Row<K, P>, now: int, i: nat)
    requires Chained(records) && |closed| == |records| && i <= |records|
    requires closed == CloseRecord(records, LastOf(records, r.key), now)
    requires r.supersedes == LastOf(records, r.key) && r.Live()
    ensures Linked(closed + [r], i)
  {
    var records' := closed + [r];
    var n := |records|;
    assert records'[..n] == closed;
    if i < n {
      assert Linked(records, i);
      assert records'[..i] == closed[..i];
      LastOfSameKeys(closed[..i], records[..i], records[i].key);
      LastOfSameKeys(closed, records, records[i].key);
      assert LastOf(records', records[i].key)
             == if records[i].key == r.key then Some(n) else LastOf(closed, records[i].key);
    } else {
      LastOfSameKeys(closed, records, r.key);
    }
  }

  lemma SupersedeKeepsChained<K(!new), P(!new)>(records: seq<Row<K, P>>, key: K, payload: P, now: int)
    requires Chained(records)
    ensures Chained(Supersede(records, key, payload, now))
  {
    CurrentIsLast(records, key);
    var prior := CurrentOf(records, key);
    var closed := CloseRecord(records, prior, now);
    var r := Row(key, payload, prior, None);
    forall i | 0 <= i <= |records|
      ensures Linked(closed + [r], i)
    {
      AppendKeepsLinks(records, closed, r, now, i);
    }
  }

  // ---------------------------------------------------------------------------
  // What the invariant means
  // ---------------------------------------------------------------------------

  ghost predicate PointsBack<K(!new), P(!new)>(records: seq<Row<K, P>>) {
    forall j :: 0 <= j < |records| && records[j].supersedes.Some? ==> records[j].supersedes.value < j
  }

  /** The records reached from `i` by following supersedes links. */
  ghost function Lineage<K(!new), P(!new)>(records: seq<Row<K, P>>, i: nat): (path: seq<nat>)
    requires i < |records| && PointsBack(records)
    decreases i
  {
    match records[i].supersedes
    case None => [i]
    case Some(j) => [i] + Lineage(records, j)
  }

  lemma LinksPointBack<K(!new), P(!new)>(records: seq<Row<K, P>>)
    requires Chained(records)
    ensures PointsBack(records)
  {
    forall j | 0 <= j < |records| && records[j].supersedes.Some?
      ensures records[j].supersedes.value < j
    {
      assert Linked(records, j);
    }
  }

  /** No two records supersede the same one. */
  lemma ChainsDoNotBranch<K(!new), P(!new)>(records: seq<Row<K, P>>)
    requires Chained(records)
    ensures forall i, j :: 0 <= i < j < |records| && records[i].supersedes.Some? ==>
              records[i].supersedes != records[j].supersedes
  {
    forall i, j | 0 <= i < j < |records| && records[i].supersedes.Some?
      ensures records[i].supersedes != records[j].supersedes
    {
      assert Linked(records, i) && Linked(records, j);
      var p := LastOf(records[..i], records[i].key).value;
      assert records[..i][p].key == records[i].key;
      if records[j].supersedes.Some? {
        var q := LastOf(records[..j], records[j].key).value;
        assert records[..j][q].key == records[j].key;
        assert records[..j][i] == records[i];
      }
    }
  }

  /** From any row of a key the links lead through every earlier row of that key, latest first,
      and nowhere else. */
  lemma LineageIsComplete<K(!new), P(!new)>(records: seq<Row<K, P>>, i: nat, key: K)
    requires Chained(records) && i < |records| && records[i].key == key
    ensures PointsBack(records)
    ensures var path := Lineage(records, i);
            && path[0] == i
            && (forall j :: j in path <==> 0 <= j <= i && records[j].key == key)
            && (forall a, b :: 0 <= a < b < |path| ==> path[a] > path[b])
    decreases i
  {
    LinksPointBack(records);
    assert Linked(records, i);
    match records[i].supersedes
    case None =>
      assert LastOf(records[..i], key).None?;
      assert forall j :: 0 <= j < i ==> records[..i][j] == records[j] && records[j].key != key;
    case Some(p) =>
      assert LastOf(records[..i], key) == Some(p);
      assert records[..i][p].key == key;
      assert forall j :: p < j < i ==> records[..i][j] == records[j] && records[j].key != key;
      LineageIsComplete(records, p, key);
      var rest := Lineage(records, p);
      assert forall a :: 0 <= a < |rest| ==> rest[a] in rest;
  }

  lemma OneLivePerKey<K(!new), P(!new)>(records: seq<Row<K, P>>)
    requires Chained(records)
    ensures forall i, j :: 0 <= i < j < |records| && records[i].Live() && records[j].Live() ==>
              records[i].key != records[j].key
  {
    forall i, j | 0 <= i < j < |records| && records[i].Live() && records[j].Live()
      ensures records[i].key != records[j].key
    {
      assert Linked(records, i) && Linked(records, j);
    }
  }

  lemma OnlyCurrent<K(!new), P(!new)>(records: seq<Row<K, P>>, i: nat)
    requires Chained(records) && i < |records| && records[i].Live()
    ensures CurrentOf(records, records[i].key) == Some(i)
  {
    OneLivePerKey(records);
    assert records[i] in records;
  }

  /** Rows of other keys do not matter to what is current. */
  lemma SameCurrent<K(!new), P(!new)>(a: seq<Row<K, P>>, b: seq<Row<K, P>>, key: K)
    requires Chained(b) && |a| <= |b|
    requires forall i :: 0 <= i < |a| && a[i].key == key ==> b[i] == a[i]
    requires forall i :: 0 <= i < |b| && b[i].key == key ==> i < |a| && a[i].key == key
    ensures CurrentOf(b, key) == CurrentOf(a, key)
  {
    match CurrentOf(a, key)
    case Some(i) => OnlyCurrent(b, i);
    case None =>
      forall i | 0 <= i < |b| && b[i].key == key ensures !b[i].Live() {
        assert b[i] == a[i] && a[i] in a;
      }
  }
}
