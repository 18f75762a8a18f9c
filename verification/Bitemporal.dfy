/** Row-level bitemporal upsert, the core shared by the register and sales loaders
    (src/silver/registers/loader.py, src/silver/sales_register.py). */
module Bitemporal {
  import opened Prelude

  // A table is the sequence of its rows in insertion order; rows are closed in place and never
  // removed.  `supersededAt` is transaction time, `validFrom`/`validTo` business time.

  datatype Version<+K, +P> = Version(key: K, hash: string, validFrom: int, validTo: Option<int>,
                                     supersededAt: Option<int>, payload: P)
  {
    predicate Live() { supersededAt.None? }

    predicate ValidAt(day: int) {
      validFrom <= day && (validTo.Some? ==> day < validTo.value)
    }
  }

  datatype Candidate<+K, +P> = Candidate(key: K, hash: string, validFrom: int, payload: P)

  datatype Outcome = Inserted | Superseded | Unchanged

  type Table<K, P> = seq<Version<K, P>>

  function Open<K, P>(c: Candidate<K, P>): Version<K, P> {
    Version(c.key, c.hash, c.validFrom, None, None, c.payload)
  }

  /** valid_to moves only when the replacement is valid from a later date. */
  function Closed<K, P>(v: Version<K, P>, newFrom: int, now: int): Version<K, P> {
    v.(supersededAt := Some(now), validTo := if newFrom > v.validFrom then Some(newFrom) else v.validTo)
  }

  /** The row `SELECT ... WHERE key AND superseded_at IS NULL` fetches. */
  function LiveIndex<K(==), P>(t: Table<K, P>, key: K): (r: Option<nat>)
    ensures r.Some? ==> r.value < |t| && t[r.value].key == key && t[r.value].Live()
    ensures r.None? <==> forall v :: v in t && v.key == key ==> !v.Live()
  {
    if t == [] then None
    else if t[|t| - 1].key == key && t[|t| - 1].Live() then Some(|t| - 1)
    else LiveIndex(t[..|t| - 1], key)
  }

  function Upsert<K(==), P>(t: Table<K, P>, c: Candidate<K, P>, now: int): (Table<K, P>, Outcome) {
    match LiveIndex(t, c.key)
    case None => (t + [Open(c)], Inserted)
    case Some(i) =>
      if t[i].hash == c.hash then (t, Unchanged)
      else (t[i := Closed(t[i], c.validFrom, now)] + [Open(c)], Superseded)
  }

  datatype Counts = Counts(inserted: nat, untouched: nat, superseded: nat)
  {
    function Add(o: Outcome): Counts {
      match o
      case Inserted => this.(inserted := inserted + 1)
      case Unchanged => this.(untouched := untouched + 1)
      case Superseded => this.(superseded := superseded + 1)
    }
  }

  /** A whole load: the candidates in order, in one transaction. */
  function UpsertAll<K(==), P>(t: Table<K, P>, cs: seq<Candidate<K, P>>, now: int): (Table<K, P>, Counts) {
    if cs == [] then (t, Counts(0, 0, 0))
    else
      var (t1, counts) := UpsertAll(t, cs[..|cs| - 1], now);
      var (t2, outcome) := Upsert(t1, cs[|cs| - 1], now);
      (t2, counts.Add(outcome))
  }

  lemma UpsertAllNext<K, P>(t: Table<K, P>, cs: seq<Candidate<K, P>>, i: nat, now: int)
    requires i < |cs|
    ensures UpsertAll(t, cs[..i + 1], now)
            == (Upsert(UpsertAll(t, cs[..i], now).0, cs[i], now).0,
                UpsertAll(t, cs[..i], now).1.Add(Upsert(UpsertAll(t, cs[..i], now).0, cs[i], now).1))
  {
    assert cs[..i + 1][..i] == cs[..i];
  }

  // ---------------------------------------------------------------------------
  // The invariant
  // ---------------------------------------------------------------------------

  ghost predicate IsLast<K(!new), P(!new)>(t: Table<K, P>, i: int) {
    0 <= i < |t| && forall j :: i < j < |t| ==> t[j].key != t[i].key
  }

  ghost predicate Next<K(!new), P(!new)>(t: Table<K, P>, i: int, j: int) {
    && 0 <= i < j < |t| && t[i].key == t[j].key
    && forall m :: i < m < j ==> t[m].key != t[i].key
  }

  function EndDate(validFrom: int, newFrom: int): Option<int> {
    if newFrom > validFrom then Some(newFrom) else None
  }

  /** A row is live exactly while it is the last of its key; a live row has no end date; a
      closed row ends where the row that replaced it begins, if that is later, and otherwise
      has no end date. */
  ghost predicate Chained<K(!new), P(!new)>(t: Table<K, P>) {
    && (forall i {:trigger IsLast(t, i)} :: 0 <= i < |t| ==> (t[i].Live() <==> IsLast(t, i)))
    && (forall i :: 0 <= i < |t| && t[i].Live() ==> t[i].validTo.None?)
    && (forall i, j :: Next(t, i, j) ==> t[i].validTo == EndDate(t[i].validFrom, t[j].validFrom))
  }

  /** What appending one row does to "last of its key" and "next of its key". */
  lemma AppendedKey<K(!new), P(!new)>(t: Table<K, P>, t': Table<K, P>, i: nat)
    requires |t'| == |t| + 1 && i < |t|
    requires forall m :: 0 <= m < |t| ==> t'[m].key == t[m].key
    ensures IsLast(t', i) <==> IsLast(t, i) && t[i].key != t'[|t|].key
    ensures Next(t', i, |t|) ==> IsLast(t, i)
    ensures forall j :: j < |t| ==> (Next(t', i, j) <==> Next(t, i, j))
  {
    if IsLast(t', i) {
      assert forall m :: i < m < |t| ==> t[m].key == t'[m].key;
    }
    if Next(t', i, |t|) {
      assert forall m :: i < m < |t| ==> t[m].key == t'[m].key;
    }
    forall j | j < |t|
      ensures Next(t', i, j) <==> Next(t, i, j)
    {
      if Next(t', i, j) {
        assert forall m :: i < m < j ==> t[m].key == t'[m].key;
      }
    }
  }

  lemma InsertKeepsChained<K(!new), P(!new)>(t: Table<K, P>, c: Candidate<K, P>)
    requires Chained(t) && LiveIndex(t, c.key).None?
    ensures Chained(t + [Open(c)])
  {
    var t', n := t + [Open(c)], |t|;
    forall i | 0 <= i < n
      ensures t[i].key != c.key && (IsLast(t', i) <==> IsLast(t, i))
      ensures forall j :: Next(t', i, j) <==> Next(t, i, j)
    {
      var last := LastVersion(t, i);
      assert t[last] in t;
      AppendedKey(t, t', i);
    }
    assert IsLast(t', n);
  }

  lemma ReplaceKeepsChained<K(!new), P(!new)>(t: Table<K, P>, c: Candidate<K, P>, p: nat, now: int)
    requires Chained(t) && p < |t| && t[p].key == c.key && t[p].Live()
    ensures Chained(t[p := Closed(t[p], c.validFrom, now)] + [Open(c)])
  {
    var t', n := t[p := Closed(t[p], c.validFrom, now)] + [Open(c)], |t|;
    assert IsLast(t, p) && IsLast(t', n);
    forall i | 0 <= i < n
      ensures IsLast(t', i) <==> t'[i].Live()
      ensures forall j :: Next(t', i, j) ==> t'[i].validTo == EndDate(t'[i].validFrom, t'[j].validFrom)
    {
      AppendedKey(t, t', i);
      assert IsLast(t, i) && t[i].key == c.key ==> i == p;
      assert Next(t, i, p) ==> t'[p].validFrom == t[p].validFrom;
      assert forall j :: !Next(t, p, j);
    }
  }

  lemma UpsertKeepsChained<K(!new), P(!new)>(t: Table<K, P>, c: Candidate<K, P>, now: int)
    requires Chained(t)
    ensures Chained(Upsert(t, c, now).0)
  {
    match LiveIndex(t, c.key)
    case None => InsertKeepsChained(t, c);
    case Some(p) => ReplaceKeepsChained(t, c, p, now);
  }

  /** Every key that occurs has a last version, and it is the live one. */
  lemma LastVersion<K(!new), P(!new)>(t: Table<K, P>, i: nat) returns (last: nat)
    requires Chained(t) && i < |t|
    ensures i <= last < |t| && t[last].key == t[i].key && t[last].Live()
    decreases |t| - i
  {
    if IsLast(t, i) {
      last := i;
    } else {
      var j :| i < j < |t| && t[j].key == t[i].key;
      last := LastVersion(t, j);
    }
  }

  lemma {:induction false} LoadKeepsChained<K(!new), P(!new)>(t: Table<K, P>, cs: seq<Candidate<K, P>>, now: int)
    requires Chained(t)
    ensures Chained(UpsertAll(t, cs, now).0)
  {
    if cs != [] {
      LoadKeepsChained(t, cs[..|cs| - 1], now);
      UpsertKeepsChained(UpsertAll(t, cs[..|cs| - 1], now).0, cs[|cs| - 1], now);
    }
  }

  /** What the invariant means for a reader: at most one live row per key, and every
      interval has positive length. */
  lemma ChainedMeansCurrent<K(!new), P(!new)>(t: Table<K, P>)
    requires Chained(t)
    ensures forall i, j :: 0 <= i < j < |t| && t[i].Live() && t[j].Live() ==> t[i].key != t[j].key
    ensures forall i :: 0 <= i < |t| && t[i].validTo.Some? ==> t[i].validFrom < t[i].validTo.value
  {
    assert forall i :: IsLast(t, i) ==> t[i].Live();
    forall i, j | 0 <= i < j < |t| && t[i].Live() && t[j].Live()
      ensures t[i].key != t[j].key
    {
      assert IsLast(t, i);
    }
    forall i | 0 <= i < |t| && !t[i].Live()
      ensures t[i].validTo.Some? ==> t[i].validFrom < t[i].validTo.value
    {
      var j := Successor(t, i);
    }
  }

  lemma NextExists<K(!new), P(!new)>(t: Table<K, P>, i: nat, k: nat) returns (j: nat)
    requires i < k < |t| && t[k].key == t[i].key
    ensures Next(t, i, j)
  {
    j := i + 1;
    while t[j].key != t[i].key
      invariant i < j <= k
      invariant forall m :: i < m < j ==> t[m].key != t[i].key
      decreases k - j
    {
      j := j + 1;
    }
  }

  lemma Successor<K(!new), P(!new)>(t: Table<K, P>, i: nat) returns (j: nat)
    requires Chained(t) && i < |t| && !t[i].Live()
    ensures Next(t, i, j)
  {
    assert !IsLast(t, i);
    var k :| i < k < |t| && t[k].key == t[i].key;
    j := NextExists(t, i, k);
  }

  /** Rows are never removed, a closed row never changes again, and a live row changes only
      by being closed. */
  ghost predicate Evolves<K(!new), P(!new)>(t: Table<K, P>, t': Table<K, P>) {
    && |t| <= |t'|
    && forall i :: 0 <= i < |t| ==>
         || t'[i] == t[i]
         || (t[i].Live() && !t'[i].Live()
             && t'[i] == t[i].(supersededAt := t'[i].supersededAt, validTo := t'[i].validTo))
  }

  lemma {:induction false} LoadEvolves<K(!new), P(!new)>(t: Table<K, P>, cs: seq<Candidate<K, P>>, now: int)
    ensures Evolves(t, UpsertAll(t, cs, now).0)
  {
    if cs != [] {
      LoadEvolves(t, cs[..|cs| - 1], now);
    }
  }

  datatype Load<+K, +P> = Load(candidates: seq<Candidate<K, P>>, now: int)

  /** Any sequence of loads into one table. */
  function LoadAll<K(==), P>(t: Table<K, P>, loads: seq<Load<K, P>>): Table<K, P> {
    if loads == [] then t
    else UpsertAll(LoadAll(t, loads[..|loads| - 1]), loads[|loads| - 1].candidates, loads[|loads| - 1].now).0
  }

  lemma {:induction false} EveryRunIsChained<K(!new), P(!new)>(loads: seq<Load<K, P>>)
    ensures Chained(LoadAll([], loads))
  {
    if loads == [] {
      var t: Table<K, P> := [];
      assert forall i :: !IsLast(t, i);
    } else {
      var last := loads[|loads| - 1];
      EveryRunIsChained(loads[..|loads| - 1]);
      LoadKeepsChained(LoadAll([], loads[..|loads| - 1]), last.candidates, last.now);
    }
  }

  lemma {:induction false} EveryRunEvolves<K(!new), P(!new)>(t: Table<K, P>, loads: seq<Load<K, P>>)
    ensures Evolves(t, LoadAll(t, loads))
  {
    if loads != [] {
      var last := loads[|loads| - 1];
      EveryRunEvolves(t, loads[..|loads| - 1]);
      LoadEvolves(LoadAll(t, loads[..|loads| - 1]), last.candidates, last.now);
    }
  }

  function LiveCount<K, P>(t: Table<K, P>): nat {
    if t == [] then 0 else LiveCount(t[..|t| - 1]) + if t[|t| - 1].Live() then 1 else 0
  }

  lemma {:induction false} LiveCountOfUpdate<K, P>(t: Table<K, P>, i: nat, v: Version<K, P>)
    requires i < |t| && t[i].Live() && !v.Live()
    ensures LiveCount(t[i := v]) == LiveCount(t) - 1
  {
    var t' := t[i := v];
    if i < |t| - 1 {
      LiveCountOfUpdate(t[..|t| - 1], i, v);
      assert t'[..|t| - 1] == t[..|t| - 1][i := v];
    } else {
      assert t'[..|t| - 1] == t[..|t| - 1];
    }
  }

  lemma LiveCountOfAppend<K, P>(t: Table<K, P>, v: Version<K, P>)
    ensures LiveCount(t + [v]) == LiveCount(t) + if v.Live() then 1 else 0
  {
    assert (t + [v])[..|t|] == t;
  }

  lemma UpsertCounts<K(!new), P(!new)>(t: Table<K, P>, c: Candidate<K, P>, now: int)
    ensures var (t', o) := Upsert(t, c, now);
            && |t'| == |t| + (if o.Unchanged? then 0 else 1)
            && LiveCount(t') == LiveCount(t) + (if o.Inserted? then 1 else 0)
  {
    match LiveIndex(t, c.key)
    case None => LiveCountOfAppend(t, Open(c));
    case Some(i) =>
      if t[i].hash != c.hash {
        LiveCountOfUpdate(t, i, Closed(t[i], c.validFrom, now));
        LiveCountOfAppend(t[i := Closed(t[i], c.validFrom, now)], Open(c));
      }
  }

  /** Every candidate is counted once; the table grows by what was inserted or superseded and
      the live rows by what was inserted. */
  lemma {:induction false} LoadConserves<K(!new), P(!new)>(t: Table<K, P>, cs: seq<Candidate<K, P>>, now: int)
    ensures var (t', n) := UpsertAll(t, cs, now);
            && n.inserted + n.untouched + n.superseded == |cs|
            && |t'| == |t| + n.inserted + n.superseded
            && LiveCount(t') == LiveCount(t) + n.inserted
  {
    if cs != [] {
      LoadConserves(t, cs[..|cs| - 1], now);
      UpsertCounts(UpsertAll(t, cs[..|cs| - 1], now).0, cs[|cs| - 1], now);
    }
  }

  // ---------------------------------------------------------------------------
  // Loading the same candidates again
  // ---------------------------------------------------------------------------

  /** The content a key currently has. */
  function Current<K(==), P>(t: Table<K, P>, key: K): Option<string> {
    match LiveIndex(t, key)
    case None => None
    case Some(i) => Some(t[i].hash)
  }

  lemma OnlyLiveRow<K(!new), P(!new)>(t: Table<K, P>, i: nat)
    requires Chained(t) && i < |t| && t[i].Live()
    ensures LiveIndex(t, t[i].key) == Some(i)
  {
    ChainedMeansCurrent(t);
    assert t[i] in t;
  }

  /** An upsert moves its own key to the new content and no other key. */
  lemma UpsertSetsCurrent<K(!new), P(!new)>(t: Table<K, P>, c: Candidate<K, P>, now: int, key: K)
    requires Chained(t)
    ensures Current(Upsert(t, c, now).0, key) == if key == c.key then Some(c.hash) else Current(t, key)
  {
    var (t', o) := Upsert(t, c, now);
    UpsertKeepsChained(t, c, now);
    if key == c.key {
      if !o.Unchanged? {
        OnlyLiveRow(t', |t|);
      }
    } else {
      match LiveIndex(t, key)
      case Some(i) => OnlyLiveRow(t', i);
      case None =>
        assert forall v :: v in t' && v.key == key ==> !v.Live();
    }
  }

  /** After a load every key has the content of its last candidate. */
  lemma {:induction false} LoadSetsCurrent<K(!new), P(!new)>(t: Table<K, P>, cs: seq<Candidate<K, P>>, now: int, i: nat)
    requires Chained(t) && i < |cs|
    requires forall j :: i < j < |cs| && cs[j].key == cs[i].key ==> cs[j].hash == cs[i].hash
    ensures Current(UpsertAll(t, cs, now).0, cs[i].key) == Some(cs[i].hash)
  {
    var n := |cs| - 1;
    LoadKeepsChained(t, cs[..n], now);
    UpsertSetsCurrent(UpsertAll(t, cs[..n], now).0, cs[n], now, cs[i].key);
    if i < n {
      LoadSetsCurrent(t, cs[..n], now, i);
    }
  }

  /** Candidates with the same key have the same content. */
  ghost predicate Consistent<K(!new), P(!new)>(cs: seq<Candidate<K, P>>) {
    forall i, j :: 0 <= i < j < |cs| && cs[i].key == cs[j].key ==> cs[i].hash == cs[j].hash
  }

  ghost predicate AllCurrent<K(!new), P(!new)>(t: Table<K, P>, cs: seq<Candidate<K, P>>) {
    forall i :: 0 <= i < |cs| ==> Current(t, cs[i].key) == Some(cs[i].hash)
  }

  /** One upsert leaves the table as it was exactly when the content is current. */
  lemma UpsertWhenCurrent<K(!new), P(!new)>(t: Table<K, P>, c: Candidate<K, P>, now: int)
    ensures Current(t, c.key) == Some(c.hash) ==> Upsert(t, c, now) == (t, Unchanged)
    ensures Upsert(t, c, now).1 == Unchanged ==> Current(t, c.key) == Some(c.hash) && Upsert(t, c, now).0 == t
  {
  }

  lemma OneMoreCurrent<K(!new), P(!new)>(t: Table<K, P>, cs: seq<Candidate<K, P>>)
    requires cs != []
    ensures var n := |cs| - 1;
            AllCurrent(t, cs) <==> AllCurrent(t, cs[..n]) && Current(t, cs[n].key) == Some(cs[n].hash)
  {
    var n := |cs| - 1;
    assert forall i :: 0 <= i < n ==> cs[..n][i] == cs[i];
    if AllCurrent(t, cs[..n]) && Current(t, cs[n].key) == Some(cs[n].hash) {
      forall i | 0 <= i < |cs| ensures Current(t, cs[i].key) == Some(cs[i].hash) {
        assert i < n ==> cs[..n][i] == cs[i];
      }
    }
  }

  lemma {:induction false} NoOpWhenCurrent<K(!new), P(!new)>(t: Table<K, P>, cs: seq<Candidate<K, P>>, now: int)
    ensures AllCurrent(t, cs) <==> UpsertAll(t, cs, now) == (t, Counts(0, |cs|, 0))
  {
    if cs != [] {
      var n := |cs| - 1;
      var before := UpsertAll(t, cs[..n], now);
      NoOpWhenCurrent(t, cs[..n], now);
      LoadConserves(t, cs[..n], now);
      OneMoreCurrent(t, cs);
      UpsertWhenCurrent(before.0, cs[n], now);
      assert UpsertAll(t, cs, now) == (Upsert(before.0, cs[n], now).0, before.1.Add(Upsert(before.0, cs[n], now).1));
    }
  }

  /** Two loads that claim the same content for the same keys; dates and payload may differ. */
  ghost predicate SameClaims<K(!new), P(!new)>(cs: seq<Candidate<K, P>>, again: seq<Candidate<K, P>>) {
    |cs| == |again| && forall i :: 0 <= i < |cs| ==> cs[i].key == again[i].key && cs[i].hash == again[i].hash
  }

  /** Claiming the same a second time changes nothing, whatever the table held and whenever it
      happens, exactly when no two of the claims give different content to one key. */
  lemma ReloadIsNoOp<K(!new), P(!new)>(t: Table<K, P>, cs: seq<Candidate<K, P>>, again: seq<Candidate<K, P>>, now: int, later: int)
    requires Chained(t) && SameClaims(cs, again)
    ensures var t1 := UpsertAll(t, cs, now).0;
            UpsertAll(t1, again, later) == (t1, Counts(0, |again|, 0)) <==> Consistent(cs)
  {
    var t1 := UpsertAll(t, cs, now).0;
    NoOpWhenCurrent(t1, again, later);
    if Consistent(cs) {
      forall i | 0 <= i < |cs|
        ensures Current(t1, cs[i].key) == Some(cs[i].hash)
      {
        LoadSetsCurrent(t, cs, now, i);
      }
    }
  }

  // ---------------------------------------------------------------------------
  // The versions of one key on the calendar
  // ---------------------------------------------------------------------------

  ghost predicate StrictlyLater<K(!new), P(!new)>(t: Table<K, P>, key: K) {
    forall i, j :: 0 <= i < j < |t| && t[i].key == key && t[j].key == key ==> t[i].validFrom < t[j].validFrom
  }

  ghost predicate Covers<K(!new), P(!new)>(t: Table<K, P>, key: K, i: int, day: int) {
    0 <= i < |t| && t[i].key == key && t[i].ValidAt(day)
  }

  /** If each version of a key is strictly later-dated than the one before, then each day from
      the first version's date on is covered by exactly one version. */
  lemma VersionsTile<K(!new), P(!new)>(t: Table<K, P>, key: K, first: nat, day: int) returns (i: nat)
    requires Chained(t) && StrictlyLater(t, key)
    requires first < |t| && t[first].key == key && t[first].validFrom <= day
    ensures Covers(t, key, i, day)
    ensures forall j :: Covers(t, key, j, day) ==> j == i
  {
    i := first;
    while !t[i].ValidAt(day)
      invariant i < |t| && t[i].key == key && t[i].validFrom <= day
      decreases |t| - i
    {
      i := Successor(t, i);
    }
    forall j | Covers(t, key, j, day) && j != i
      ensures false
    {
      EndsByNext(t, key, if j < i then j else i, if j < i then i else j);
    }
  }

  lemma EndsByNext<K(!new), P(!new)>(t: Table<K, P>, key: K, i: nat, j: nat)
    requires Chained(t) && StrictlyLater(t, key) && i < j < |t| && t[i].key == key == t[j].key
    ensures t[i].validTo.Some? && t[i].validTo.value <= t[j].validFrom
  {
    assert !IsLast(t, i);
    var m := Successor(t, i);
  }

  /** And only then: one replacement that is not later-dated leaves two versions valid on the
      same day for ever after. */
  lemma TilingNeedsLaterDates<K(!new), P(!new)>(t: Table<K, P>, key: K)
    requires Chained(t)
    ensures StrictlyLater(t, key)
            <==> forall i, j, day :: Covers(t, key, i, day) && Covers(t, key, j, day) ==> i == j
  {
    if StrictlyLater(t, key) {
      forall i, j, day | Covers(t, key, i, day) && Covers(t, key, j, day)
        ensures i == j
      {
        var k := VersionsTile(t, key, i, day);
      }
    } else {
      var i, j :| 0 <= i < j < |t| && t[i].key == key && t[j].key == key && t[i].validFrom >= t[j].validFrom;
      var p := OpenEndedBetween(t, i, j);
      var last := LastVersion(t, j);
      var day := if t[p].validFrom < t[last].validFrom then t[last].validFrom else t[p].validFrom;
      assert Covers(t, key, p, day) && Covers(t, key, last, day);
    }
  }

  lemma OpenEndedBetween<K(!new), P(!new)>(t: Table<K, P>, i: nat, j: nat) returns (p: nat)
    requires Chained(t) && i < j < |t| && t[i].key == t[j].key && t[i].validFrom >= t[j].validFrom
    ensures i <= p < j && t[p].key == t[i].key && t[p].validTo.None?
    decreases j - i
  {
    assert !IsLast(t, i);
    var m := Successor(t, i);
    if t[m].validFrom <= t[i].validFrom {
      p := i;
    } else {
      p := OpenEndedBetween(t, m, j);
    }
  }
}
