/** Whole-statement supersession, shared by the GSTR-2B and GSTR-3B loaders
    (src/silver/gstn_returns/gstr2b.py, src/silver/gstn_returns/gstr3b.py). */
module Statements {
  import opened Prelude
  import opened Hashing
  import opened Bitemporal

  // The identity of a statement is one hash over header fields followed by two lists of row
  // hashes, with nothing to mark where either list begins or ends.

  // ---------------------------------------------------------------------------
  // Identity
  // ---------------------------------------------------------------------------

  type Parts = seq<string>

  function Digests(sha: Sha, rows: seq<Parts>): seq<string> {
    seq(|rows|, i requires 0 <= i < |rows| => HashOf(sha, rows[i]))
  }

  /** Every row has the given number of parts and none contains the separator. */
  predicate Rows(rows: seq<Parts>, arity: nat) {
    forall i :: 0 <= i < |rows| ==> |rows[i]| == arity && Fields(rows[i])
  }

  lemma DigestsIdentify(sha: Sha, a: seq<Parts>, b: seq<Parts>)
    requires Ideal(sha)
    requires forall i :: 0 <= i < |a| ==> a[i] != [] && Fields(a[i])
    requires forall i :: 0 <= i < |b| ==> b[i] != [] && Fields(b[i])
    ensures Digests(sha, a) == Digests(sha, b) <==> a == b
  {
    if Digests(sha, a) == Digests(sha, b) {
      assert |a| == |Digests(sha, a)| == |b|;
      forall i | 0 <= i < |a| ensures a[i] == b[i] {
        assert Digests(sha, a)[i] == Digests(sha, b)[i];
        HashIdentifiesFields(sha, a[i], b[i]);
      }
    }
  }

  lemma ArityAt(a: seq<Parts>, b: seq<Parts>, m: nat, n: nat, i: nat)
    requires Rows(a, m) && Rows(b, n) && i < |a| + |b|
    ensures |(a + b)[i]| == if i < |a| then m else n
  {
  }

  /** Two lists laid end to end can be told apart when their rows differ in length. */
  lemma BoundaryIsClear(a: seq<Parts>, b: seq<Parts>, c: seq<Parts>, d: seq<Parts>, m: nat, n: nat)
    requires m != n && Rows(a, m) && Rows(c, m) && Rows(b, n) && Rows(d, n)
    ensures a + b == c + d <==> a == c && b == d
  {
    if a + b == c + d {
      var s := a + b;
      var i := if |a| < |c| then |a| else |c|;
      if i < |s| {
        ArityAt(a, b, m, n, i);
        ArityAt(c, d, m, n, i);
      }
      assert s[..|a|] == a && s[..|c|] == c;
      assert s[|a|..] == b && s[|c|..] == d;
    }
  }

  function StatementHash(sha: Sha, header: Parts, first: seq<Parts>, second: seq<Parts>): string {
    HashOf(sha, header + Digests(sha, first) + Digests(sha, second))
  }

  lemma DigestsAreFields(sha: Sha, header: Parts, rows: seq<Parts>)
    requires Ideal(sha) && Fields(header)
    ensures Fields(header + Digests(sha, rows))
  {
    forall p | p in header + Digests(sha, rows) ensures SEPARATOR !in p {
      if p !in header {
        var i :| 0 <= i < |rows| && Digests(sha, rows)[i] == p;
      }
    }
  }

  /** The flat hash determines the header and both lists. */
  lemma StatementHashIdentifies(sha: Sha, h: Parts, a: seq<Parts>, b: seq<Parts>, k: Parts, c: seq<Parts>, d: seq<Parts>, m: nat, n: nat)
    requires Ideal(sha) && m != n && m > 0 && n > 0
    requires |h| == |k| > 0 && Fields(h) && Fields(k)
    requires Rows(a, m) && Rows(c, m) && Rows(b, n) && Rows(d, n)
    ensures StatementHash(sha, h, a, b) == StatementHash(sha, k, c, d) <==> h == k && a == c && b == d
  {
    var x, y := h + Digests(sha, a) + Digests(sha, b), k + Digests(sha, c) + Digests(sha, d);
    assert x == h + Digests(sha, a + b) && y == k + Digests(sha, c + d);
    DigestsAreFields(sha, h, a + b);
    DigestsAreFields(sha, k, c + d);
    HashIdentifiesFields(sha, x, y);
    if x == y {
      assert x[..|h|] == h && y[..|k|] == k;
      assert x[|h|..] == Digests(sha, a + b) && y[|k|..] == Digests(sha, c + d);
      DigestsIdentify(sha, a + b, c + d);
      BoundaryIsClear(a, b, c, d, m, n);
    }
  }

  // ---------------------------------------------------------------------------
  // The loader
  // ---------------------------------------------------------------------------

  datatype Key = Key(entity: nat, gstin: string, period: int)

  datatype Stored<+S> = Stored(ingest: nat, statement: S)

  type StatementTable<S> = Table<Key, Stored<S>>

  datatype ChildRow<+R> = ChildRow(headerId: nat, position: nat, row: R)

  datatype BatchRow = BatchRow(key: Key, end: int, rowCount: nat, contentHash: string, ingest: nat)

  datatype LoadOutcome = LoadOutcome(batch: Option<nat>, inserted: bool, rowCount: nat)

  function CandidateOf<S>(key: Key, ingest: nat, hash: string, statement: S): Candidate<Key, Stored<S>> {
    Candidate(key, hash, key.period, Stored(ingest, statement))
  }

  function ChildRows<R>(headerId: nat, rows: seq<R>): (r: seq<ChildRow<R>>)
    ensures |r| == |rows| && forall i :: 0 <= i < |r| ==> r[i] == ChildRow(headerId, i + 1, rows[i])
  {
    seq(|rows|, i requires 0 <= i < |rows| => ChildRow(headerId, i + 1, rows[i]))
  }

  /** What the child tables must hold: the rows of every statement ever stored, in order. */
  function StoredChildren<S, R>(t: StatementTable<S>, childrenOf: S -> seq<R>): seq<ChildRow<R>> {
    if t == [] then []
    else StoredChildren(t[..|t| - 1], childrenOf) + ChildRows(|t| - 1, childrenOf(t[|t| - 1].payload.statement))
  }

  lemma {:induction false} ClosingKeepsChildren<S, R>(t: StatementTable<S>, childrenOf: S -> seq<R>, i: nat, newFrom: int, now: int)
    requires i < |t|
    ensures StoredChildren(t[i := Closed(t[i], newFrom, now)], childrenOf) == StoredChildren(t, childrenOf)
  {
    var t' := t[i := Closed(t[i], newFrom, now)];
    if i < |t| - 1 {
      ClosingKeepsChildren(t[..|t| - 1], childrenOf, i, newFrom, now);
      assert t'[..|t| - 1] == t[..|t| - 1][i := Closed(t[i], newFrom, now)];
    } else {
      assert t'[..|t| - 1] == t[..|t| - 1];
    }
  }

  ghost predicate Sound<S>(t: StatementTable<S>, hashOf: S -> string) {
    forall i :: 0 <= i < |t| ==> t[i].hash == hashOf(t[i].payload.statement) && t[i].validFrom == t[i].key.period && t[i].validTo.None?
  }

  class StatementLoader<S, R> {
    const hashOf: S -> string
    const childrenOf: S -> seq<R>
    const rowCountOf: S -> nat
    var headers: StatementTable<S>
    var children: seq<ChildRow<R>>
    var batches: seq<BatchRow>

    constructor (hashOf: S -> string, childrenOf: S -> seq<R>, rowCountOf: S -> nat)
      ensures Valid() && headers == [] && batches == []
      ensures this.hashOf == hashOf && this.childrenOf == childrenOf && this.rowCountOf == rowCountOf
    {
      this.hashOf, this.childrenOf, this.rowCountOf := hashOf, childrenOf, rowCountOf;
      headers, children, batches := [], [], [];
    }

    /** Each header carries the hash of what was stored under it and never ends in business
        time; its rows are in the child tables; it has one batch. */
    ghost predicate Valid()
      reads this
    {
      && Sound(headers, hashOf)
      && children == StoredChildren(headers, childrenOf)
      && |batches| == |headers|
      && forall i :: 0 <= i < |batches| ==> batches[i].key == headers[i].key && batches[i].ingest == headers[i].payload.ingest
    }

    /** One parsed statement, in one transaction. */
    method Load(key: Key, end: int, ingest: nat, contentHash: string, s: S, now: int) returns (r: LoadOutcome)
      requires Valid()
      modifies this
      ensures Valid()
      ensures headers == Upsert(old(headers), CandidateOf(key, ingest, hashOf(s), s), now).0
      ensures r.inserted <==> Current(old(headers), key) != Some(hashOf(s))
      ensures r.rowCount == rowCountOf(s)
      ensures r.inserted ==> batches == old(batches) + [BatchRow(key, end, rowCountOf(s), contentHash, ingest)]
                             && r.batch == Some(|old(batches)|)
      ensures !r.inserted ==> headers == old(headers) && children == old(children) && batches == old(batches) && r.batch.None?
    {
      var hash := hashOf(s);
      var live := LiveIndex(headers, key);
      if live.Some? {
        if headers[live.value].hash == hash {
          return LoadOutcome(None, false, rowCountOf(s));
        }
        ClosingKeepsChildren(headers, childrenOf, live.value, key.period, now);
        headers := headers[live.value := headers[live.value].(supersededAt := Some(now))];
      }
      ghost var closed := headers;
      var batch := |batches|;
      batches := batches + [BatchRow(key, end, rowCountOf(s), contentHash, ingest)];
      var headerId := |headers|;
      headers := headers + [Version(key, hash, key.period, None, None, Stored(ingest, s))];
      var rows := childrenOf(s);
      for k := 0 to |rows|
        invariant headers == closed + [Open(CandidateOf(key, ingest, hash, s))]
        invariant batches == old(batches) + [BatchRow(key, end, rowCountOf(s), contentHash, ingest)]
        invariant children == old(children) + ChildRows(headerId, rows)[..k]
      {
        children := children + [ChildRow(headerId, k + 1, rows[k])];
      }
      assert ChildRows(headerId, rows)[..|rows|] == ChildRows(headerId, rows);
      assert headers[..headerId] == closed;
      return LoadOutcome(Some(batch), true, rowCountOf(s));
    }
  }

  // ---------------------------------------------------------------------------
  // A load in terms of content
  // ---------------------------------------------------------------------------

  /** Every stored statement and the offered one are of those the hash identifies. */
  ghost predicate AllClean<S>(t: StatementTable<S>, s: S, clean: S -> bool) {
    clean(s) && forall i :: 0 <= i < |t| ==> clean(t[i].payload.statement)
  }

  /** The live statement of a key, if any, has the same content as s. */
  ghost predicate AlreadyLive<S>(t: StatementTable<S>, key: Key, s: S, same: (S, S) -> bool) {
    exists i :: 0 <= i < |t| && t[i].key == key && t[i].Live() && same(t[i].payload.statement, s)
  }

  ghost predicate Identifies<S(!new)>(hashOf: S -> string, clean: S -> bool, same: (S, S) -> bool) {
    forall a, b :: clean(a) && clean(b) ==> (hashOf(a) == hashOf(b) <==> same(a, b))
  }

  ghost predicate Configured<S(!new), R>(loader: StatementLoader<S, R>, hashOf: S -> string, childrenOf: S -> seq<R>, rowCountOf: S -> nat) {
    forall s :: loader.hashOf(s) == hashOf(s) && loader.childrenOf(s) == childrenOf(s) && loader.rowCountOf(s) == rowCountOf(s)
  }

  lemma CurrentMeansSameContent<S(!new)>(hashOf: S -> string, t: StatementTable<S>, key: Key, s: S, clean: S -> bool, same: (S, S) -> bool)
    requires Identifies(hashOf, clean, same) && Chained(t) && Sound(t, hashOf) && AllClean(t, s, clean)
    ensures Current(t, key) == Some(hashOf(s)) <==> AlreadyLive(t, key, s, same)
  {
    var live := LiveIndex(t, key);
    forall i | 0 <= i < |t| && t[i].key == key && t[i].Live() ensures live == Some(i) {
      OnlyLiveRow(t, i);
    }
  }

  lemma StaysClean<S(!new)>(t: StatementTable<S>, c: Candidate<Key, Stored<S>>, now: int, clean: S -> bool)
    requires AllClean(t, c.payload.statement, clean)
    ensures AllClean(Upsert(t, c, now).0, c.payload.statement, clean)
  {
  }

  /** A load is a no-op exactly when the live statement of the key has this content already, and
      writes one batch otherwise; in the end this content is live. */
  method LoadContent<S(!new), R>(loader: StatementLoader<S, R>, key: Key, end: int, ingest: nat, contentHash: string, s: S, now: int,
                                 ghost clean: S -> bool, ghost same: (S, S) -> bool) returns (r: LoadOutcome)
    requires loader.Valid() && Chained(loader.headers)
    requires Identifies(loader.hashOf, clean, same) && AllClean(loader.headers, s, clean)
    modifies loader
    ensures loader.Valid() && Chained(loader.headers)
    ensures r.rowCount == loader.rowCountOf(s)
    ensures r.inserted <==> !AlreadyLive(old(loader.headers), key, s, same)
    ensures |loader.batches| == |old(loader.batches)| + (if r.inserted then 1 else 0)
    ensures !r.inserted ==> loader.headers == old(loader.headers) && loader.children == old(loader.children)
    ensures AlreadyLive(loader.headers, key, s, same)
  {
    ghost var before := loader.headers;
    ghost var c := CandidateOf(key, ingest, loader.hashOf(s), s);
    CurrentMeansSameContent(loader.hashOf, before, key, s, clean, same);
    r := loader.Load(key, end, ingest, contentHash, s, now);
    UpsertKeepsChained(before, c, now);
    UpsertSetsCurrent(before, c, now, key);
    StaysClean(before, c, now, clean);
    CurrentMeansSameContent(loader.hashOf, loader.headers, key, s, clean, same);
  }

  // ---------------------------------------------------------------------------
  // Over every run
  // ---------------------------------------------------------------------------

  datatype Request<+S> = Request(key: Key, ingest: nat, statement: S, now: int)

  /** Any sequence of loads. */
  function RunLoads<S>(hashOf: S -> string, requests: seq<Request<S>>): StatementTable<S> {
    if requests == [] then []
    else
      var r := requests[|requests| - 1];
      Upsert(RunLoads(hashOf, requests[..|requests| - 1]), CandidateOf(r.key, r.ingest, hashOf(r.statement), r.statement), r.now).0
  }

  ghost predicate LastFor<S(!new)>(requests: seq<Request<S>>, key: Key, i: int) {
    0 <= i < |requests| && requests[i].key == key && forall j :: i < j < |requests| ==> requests[j].key != key
  }

  lemma UpsertKeepsSound<S(!new)>(t: StatementTable<S>, hashOf: S -> string, r: Request<S>)
    requires Sound(t, hashOf)
    ensures Sound(Upsert(t, CandidateOf(r.key, r.ingest, hashOf(r.statement), r.statement), r.now).0, hashOf)
  {
  }

  /** In every reachable table there is at most one live statement per entity, GSTIN and period,
      each carries the hash of its content, and superseded ones keep an open valid_to. */
  lemma {:induction false} EveryRunIsChained<S(!new)>(hashOf: S -> string, requests: seq<Request<S>>)
    ensures Chained(RunLoads(hashOf, requests)) && Sound(RunLoads(hashOf, requests), hashOf)
  {
    if requests == [] {
      var t: StatementTable<S> := [];
      assert forall i :: !IsLast(t, i);
    } else {
      var n := |requests| - 1;
      var r, before := requests[n], RunLoads(hashOf, requests[..n]);
      EveryRunIsChained(hashOf, requests[..n]);
      UpsertKeepsChained(before, CandidateOf(r.key, r.ingest, hashOf(r.statement), r.statement), r.now);
      UpsertKeepsSound(before, hashOf, r);
    }
  }

  /** What is live for a key is content-equal to the last statement loaded for it. */
  lemma {:induction false} LastLoadIsCurrent<S(!new)>(hashOf: S -> string, requests: seq<Request<S>>, key: Key, i: nat)
    requires LastFor(requests, key, i)
    ensures Current(RunLoads(hashOf, requests), key) == Some(hashOf(requests[i].statement))
  {
    var n := |requests| - 1;
    var r, before := requests[n], RunLoads(hashOf, requests[..n]);
    EveryRunIsChained(hashOf, requests[..n]);
    UpsertSetsCurrent(before, CandidateOf(r.key, r.ingest, hashOf(r.statement), r.statement), r.now, key);
    if i < n {
      assert requests[n].key != key;
      LastLoadIsCurrent(hashOf, requests[..n], key, i);
    }
  }

  /** So two different versions of a statement are both valid on every later day: transaction
      time alone tells them apart. */
  lemma SupersededStaysValid<S(!new)>(hashOf: S -> string, requests: seq<Request<S>>, i: nat, day: int)
    requires i < |RunLoads(hashOf, requests)| && day >= RunLoads(hashOf, requests)[i].key.period
    ensures RunLoads(hashOf, requests)[i].ValidAt(day)
  {
    EveryRunIsChained(hashOf, requests);
  }
}
