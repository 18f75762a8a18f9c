/** The migration fan-out (src/migrate/runner.py): one chain of files per tenant, a version
    table keyed by filename, checksum pinning, and tenants migrated side by side. */
module Migrations {
  import opened Prelude

  // A tenant is its version table and the bodies that have run in its schema.  Which bodies
  // and which grants fail is a parameter; a failing body and its version row roll back together.

  datatype Migration = Migration(filename: string, body: string, checksum: string)

  datatype Tenant = Tenant(versions: map<string, string>, ran: seq<Migration>)

  /** What the database does with one tenant's statements. */
  datatype Database = Database(bodyFails: string -> bool, grantsFail: bool)

  datatype MigrationError = StrayExtension | NoSchema | ChecksumMismatch(filename: string) | DatabaseError(filename: string) | GrantsFailed

  // ---------------------------------------------------------------------------
  // The two chains
  // ---------------------------------------------------------------------------

  function Names(chain: seq<Migration>): (names: seq<string>)
    ensures |names| == |chain| && forall i :: 0 <= i < |chain| ==> names[i] == chain[i].filename
  {
    seq(|chain|, i requires 0 <= i < |chain| => chain[i].filename)
  }

  ghost predicate DistinctNames(chain: seq<Migration>) {
    forall i, j :: 0 <= i < j < |chain| ==> chain[i].filename != chain[j].filename
  }

  predicate Digit(c: char) { '0' <= c <= '9' }

  predicate WordChar(c: char) { 'a' <= c <= 'z' || Digit(c) || c == '_' }

  /** ^ext_[0-9]{3}_[a-z0-9_]+\.sql$ */
  predicate ExtensionName(f: string) {
    && |f| >= 13
    && f[..4] == "ext_" && Digit(f[4]) && Digit(f[5]) && Digit(f[6]) && f[7] == '_'
    && (forall i :: 8 <= i < |f| - 4 ==> WordChar(f[i]))
    && f[|f| - 4..] == ".sql"
  }

  function LoadExt(ext: seq<Migration>): Result<seq<Migration>, MigrationError> {
    if forall i :: 0 <= i < |ext| ==> ExtensionName(ext[i].filename) then Ok(ext) else Err(StrayExtension)
  }

  /** What one directory listing guarantees, and what nothing checks: that no common file
      carries an extension name. */
  ghost predicate NamesApart(common: seq<Migration>, ext: seq<Migration>) {
    DistinctNames(common) && DistinctNames(ext)
    && forall i :: 0 <= i < |common| ==> !ExtensionName(common[i].filename)
  }

  lemma ChainNamesAreDistinct(common: seq<Migration>, ext: seq<Migration>)
    requires NamesApart(common, ext) && LoadExt(ext).Ok?
    ensures DistinctNames(common + ext)
  {
    var chain := common + ext;
    forall i, j | 0 <= i < j < |chain|
      ensures chain[i].filename != chain[j].filename
    {
      if i < |common| <= j {
        assert chain[j] == ext[j - |common|];
        assert ExtensionName(chain[j].filename) && !ExtensionName(chain[i].filename);
      }
    }
  }

  // ---------------------------------------------------------------------------
  // One tenant, migration by migration
  // ---------------------------------------------------------------------------

  /** A worker's place in its chain; `done` is the version table as read at the start. */
  datatype Worker = Worker(next: nat, done: map<string, string>, applied: seq<string>, status: Status)

  datatype Status = Running | Returned | Failed(error: MigrationError)

  function StartWorker(t: Tenant): Worker {
    Worker(0, t.versions, [], Running)
  }

  function Step(db: Database, chain: seq<Migration>, t: Tenant, w: Worker): (Tenant, Worker) {
    if !w.status.Running? then (t, w)
    else if w.next >= |chain| then
      (t, w.(status := if db.grantsFail then Failed(GrantsFailed) else Returned))
    else
      var m := chain[w.next];
      if m.filename in w.done then
        if w.done[m.filename] != m.checksum then (t, w.(status := Failed(ChecksumMismatch(m.filename))))
        else (t, w.(next := w.next + 1))
      else if db.bodyFails(m.filename) || m.filename in t.versions then
        (t, w.(status := Failed(DatabaseError(m.filename))))
      else
        (Tenant(t.versions[m.filename := m.checksum], t.ran + [m]),
         w.(next := w.next + 1, applied := w.applied + [m.filename]))
  }

  function Steps(db: Database, chain: seq<Migration>, t: Tenant, w: Worker, n: nat): (Tenant, Worker) {
    if n == 0 then (t, w)
    else
      var (t1, w1) := Steps(db, chain, t, w, n - 1);
      Step(db, chain, t1, w1)
  }

  /** A whole undisturbed run: one step per file and one for the grants. */
  function Run(db: Database, chain: seq<Migration>, t: Tenant): (Tenant, Worker) {
    Steps(db, chain, t, StartWorker(t), |chain| + 1)
  }

  // ---------------------------------------------------------------------------
  // The runner
  // ---------------------------------------------------------------------------

  datatype TenantResult = TenantResult(slug: string, applied: seq<string>, error: Option<MigrationError>)

  class MigrationRunner {
    const common: seq<Migration>
    const extensions: map<string, seq<Migration>>
    const databases: map<string, Database>
    var tenants: map<string, Tenant>

    constructor (common: seq<Migration>, extensions: map<string, seq<Migration>>, databases: map<string, Database>,
                 tenants: map<string, Tenant>)
      requires tenants.Keys <= databases.Keys
      ensures this.common == common && this.extensions == extensions && this.databases == databases
      ensures this.tenants == tenants
    {
      this.common, this.extensions, this.databases, this.tenants := common, extensions, databases, tenants;
    }

    function Extension(slug: string): seq<Migration> {
      if slug in extensions then extensions[slug] else []
    }

    function Chain(slug: string): seq<Migration> {
      common + Extension(slug)
    }

    /** One file: skipped when its checksum is recorded, otherwise run and recorded. */
    method ApplyMigration(slug: string, db: Database, migrations: seq<Migration>, i: nat, done: map<string, string>, ghost applied: seq<string>)
      returns (ran: bool, error: Option<MigrationError>)
      requires slug in tenants && i < |migrations|
      modifies this
      ensures tenants.Keys == old(tenants).Keys
      ensures forall other :: other in tenants && other != slug ==> tenants[other] == old(tenants)[other]
      ensures Step(db, migrations, old(tenants)[slug], Worker(i, done, applied, Running))
              == (tenants[slug],
                  if error.Some? then Worker(i, done, applied, Failed(error.value))
                  else Worker(i + 1, done, if ran then applied + [migrations[i].filename] else applied, Running))
    {
      var m := migrations[i];
      if m.filename in done {
        return false, if done[m.filename] != m.checksum then Some(ChecksumMismatch(m.filename)) else None;
      }
      var t := tenants[slug];
      if db.bodyFails(m.filename) || m.filename in t.versions {
        return false, Some(DatabaseError(m.filename));
      }
      tenants := tenants[slug := Tenant(t.versions[m.filename := m.checksum], t.ran + [m])];
      return true, None;
    }

    method ApplyTenant(slug: string) returns (r: Result<seq<string>, MigrationError>)
      requires tenants.Keys <= databases.Keys
      modifies this
      ensures tenants.Keys == old(tenants).Keys
      ensures forall other :: other in tenants && other != slug ==> tenants[other] == old(tenants)[other]
      ensures LoadExt(Extension(slug)).Err? ==> r == Err(StrayExtension) && tenants == old(tenants)
      ensures LoadExt(Extension(slug)).Ok? && slug !in tenants ==> r == Err(NoSchema)
      ensures LoadExt(Extension(slug)).Ok? && slug in tenants ==>
                var (t, w) := Run(databases[slug], Chain(slug), old(tenants)[slug]);
                && tenants[slug] == t
                && (r.Ok? <==> w.status.Returned?)
                && (r.Ok? ==> r.value == w.applied)
                && (r.Err? ==> w.status == Failed(r.error))
    {
      var ext := LoadExt(Extension(slug));
      if ext.Err? {
        return Err(ext.error);
      }
      var migrations := common + ext.value;
      if slug !in tenants {
        return Err(NoSchema);
      }
      var db := databases[slug];
      var done := tenants[slug].versions;
      var applied: seq<string> := [];
      ghost var before := tenants[slug];
      ghost var w0 := StartWorker(before);
      for i := 0 to |migrations|
        invariant slug in tenants && tenants.Keys == old(tenants).Keys
        invariant forall other :: other in tenants && other != slug ==> tenants[other] == old(tenants)[other]
        invariant Steps(db, migrations, before, w0, i) == (tenants[slug], Worker(i, done, applied, Running))
      {
        ghost var w := Worker(i, done, applied, Running);
        ghost var stepped := Step(db, migrations, tenants[slug], w);
        var ran, error := ApplyMigration(slug, db, migrations, i, done, applied);
        assert Steps(db, migrations, before, w0, i + 1) == stepped;
        if error.Some? {
          FinishedStays(db, migrations, before, w0, i + 1, |migrations| + 1);
          return Err(error.value);
        }
        if ran {
          applied := applied + [migrations[i].filename];
        }
      }
      if db.grantsFail {
        return Err(GrantsFailed);
      }
      r := Ok(applied);
    }

    /** One tenant's failure is recorded, not raised. */
    method ApplyAllTenants(slugs: seq<string>) returns (results: seq<TenantResult>)
      requires tenants.Keys <= databases.Keys
      requires forall i, j :: 0 <= i < j < |slugs| ==> slugs[i] != slugs[j]
      requires forall slug :: slug in slugs ==> slug in tenants
      modifies this
      ensures tenants.Keys == old(tenants).Keys
      ensures |results| == |slugs|
      ensures forall i :: 0 <= i < |slugs| ==>
                && results[i].slug == slugs[i]
                && (LoadExt(Extension(slugs[i])).Ok? ==>
                      var (t, w) := Run(databases[slugs[i]], Chain(slugs[i]), old(tenants)[slugs[i]]);
                      && tenants[slugs[i]] == t
                      && (results[i].error.None? <==> w.status.Returned?)
                      && results[i].applied == if w.status.Returned? then w.applied else [])
                && (LoadExt(Extension(slugs[i])).Err? ==>
                      tenants[slugs[i]] == old(tenants)[slugs[i]] && results[i].error == Some(StrayExtension))
      ensures forall slug :: slug in tenants && slug !in slugs ==> tenants[slug] == old(tenants)[slug]
    {
      results := [];
      for k := 0 to |slugs|
        invariant tenants.Keys == old(tenants).Keys
        invariant |results| == k
        invariant forall i :: 0 <= i < k ==>
                    && results[i].slug == slugs[i]
                    && (LoadExt(Extension(slugs[i])).Ok? ==>
                          var (t, w) := Run(databases[slugs[i]], Chain(slugs[i]), old(tenants)[slugs[i]]);
                          && tenants[slugs[i]] == t
                          && (results[i].error.None? <==> w.status.Returned?)
                          && results[i].applied == if w.status.Returned? then w.applied else [])
                    && (LoadExt(Extension(slugs[i])).Err? ==>
                          tenants[slugs[i]] == old(tenants)[slugs[i]] && results[i].error == Some(StrayExtension))
        invariant forall slug :: slug in tenants && slug !in slugs[..k] ==> tenants[slug] == old(tenants)[slug]
      {
        assert slugs[k] !in slugs[..k];
        var r := ApplyTenant(slugs[k]);
        results := results + [match r
                              case Ok(applied) => TenantResult(slugs[k], applied, None)
                              case Err(e) => TenantResult(slugs[k], [], Some(e))];
        assert slugs[..k + 1] == slugs[..k] + [slugs[k]];
      }
      assert slugs[..|slugs|] == slugs;
    }
  }

  // ---------------------------------------------------------------------------
  // What every run keeps
  // ---------------------------------------------------------------------------

  lemma {:induction false} FinishedStays(db: Database, chain: seq<Migration>, t: Tenant, w: Worker, n: nat, m: nat)
    requires n <= m && !Steps(db, chain, t, w, n).1.status.Running?
    ensures Steps(db, chain, t, w, m) == Steps(db, chain, t, w, n)
  {
    if n < m {
      FinishedStays(db, chain, t, w, n, m - 1);
    }
  }

  function Recorded(chain: seq<Migration>): map<string, string> {
    if chain == [] then map[] else Recorded(chain[..|chain| - 1])[chain[|chain| - 1].filename := chain[|chain| - 1].checksum]
  }

  /** The first k files of the chain, and nothing else, have run, once each and in order. */
  ghost predicate AppliedPrefix(chain: seq<Migration>, t: Tenant, k: nat) {
    k <= |chain| && t.ran == chain[..k] && t.versions == Recorded(chain[..k])
  }

  lemma {:induction false} RecordedNames(chain: seq<Migration>, f: string)
    requires DistinctNames(chain)
    ensures f in Recorded(chain) <==> exists i :: 0 <= i < |chain| && chain[i].filename == f
    ensures forall i :: 0 <= i < |chain| ==> chain[i].filename in Recorded(chain) && Recorded(chain)[chain[i].filename] == chain[i].checksum
  {
    if chain != [] {
      RecordedNames(chain[..|chain| - 1], f);
    }
  }

  lemma PrefixNames(chain: seq<Migration>, k: nat, i: nat)
    requires DistinctNames(chain) && k <= |chain| && i < |chain|
    ensures chain[i].filename in Recorded(chain[..k]) <==> i < k
    ensures i < k ==> Recorded(chain[..k])[chain[i].filename] == chain[i].checksum
  {
    RecordedNames(chain[..k], chain[i].filename);
    if i < k {
      assert chain[..k][i] == chain[i];
    }
  }

  /** Where a running worker and its tenant stand together. */
  ghost predicate InStep(chain: seq<Migration>, start: nat, t: Tenant, w: Worker, k: nat) {
    && start <= k && AppliedPrefix(chain, t, k)
    && w.done == Recorded(chain[..start])
    && w.applied == Names(chain[start..k])
    && w.next <= |chain|
    && k == (if w.next <= start then start else w.next)
    && (w.status.Returned? ==> w.next == |chain|)
  }

  lemma OneMore(chain: seq<Migration>, start: nat, k: nat)
    requires start <= k < |chain|
    ensures chain[..k + 1] == chain[..k] + [chain[k]]
    ensures Recorded(chain[..k + 1]) == Recorded(chain[..k])[chain[k].filename := chain[k].checksum]
    ensures Names(chain[start..k + 1]) == Names(chain[start..k]) + [chain[k].filename]
  {
    assert chain[..k + 1][..k] == chain[..k];
    assert chain[start..k + 1] == chain[start..k] + [chain[k]];
  }

  lemma StepKeepsPrefix(db: Database, chain: seq<Migration>, start: nat, t: Tenant, w: Worker, k: nat) returns (k': nat)
    requires DistinctNames(chain) && start <= |chain| && InStep(chain, start, t, w, k)
    ensures k <= k' && InStep(chain, start, Step(db, chain, t, w).0, Step(db, chain, t, w).1, k')
  {
    k' := k;
    if w.status.Running? && w.next < |chain| {
      var m := chain[w.next];
      PrefixNames(chain, start, w.next);
      PrefixNames(chain, k, w.next);
      if m.filename !in w.done && !db.bodyFails(m.filename) {
        k' := k + 1;
        OneMore(chain, start, k);
      }
    }
  }

  lemma {:induction false} StepsKeepPrefix(db: Database, chain: seq<Migration>, t: Tenant, start: nat, n: nat) returns (k: nat)
    requires DistinctNames(chain) && AppliedPrefix(chain, t, start)
    ensures start <= k
    ensures InStep(chain, start, Steps(db, chain, t, StartWorker(t), n).0, Steps(db, chain, t, StartWorker(t), n).1, k)
  {
    if n == 0 {
      k := start;
      assert Names(chain[start..start]) == [];
    } else {
      k := StepsKeepPrefix(db, chain, t, start, n - 1);
      var (t1, w1) := Steps(db, chain, t, StartWorker(t), n - 1);
      k := StepKeepsPrefix(db, chain, start, t1, w1, k);
    }
  }

  /** SELECT of the expected names that are not in the version table. */
  function Pending(chain: seq<Migration>, t: Tenant): seq<string> {
    if chain == [] then []
    else
      Pending(chain[..|chain| - 1], t)
      + if chain[|chain| - 1].filename in t.versions then [] else [chain[|chain| - 1].filename]
  }

  lemma PendingNext(chain: seq<Migration>, t: Tenant, n: nat)
    requires 0 < n <= |chain|
    ensures Pending(chain[..n], t)
            == Pending(chain[..n - 1], t) + if chain[n - 1].filename in t.versions then [] else [chain[n - 1].filename]
  {
    assert chain[..n][..n - 1] == chain[..n - 1];
  }

  lemma NamesNext(chain: seq<Migration>, k: nat, n: nat)
    requires k < n <= |chain|
    ensures Names(chain[k..n]) == Names(chain[k..n - 1]) + [chain[n - 1].filename]
  {
    assert chain[k..n] == chain[k..n - 1] + [chain[n - 1]];
  }

  /** The drift report of a tenant names exactly the rest of its chain. */
  lemma {:induction false} PendingIsTheRest(chain: seq<Migration>, t: Tenant, k: nat, n: nat)
    requires DistinctNames(chain) && AppliedPrefix(chain, t, k) && n <= |chain|
    ensures Pending(chain[..n], t) == if n <= k then [] else Names(chain[k..n])
  {
    if n > 0 {
      PendingIsTheRest(chain, t, k, n - 1);
      PendingNext(chain, t, n);
      PrefixNames(chain, k, n - 1);
      if k < n {
        NamesNext(chain, k, n);
      }
    }
  }

  /** Where the lists are what the runner loads and no common file has an extension name: however
      far a run gets before it fails or dies, the tenant holds a prefix of its chain, at least as
      long as before, the run applied exactly the difference, and the drift report names exactly
      the rest. */
  lemma RunsKeepPrefix(db: Database, common: seq<Migration>, ext: seq<Migration>, t: Tenant, start: nat, n: nat) returns (k: nat)
    requires NamesApart(common, ext) && LoadExt(ext).Ok? && AppliedPrefix(common + ext, t, start)
    ensures var chain := common + ext;
            var (t', w) := Steps(db, chain, t, StartWorker(t), n);
            && start <= k && AppliedPrefix(chain, t', k)
            && w.applied == Names(chain[start..k])
            && Pending(chain, t') == Names(chain[k..])
  {
    var chain := common + ext;
    ChainNamesAreDistinct(common, ext);
    k := StepsKeepPrefix(db, chain, t, start, n);
    PendingIsTheRest(chain, Steps(db, chain, t, StartWorker(t), n).0, k, |chain|);
    assert chain[..|chain|] == chain && chain[k..|chain|] == chain[k..];
  }

  // ---------------------------------------------------------------------------
  // When a run returns normally
  // ---------------------------------------------------------------------------

  /** File i passes on a tenant whose version table was `done` at the start. */
  predicate Passes(db: Database, chain: seq<Migration>, done: map<string, string>, i: nat)
    requires i < |chain|
  {
    if chain[i].filename in done then done[chain[i].filename] == chain[i].checksum
    else !db.bodyFails(chain[i].filename) && forall j :: 0 <= j < i ==> chain[j].filename != chain[i].filename
  }

  lemma {:induction false} ProgressWhilePassing(db: Database, chain: seq<Migration>, t: Tenant, n: nat)
    requires n <= |chain|
    ensures var (t1, w1) := Steps(db, chain, t, StartWorker(t), n);
            && w1.done == t.versions
            && (w1.status.Running? <==> forall i :: 0 <= i < n ==> Passes(db, chain, t.versions, i))
            && !w1.status.Returned?
            && (w1.status.Running? ==>
                  && w1.next == n
                  && forall f :: f in t1.versions <==> f in t.versions || exists j :: 0 <= j < n && chain[j].filename == f)
  {
    if n > 0 {
      ProgressWhilePassing(db, chain, t, n - 1);
      var (t1, w1) := Steps(db, chain, t, StartWorker(t), n - 1);
      if w1.status.Running? {
        var m := chain[n - 1];
        if m.filename !in t.versions && m.filename in t1.versions {
          assert !Passes(db, chain, t.versions, n - 1);
        } else {
          assert Passes(db, chain, t.versions, n - 1) <==> Step(db, chain, t1, w1).1.status.Running?;
        }
      }
    }
  }

  /** For any lists and any tenant: a run returns normally exactly when no applied file has
      been edited, no pending body fails, no two pending files share a name, and the grants
      succeed. */
  lemma ReturnsExactlyWhen(db: Database, chain: seq<Migration>, t: Tenant)
    ensures Run(db, chain, t).1.status.Returned?
            <==> !db.grantsFail && forall i :: 0 <= i < |chain| ==> Passes(db, chain, t.versions, i)
  {
    ProgressWhilePassing(db, chain, t, |chain|);
  }

  /** The files of the chain that the version table does not name. */
  function Missing(chain: seq<Migration>, t: Tenant): seq<Migration> {
    if chain == [] then []
    else
      Missing(chain[..|chain| - 1], t)
      + if chain[|chain| - 1].filename in t.versions then [] else [chain[|chain| - 1]]
  }

  lemma {:induction false} MissingArePending(chain: seq<Migration>, t: Tenant)
    ensures Names(Missing(chain, t)) == Pending(chain, t)
  {
    if chain != [] {
      MissingArePending(chain[..|chain| - 1], t);
    }
  }

  lemma {:induction false} NothingPending(chain: seq<Migration>, t: Tenant)
    requires forall i :: 0 <= i < |chain| ==> chain[i].filename in t.versions
    ensures Pending(chain, t) == []
  {
    if chain != [] {
      NothingPending(chain[..|chain| - 1], t);
    }
  }

  /** What a worker that has come through n files leaves behind. */
  lemma {:induction false} DoneSoFar(db: Database, chain: seq<Migration>, t: Tenant, n: nat)
    requires n <= |chain| && Steps(db, chain, t, StartWorker(t), n).1.status.Running?
    ensures var (t1, w1) := Steps(db, chain, t, StartWorker(t), n);
            && w1.done == t.versions && w1.next == n
            && t1.ran == t.ran + Missing(chain[..n], t)
            && w1.applied == Names(Missing(chain[..n], t))
            && (forall f :: f in t.versions ==> f in t1.versions && t1.versions[f] == t.versions[f])
            && (forall i :: 0 <= i < n ==>
                  chain[i].filename in t1.versions && t1.versions[chain[i].filename] == chain[i].checksum)
  {
    if n > 0 {
      var (t1, w1) := Steps(db, chain, t, StartWorker(t), n - 1);
      DoneSoFar(db, chain, t, n - 1);
      assert chain[..n][..n - 1] == chain[..n - 1];
      assert t1.ran + [chain[n - 1]] == t.ran + (Missing(chain[..n - 1], t) + [chain[n - 1]]);
    }
  }

  /** Any run on any tenant that returns normally has applied exactly the files that were missing,
      in chain order; every recorded checksum of the chain is its file's, what else was recorded
      is unchanged, and the tenant is absent from the drift report. */
  lemma NormalReturnIsComplete(db: Database, chain: seq<Migration>, t: Tenant)
    requires Run(db, chain, t).1.status.Returned?
    ensures var (t', w) := Run(db, chain, t);
            && t'.ran == t.ran + Missing(chain, t)
            && w.applied == Pending(chain, t)
            && (forall i :: 0 <= i < |chain| ==>
                  chain[i].filename in t'.versions && t'.versions[chain[i].filename] == chain[i].checksum)
            && (forall f :: f in t.versions ==> f in t'.versions && t'.versions[f] == t.versions[f])
            && Pending(chain, t') == []
  {
    ProgressWhilePassing(db, chain, t, |chain|);
    DoneSoFar(db, chain, t, |chain|);
    assert chain[..|chain|] == chain;
    MissingArePending(chain, t);
    NothingPending(chain, Run(db, chain, t).0);
  }

  /** Only the extension side is checked for its prefix.  On an empty tenant and a database
      that accepts everything, the chain goes through exactly when its names are distinct. */
  lemma CollidingNamesStopTheChain(common: seq<Migration>, ext: seq<Migration>, t: Tenant)
    requires LoadExt(ext).Ok? && t == Tenant(map[], [])
    ensures Run(Database(_ => false, false), common + ext, t).1.status.Returned? <==> DistinctNames(common + ext)
  {
    var chain := common + ext;
    var db := Database(_ => false, false);
    ReturnsExactlyWhen(db, chain, t);
    if forall i :: 0 <= i < |chain| ==> Passes(db, chain, t.versions, i) {
      forall i, j | 0 <= i < j < |chain|
        ensures chain[i].filename != chain[j].filename
      {
        assert Passes(db, chain, t.versions, j);
      }
    }
  }

  // ---------------------------------------------------------------------------
  // Tenants side by side
  // ---------------------------------------------------------------------------

  /** One tenant of a fan-out: its database, chain, schema and the worker migrating it. */
  datatype Lane = Lane(db: Database, chain: seq<Migration>, tenant: Tenant, worker: Worker)

  function StepLane(l: Lane): Lane {
    var (t, w) := Step(l.db, l.chain, l.tenant, l.worker);
    l.(tenant := t, worker := w)
  }

  /** Any schedule of single steps: which tenant's worker moves next. */
  function FanOut(lanes: map<string, Lane>, schedule: seq<string>): map<string, Lane> {
    if schedule == [] then lanes
    else
      var before := FanOut(lanes, schedule[..|schedule| - 1]);
      var slug := schedule[|schedule| - 1];
      if slug in before then before[slug := StepLane(before[slug])] else before
  }

  function Turns(schedule: seq<string>, slug: string): nat {
    if schedule == [] then 0
    else Turns(schedule[..|schedule| - 1], slug) + if schedule[|schedule| - 1] == slug then 1 else 0
  }

  lemma {:induction false} LanesAreIndependent(lanes: map<string, Lane>, schedule: seq<string>, slug: string)
    requires slug in lanes
    ensures FanOut(lanes, schedule).Keys == lanes.Keys
    ensures var l := lanes[slug];
            var (t, w) := Steps(l.db, l.chain, l.tenant, l.worker, Turns(schedule, slug));
            FanOut(lanes, schedule)[slug] == l.(tenant := t, worker := w)
  {
    if schedule != [] {
      LanesAreIndependent(lanes, schedule[..|schedule| - 1], slug);
    }
  }

  ghost predicate AllFinished(lanes: map<string, Lane>) {
    forall slug :: slug in lanes ==> !lanes[slug].worker.status.Running?
  }

  /** Every interleaving that lets all workers finish ends in the same state as running the
      tenants one by one, and reports the same for each. */
  lemma InterleavingIsIrrelevant(lanes: map<string, Lane>, schedule: seq<string>)
    requires forall slug :: slug in lanes ==> lanes[slug].worker == StartWorker(lanes[slug].tenant)
    requires AllFinished(FanOut(lanes, schedule))
    ensures FanOut(lanes, schedule).Keys == lanes.Keys
    ensures forall slug :: slug in lanes ==>
              var l := lanes[slug];
              var (t, w) := Run(l.db, l.chain, l.tenant);
              FanOut(lanes, schedule)[slug] == l.(tenant := t, worker := w)
  {
    forall slug | slug in lanes
      ensures FanOut(lanes, schedule).Keys == lanes.Keys
      ensures var l := lanes[slug];
              var (t, w) := Run(l.db, l.chain, l.tenant);
              FanOut(lanes, schedule)[slug] == l.(tenant := t, worker := w)
    {
      var l := lanes[slug];
      LanesAreIndependent(lanes, schedule, slug);
      var n := Turns(schedule, slug);
      RunFinishes(l.db, l.chain, l.tenant);
      assert !FanOut(lanes, schedule)[slug].worker.status.Running?;
      if n <= |l.chain| + 1 {
        FinishedStays(l.db, l.chain, l.tenant, l.worker, n, |l.chain| + 1);
      } else {
        FinishedStays(l.db, l.chain, l.tenant, l.worker, |l.chain| + 1, n);
      }
    }
    if lanes == map[] {
      NoLanes(lanes, schedule);
    } else {
      var slug :| slug in lanes;
    }
  }

  lemma {:induction false} NoLanes(lanes: map<string, Lane>, schedule: seq<string>)
    requires lanes == map[]
    ensures FanOut(lanes, schedule) == lanes
  {
    if schedule != [] {
      NoLanes(lanes, schedule[..|schedule| - 1]);
    }
  }

  lemma RunFinishes(db: Database, chain: seq<Migration>, t: Tenant)
    ensures !Run(db, chain, t).1.status.Running?
  {
    ProgressWhilePassing(db, chain, t, |chain|);
  }
}
