/** Writers and workers around the queue, interleaved in every possible way. */
module QueueProtocol {
  import opened Queue

  // A writer takes its ready_at when its transaction begins and becomes visible when it
  // commits; `lag` bounds the time in between.  A worker polls with an overlap window and a
  // LIMIT, then records executions from the front of the list it was given, and may die at
  // any point.  Failed transactions change nothing and so are no steps at all.

  datatype Config = Config(lag: nat, overlap: nat)

  datatype Worker = Worker(cursor: Cursor, versions: Versions, todo: seq<Batch>)

  /** One return from record_execution. */
  datatype Event = Event(batch: Batch, versions: Versions, facts: seq<Fact>, won: bool)

  datatype State = State(
    now: int,
    inFlight: set<Batch>,
    batches: seq<Batch>,
    gold: Gold,
    workers: map<nat, Worker>,
    history: seq<Event>)

  datatype Step =
    | Tick(d: nat)
    | Begin(b: Batch)
    | Commit(b: Batch)
    | Rollback(b: Batch)
    | Poll(w: nat, cursor: Cursor, versions: Versions, limit: nat, out: seq<Batch>)
    | RecordNext(w: nat, facts: seq<Fact>)
    | Die(w: nat)

  ghost predicate Initial(s: State) {
    && s.now >= EPOCH
    && s.inFlight == {} && s.batches == [] && s.gold == EMPTY_GOLD
    && s.workers == map[] && s.history == []
  }

  ghost predicate Enabled(c: Config, s: State, step: Step) {
    match step
    case Tick(d) => forall b :: b in s.inFlight ==> s.now + d <= b.readyAt + c.lag
    case Begin(b) =>
      && b.readyAt == s.now
      && (forall x :: x in s.inFlight ==> x.id != b.id)
      && (forall x :: x in s.batches ==> x.id != b.id)
    case Commit(b) => b in s.inFlight
    case Rollback(b) => b in s.inFlight
    case Poll(w, cursor, versions, limit, out) =>
      PollResult(s.batches, s.gold, cursor, versions, c.overlap, limit, out)
    case RecordNext(w, facts) => w in s.workers && s.workers[w].todo != []
    case Die(w) => w in s.workers
  }

  function Apply(s: State, step: Step): State {
    match step
    case Tick(d) => s.(now := s.now + d)
    case Begin(b) => s.(inFlight := s.inFlight + {b})
    case Commit(b) => s.(inFlight := s.inFlight - {b}, batches := s.batches + [b])
    case Rollback(b) => s.(inFlight := s.inFlight - {b})
    case Poll(w, cursor, versions, limit, out) => s.(workers := s.workers[w := Worker(cursor, versions, out)])
    case RecordNext(w, facts) =>
      if w in s.workers && s.workers[w].todo != [] then
        var me := s.workers[w];
        var (gold, won) := Record(s.gold, me.cursor.consumer, me.todo[0], me.versions, facts);
        s.(gold := gold,
           workers := s.workers[w := me.(todo := me.todo[1..])],
           history := s.history + [Event(me.todo[0], me.versions, facts, won)])
      else s
    case Die(w) => s.(workers := s.workers - {w})
  }

  function After(s: State, steps: seq<Step>): State
    decreases steps
  {
    if steps == [] then s else After(Apply(s, steps[0]), steps[1..])
  }

  ghost predicate IsRun(c: Config, s: State, steps: seq<Step>)
    decreases steps
  {
    steps == [] || (Enabled(c, s, steps[0]) && IsRun(c, Apply(s, steps[0]), steps[1..]))
  }

  /** Every worker of this consumer on this document type is pinned to the same versions. */
  ghost predicate PinnedTo(cursor: Cursor, v: Versions, steps: seq<Step>) {
    forall step :: step in steps && step.Poll? && step.cursor == cursor ==> step.versions == v
  }

  // ---------------------------------------------------------------------------
  // Completeness of polling
  // ---------------------------------------------------------------------------

  /** Nothing behind the overlap window is still waiting. */
  ghost predicate Complete(c: Config, s: State, cursor: Cursor, v: Versions) {
    forall b :: b in s.batches && b.ready && b.docType == cursor.docType
                && b.readyAt <= WatermarkOf(s.gold, cursor) - c.overlap
                ==> Executed(s.gold, b, v)
  }

  /** Every committed batch an overlap older than list[k] is executed or comes before it. */
  ghost predicate Covered(c: Config, s: State, cursor: Cursor, v: Versions, list: seq<Batch>) {
    forall k, b :: 0 <= k < |list| && b in s.batches && b.ready && b.docType == cursor.docType
                   && b.readyAt <= list[k].readyAt - c.overlap
                   ==> Executed(s.gold, b, v) || b in list[..k]
  }

  ghost predicate WorkerInv(c: Config, s: State, cursor: Cursor, v: Versions, me: Worker) {
    me.cursor == cursor && me.todo != [] ==> me.versions == v && Covered(c, s, cursor, v, me.todo)
  }

  ghost predicate ClockInv(c: Config, s: State, cursor: Cursor) {
    && EPOCH <= s.now
    && WatermarkOf(s.gold, cursor) <= s.now
    && (forall b :: b in s.batches ==> EPOCH <= b.readyAt <= s.now)
    && (forall b :: b in s.inFlight ==> EPOCH <= b.readyAt <= s.now <= b.readyAt + c.lag)
  }

  ghost predicate UniqueIds(s: State) {
    && Distinct(s.batches)
    && (forall a, b :: a in s.batches && b in s.batches && a.id == b.id ==> a == b)
    && (forall a, b :: a in s.inFlight && b in s.inFlight && a.id == b.id ==> a == b)
    && (forall a, b :: a in s.inFlight && b in s.batches ==> a.id != b.id)
  }

  /** A worker's list holds committed batches of its document type. */
  ghost predicate ListsInv(s: State) {
    forall w, b :: w in s.workers && b in s.workers[w].todo ==> b in s.batches && b.docType == s.workers[w].cursor.docType
  }

  /** What holds whatever versions the workers run under. */
  ghost predicate Basic(c: Config, s: State, cursor: Cursor) {
    UniqueIds(s) && ClockInv(c, s, cursor) && ListsInv(s)
  }

  ghost predicate Inv(c: Config, s: State, cursor: Cursor, v: Versions) {
    && Basic(c, s, cursor)
    && Complete(c, s, cursor, v)
    && (forall w :: w in s.workers ==> WorkerInv(c, s, cursor, v, s.workers[w]))
  }

  /** A list fresh from the poll is covered: whatever is an overlap older than one of its
      batches was eligible too, and the poll may not leave out the older of two. */
  lemma PollIsCovered(c: Config, s: State, cursor: Cursor, v: Versions, limit: nat, out: seq<Batch>)
    requires c.overlap > 0 && Complete(c, s, cursor, v)
    requires PollResult(s.batches, s.gold, cursor, v, c.overlap, limit, out)
    ensures Covered(c, s, cursor, v, out)
  {
    forall k, b | 0 <= k < |out| && b in s.batches && b.ready && b.docType == cursor.docType
                  && b.readyAt <= out[k].readyAt - c.overlap && !Executed(s.gold, b, v)
      ensures b in out[..k]
    {
      assert Eligible(s.gold, cursor, v, c.overlap, b);
      assert out[k] in out;
      var i :| 0 <= i < |out| && out[i] == b;
      assert i < k;
      assert out[..k][i] == b;
    }
  }

  /** A batch that becomes visible now is younger than any watermark or polled batch less
      the overlap: this is where the commit lag must be smaller than the window. */
  lemma CommitKeepsCover(c: Config, s: State, b: Batch, cursor: Cursor, v: Versions)
    requires Inv(c, s, cursor, v) && c.lag < c.overlap && b in s.inFlight
    ensures Complete(c, Apply(s, Commit(b)), cursor, v)
    ensures forall w :: w in s.workers ==> WorkerInv(c, Apply(s, Commit(b)), cursor, v, s.workers[w])
  {
    var s' := Apply(s, Commit(b));
    assert b.readyAt > s.now - c.overlap;
    forall w | w in s.workers
      ensures WorkerInv(c, s', cursor, v, s.workers[w])
    {
      var me := s.workers[w];
      assert forall k :: 0 <= k < |me.todo| ==> me.todo[k] in s.workers[w].todo && me.todo[k].readyAt <= s.now;
    }
  }

  lemma RecordKeepsComplete(c: Config, s: State, w: nat, facts: seq<Fact>, cursor: Cursor, v: Versions)
    requires Inv(c, s, cursor, v) && Enabled(c, s, RecordNext(w, facts))
    ensures Complete(c, Apply(s, RecordNext(w, facts)), cursor, v)
  {
    var me := s.workers[w];
    var s' := Apply(s, RecordNext(w, facts));
    forall b | b in s'.batches && b.ready && b.docType == cursor.docType
               && b.readyAt <= WatermarkOf(s'.gold, cursor) - c.overlap
      ensures Executed(s'.gold, b, v)
    {
      if WatermarkOf(s'.gold, cursor) != WatermarkOf(s.gold, cursor) {
        assert me.todo[0] in me.todo;
        assert me.cursor == cursor && WatermarkOf(s'.gold, cursor) == me.todo[0].readyAt;
        assert b !in me.todo[..0];
      }
    }
  }

  /** What executing the head of a covered list leaves is covered. */
  lemma TailIsCovered(c: Config, s: State, s': State, cursor: Cursor, v: Versions, list: seq<Batch>)
    requires list != [] && Covered(c, s, cursor, v, list) && s'.batches == s.batches
    requires forall b :: Executed(s.gold, b, v) ==> Executed(s'.gold, b, v)
    requires Executed(s'.gold, list[0], v)
    ensures Covered(c, s', cursor, v, list[1..])
  {
    var rest := list[1..];
    forall k, b | 0 <= k < |rest| && b in s'.batches && b.ready && b.docType == cursor.docType
                  && b.readyAt <= rest[k].readyAt - c.overlap && !Executed(s'.gold, b, v)
      ensures b in rest[..k]
    {
      assert rest[k] == list[k + 1];
      assert list[..k + 1] == [list[0]] + rest[..k];
    }
  }

  lemma StaysCovered(c: Config, s: State, s': State, cursor: Cursor, v: Versions, me: Worker)
    requires WorkerInv(c, s, cursor, v, me) && s'.batches == s.batches
    requires forall b :: Executed(s.gold, b, v) ==> Executed(s'.gold, b, v)
    ensures WorkerInv(c, s', cursor, v, me)
  {
  }

  lemma RecordOnlyAdds(c: Config, s: State, w: nat, facts: seq<Fact>)
    requires Enabled(c, s, RecordNext(w, facts))
    ensures var s', me := Apply(s, RecordNext(w, facts)), s.workers[w];
            && s'.batches == s.batches
            && (forall b, v :: Executed(s.gold, b, v) ==> Executed(s'.gold, b, v))
            && Executed(s'.gold, me.todo[0], me.versions)
            && s'.workers == s.workers[w := me.(todo := me.todo[1..])]
  {
  }

  lemma RecordKeepsWorkers(c: Config, s: State, w: nat, facts: seq<Fact>, cursor: Cursor, v: Versions)
    requires Inv(c, s, cursor, v) && Enabled(c, s, RecordNext(w, facts))
    ensures var s' := Apply(s, RecordNext(w, facts));
            forall u :: u in s'.workers ==> WorkerInv(c, s', cursor, v, s'.workers[u])
  {
    var s' := Apply(s, RecordNext(w, facts));
    var me := s.workers[w];
    RecordOnlyAdds(c, s, w, facts);
    forall u | u in s'.workers
      ensures WorkerInv(c, s', cursor, v, s'.workers[u])
    {
      if u == w {
        assert forall b :: b in me.todo[1..] ==> b in me.todo;
        if me.cursor == cursor {
          TailIsCovered(c, s, s', cursor, v, me.todo);
        }
      } else {
        StaysCovered(c, s, s', cursor, v, s.workers[u]);
      }
    }
  }

  lemma StepKeepsBasic(c: Config, s: State, step: Step, cursor: Cursor)
    requires Basic(c, s, cursor) && Enabled(c, s, step)
    ensures Basic(c, Apply(s, step), cursor)
  {
    match step
    case Tick(d) =>
    case Begin(b) =>
    case Commit(b) =>
    case Rollback(b) =>
    case Poll(w, cur, versions, limit, out) =>
    case RecordNext(w, facts) =>
      var me := s.workers[w];
      assert me.todo[0] in me.todo && me.todo[0] in s.batches;
      assert forall b :: b in me.todo[1..] ==> b in me.todo;
    case Die(w) =>
  }

  lemma {:induction false} RunKeepsBasic(c: Config, s: State, steps: seq<Step>, cursor: Cursor)
    requires Basic(c, s, cursor) && IsRun(c, s, steps)
    ensures Basic(c, After(s, steps), cursor)
    decreases steps
  {
    if steps != [] {
      StepKeepsBasic(c, s, steps[0], cursor);
      RunKeepsBasic(c, Apply(s, steps[0]), steps[1..], cursor);
    }
  }

  /** A worker's knowledge depends only on the batches and on what Gold says is executed. */
  lemma SameTablesSameWorkers(c: Config, s: State, s': State, cursor: Cursor, v: Versions)
    requires s'.batches == s.batches && s'.gold == s.gold && Complete(c, s, cursor, v)
    ensures Complete(c, s', cursor, v)
    ensures forall me :: WorkerInv(c, s, cursor, v, me) ==> WorkerInv(c, s', cursor, v, me)
  {
  }

  lemma StepKeepsInv(c: Config, s: State, step: Step, cursor: Cursor, v: Versions)
    requires c.lag < c.overlap && Inv(c, s, cursor, v) && Enabled(c, s, step)
    requires step.Poll? && step.cursor == cursor ==> step.versions == v
    ensures Inv(c, Apply(s, step), cursor, v)
  {
    StepKeepsBasic(c, s, step, cursor);
    match step
    case Commit(b) => CommitKeepsCover(c, s, b, cursor, v);
    case RecordNext(w, facts) =>
      RecordKeepsComplete(c, s, w, facts, cursor, v);
      RecordKeepsWorkers(c, s, w, facts, cursor, v);
    case Poll(w, cur, versions, limit, out) =>
      if cur == cursor {
        PollIsCovered(c, s, cursor, v, limit, out);
      }
      SameTablesSameWorkers(c, s, Apply(s, step), cursor, v);
    case _ =>
      SameTablesSameWorkers(c, s, Apply(s, step), cursor, v);
  }

  lemma {:induction false} RunKeepsInv(c: Config, s: State, steps: seq<Step>, cursor: Cursor, v: Versions)
    requires c.lag < c.overlap && Inv(c, s, cursor, v) && IsRun(c, s, steps) && PinnedTo(cursor, v, steps)
    ensures Inv(c, After(s, steps), cursor, v)
    decreases steps
  {
    if steps != [] {
      assert steps[0] in steps;
      StepKeepsInv(c, s, steps[0], cursor, v);
      RunKeepsInv(c, Apply(s, steps[0]), steps[1..], cursor, v);
    }
  }

  /** In every reachable state, a batch at or behind the overlap window has been executed. */
  lemma PollingIsComplete(c: Config, s: State, steps: seq<Step>, cursor: Cursor, v: Versions)
    requires c.lag < c.overlap && Initial(s) && IsRun(c, s, steps) && PinnedTo(cursor, v, steps)
    ensures Complete(c, After(s, steps), cursor, v)
  {
    RunKeepsInv(c, s, steps, cursor, v);
  }

  /** So no committed batch is ever lost: until it is executed the poll predicate still
      accepts it, the poll returns nothing exactly when nothing is left, and otherwise what
      it returns first is a batch than which no waiting batch is older. */
  lemma NoBatchIsLost(c: Config, s: State, steps: seq<Step>, cursor: Cursor, v: Versions,
                      limit: nat, out: seq<Batch>)
    requires c.lag < c.overlap && Initial(s) && IsRun(c, s, steps) && PinnedTo(cursor, v, steps)
    requires limit > 0
    requires PollResult(After(s, steps).batches, After(s, steps).gold, cursor, v, c.overlap, limit, out)
    ensures var s' := After(s, steps);
            && (forall b :: b in s'.batches && b.ready && b.docType == cursor.docType ==>
                  (Eligible(s'.gold, cursor, v, c.overlap, b) <==> !Executed(s'.gold, b, v)))
            && (out == [] <==> forall b :: b in s'.batches && b.ready && b.docType == cursor.docType ==>
                                 Executed(s'.gold, b, v))
            && (out != [] ==>
                  forall b :: b in s'.batches && b.ready && b.docType == cursor.docType && !Executed(s'.gold, b, v) ==>
                    out[0].readyAt <= b.readyAt)
  {
    PollingIsComplete(c, s, steps, cursor, v);
    var s' := After(s, steps);
    assert forall b :: b in s'.batches && b.ready && b.docType == cursor.docType ==>
             (Eligible(s'.gold, cursor, v, c.overlap, b) <==> !Executed(s'.gold, b, v));
    if out != [] {
      assert out[0] in out;
      assert !Executed(s'.gold, out[0], v);
    }
  }

  // ---------------------------------------------------------------------------
  // Both timing assumptions are needed
  // ---------------------------------------------------------------------------

  /** A run in which a writer commits exactly `overlap` after its ready_at. */
  ghost function LateCommit(c: Config, cursor: Cursor, v: Versions): seq<Step> {
    var late := Batch(0, cursor.docType, true, EPOCH, 0);
    var prompt := Batch(1, cursor.docType, true, EPOCH + c.overlap, 0);
    [Begin(late), Tick(c.overlap), Begin(prompt), Commit(prompt),
     Poll(0, cursor, v, 1, [prompt]), RecordNext(0, []), Commit(late)]
  }

  const START := State(EPOCH, {}, [], EMPTY_GOLD, map[], [])

  lemma LateCommitIsLost(c: Config, cursor: Cursor, v: Versions)
    requires 0 < c.overlap <= c.lag
    ensures IsRun(c, START, LateCommit(c, cursor, v)) && PinnedTo(cursor, v, LateCommit(c, cursor, v))
    ensures !Complete(c, After(START, LateCommit(c, cursor, v)), cursor, v)
  {
    var steps := LateCommit(c, cursor, v);
    var late, prompt := steps[0].b, steps[2].b;
    var s1 := Apply(START, steps[0]);
    var s2 := Apply(s1, steps[1]);
    var s3 := Apply(s2, steps[2]);
    var s4 := Apply(s3, steps[3]);
    var s5 := Apply(s4, steps[4]);
    var s6 := Apply(s5, steps[5]);
    var s7 := Apply(s6, steps[6]);
    RunOfSeven(c, START, steps);
    assert s4.batches == [prompt];
    assert late in s6.inFlight;
    assert late in s7.batches && !Executed(s7.gold, late, v);
  }

  lemma RunOfSeven(c: Config, s: State, steps: seq<Step>)
    requires |steps| == 7
    ensures var s1 := Apply(s, steps[0]); var s2 := Apply(s1, steps[1]); var s3 := Apply(s2, steps[2]);
            var s4 := Apply(s3, steps[3]); var s5 := Apply(s4, steps[4]); var s6 := Apply(s5, steps[5]);
            && After(s, steps) == Apply(s6, steps[6])
            && (IsRun(c, s, steps) <==>
                 && Enabled(c, s, steps[0]) && Enabled(c, s1, steps[1]) && Enabled(c, s2, steps[2])
                 && Enabled(c, s3, steps[3]) && Enabled(c, s4, steps[4]) && Enabled(c, s5, steps[5])
                 && Enabled(c, s6, steps[6]))
  {
    var t1 := steps[1..]; var t2 := t1[1..]; var t3 := t2[1..]; var t4 := t3[1..]; var t5 := t4[1..]; var t6 := t5[1..];
    assert t6[1..] == [];
    var s1 := Apply(s, steps[0]); var s2 := Apply(s1, steps[1]); var s3 := Apply(s2, steps[2]);
    var s4 := Apply(s3, steps[3]); var s5 := Apply(s4, steps[4]); var s6 := Apply(s5, steps[5]);
    assert After(s6, t6) == Apply(s6, steps[6]);
    assert After(s5, t5) == After(s6, t6);
    assert After(s4, t4) == After(s5, t5);
    assert After(s3, t3) == After(s4, t4);
    assert After(s2, t2) == After(s3, t3);
    assert After(s1, t1) == After(s2, t2);
    assert IsRun(c, s6, t6) <==> Enabled(c, s6, steps[6]);
    assert IsRun(c, s5, t5) <==> Enabled(c, s5, steps[5]) && IsRun(c, s6, t6);
    assert IsRun(c, s4, t4) <==> Enabled(c, s4, steps[4]) && IsRun(c, s5, t5);
    assert IsRun(c, s3, t3) <==> Enabled(c, s3, steps[3]) && IsRun(c, s4, t4);
    assert IsRun(c, s2, t2) <==> Enabled(c, s2, steps[2]) && IsRun(c, s3, t3);
    assert IsRun(c, s1, t1) <==> Enabled(c, s1, steps[1]) && IsRun(c, s2, t2);
  }

  /** The window works exactly when it is longer than every commit lag. */
  lemma OverlapMustExceedLag(c: Config, cursor: Cursor, v: Versions)
    requires c.overlap > 0
    ensures (forall s, steps :: Initial(s) && IsRun(c, s, steps) && PinnedTo(cursor, v, steps) ==>
               Complete(c, After(s, steps), cursor, v))
            <==> c.lag < c.overlap
  {
    if c.lag < c.overlap {
      forall s, steps | Initial(s) && IsRun(c, s, steps) && PinnedTo(cursor, v, steps)
        ensures Complete(c, After(s, steps), cursor, v)
      {
        PollingIsComplete(c, s, steps, cursor, v);
      }
    } else {
      LateCommitIsLost(c, cursor, v);
      assert Initial(START);
    }
  }

  /** No worker of the consumer on the document type holds a list. */
  ghost predicate Idle(s: State, cursor: Cursor) {
    forall w :: w in s.workers && s.workers[w].cursor == cursor ==> s.workers[w].todo == []
  }

  /** The watermark has no version columns.  Whatever ran before, under whatever versions: once
      the old lists are worked off, all that follows under `w` is complete exactly when no READY
      batch at or behind the window is unexecuted under `w` at that moment. */
  lemma VersionBumpIsSafeWhen(c: Config, s: State, before: seq<Step>, cursor: Cursor, w: Versions)
    requires c.lag < c.overlap && Initial(s) && IsRun(c, s, before) && Idle(After(s, before), cursor)
    ensures (forall steps :: IsRun(c, After(s, before), steps) && PinnedTo(cursor, w, steps) ==>
               Complete(c, After(After(s, before), steps), cursor, w))
            <==> Complete(c, After(s, before), cursor, w)
  {
    var bump := After(s, before);
    RunKeepsBasic(c, s, before, cursor);
    if Complete(c, bump, cursor, w) {
      forall steps | IsRun(c, bump, steps) && PinnedTo(cursor, w, steps)
        ensures Complete(c, After(bump, steps), cursor, w)
      {
        RunKeepsInv(c, bump, steps, cursor, w);
      }
    }
    assert IsRun(c, bump, []) && PinnedTo(cursor, w, []) && After(bump, []) == bump;
  }

  /** Behind the window, not executed under `w` and on no list of a worker under `w`. */
  ghost predicate Lost(c: Config, s: State, cursor: Cursor, w: Versions, b: Batch) {
    && b in s.batches && b.docType == cursor.docType
    && b.readyAt <= WatermarkOf(s.gold, cursor) - c.overlap
    && !Executed(s.gold, b, w)
    && forall u :: u in s.workers && s.workers[u].versions == w ==> b !in s.workers[u].todo
  }

  /** Only this consumer works under `w`. */
  ghost predicate SoleUser(cursor: Cursor, w: Versions, steps: seq<Step>) {
    forall step :: step in steps && step.Poll? && step.versions == w && step.cursor.docType == cursor.docType ==>
      step.cursor == cursor
  }

  lemma StepKeepsLost(c: Config, s: State, step: Step, cursor: Cursor, w: Versions, b: Batch)
    requires Basic(c, s, cursor) && Enabled(c, s, step) && Lost(c, s, cursor, w, b)
    requires step.Poll? && step.versions == w && step.cursor.docType == cursor.docType ==> step.cursor == cursor
    ensures Lost(c, Apply(s, step), cursor, w, b)
  {
    if step.RecordNext? {
      var me := s.workers[step.w];
      assert me.todo[0] in me.todo && (me.todo[0].id == b.id ==> me.todo[0] == b);
      assert forall x :: x in me.todo[1..] ==> x in me.todo;
    }
  }

  /** While no other consumer runs under `w`, a batch lost at the bump is never executed under
      `w`: no later poll makes up for it. */
  lemma {:induction false} BacklogStaysLost(c: Config, s: State, steps: seq<Step>, cursor: Cursor, w: Versions, b: Batch)
    requires Basic(c, s, cursor) && IsRun(c, s, steps) && SoleUser(cursor, w, steps) && Lost(c, s, cursor, w, b)
    ensures Lost(c, After(s, steps), cursor, w, b)
    decreases steps
  {
    if steps != [] {
      assert steps[0] in steps;
      StepKeepsBasic(c, s, steps[0], cursor);
      StepKeepsLost(c, s, steps[0], cursor, w, b);
      BacklogStaysLost(c, Apply(s, steps[0]), steps[1..], cursor, w, b);
    }
  }

  /** A run under `v` after which a bump is not safe.  After a bump from `v` to `w`, a batch behind the
      window was never executed under `w` and no poll under `w` can return it. */
  ghost function VersionBump(c: Config, cursor: Cursor, v: Versions): seq<Step> {
    var aged := Batch(0, cursor.docType, true, EPOCH, 0);
    var recent := Batch(1, cursor.docType, true, EPOCH + c.overlap, 0);
    [Begin(aged), Commit(aged), Tick(c.overlap), Begin(recent), Commit(recent),
     Poll(0, cursor, v, 2, [aged, recent]), RecordNext(0, []), RecordNext(0, [])]
  }

  lemma VersionBumpLosesBacklog(c: Config, cursor: Cursor, v: Versions, w: Versions)
    requires 0 < c.overlap && v != w
    ensures IsRun(c, START, VersionBump(c, cursor, v)) && PinnedTo(cursor, v, VersionBump(c, cursor, v))
    ensures var s := After(START, VersionBump(c, cursor, v));
            exists b :: b in s.batches && b.ready && b.docType == cursor.docType
                        && !Executed(s.gold, b, w) && !Eligible(s.gold, cursor, w, c.overlap, b)
  {
    var steps := VersionBump(c, cursor, v);
    var aged, recent := steps[0].b, steps[3].b;
    var s1 := Apply(START, steps[0]);
    RunOfSeven(c, s1, steps[1..]);
    var s2 := Apply(s1, steps[1]);
    var s3 := Apply(s2, steps[2]);
    var s4 := Apply(s3, steps[3]);
    var s5 := Apply(s4, steps[4]);
    var s6 := Apply(s5, steps[5]);
    var s7 := Apply(s6, steps[6]);
    var s8 := Apply(s7, steps[7]);
    assert s5.batches == [aged, recent];
    assert aged in s8.batches && s7.workers[0].todo == [recent];
    assert !Executed(s8.gold, aged, w) && !Eligible(s8.gold, cursor, w, c.overlap, aged);
  }

  /** Running under one version tuple completes another exactly when they are the same. */
  lemma CompleteForOneVersionOnly(c: Config, cursor: Cursor, v: Versions, w: Versions)
    requires c.lag < c.overlap
    ensures (forall s, steps :: Initial(s) && IsRun(c, s, steps) && PinnedTo(cursor, v, steps) ==>
               Complete(c, After(s, steps), cursor, w))
            <==> v == w
  {
    if v == w {
      forall s, steps | Initial(s) && IsRun(c, s, steps) && PinnedTo(cursor, v, steps)
        ensures Complete(c, After(s, steps), cursor, w)
      {
        PollingIsComplete(c, s, steps, cursor, v);
      }
    } else {
      VersionBumpLosesBacklog(c, cursor, v, w);
      assert Initial(START);
      assert !Complete(c, After(START, VersionBump(c, cursor, v)), cursor, w);
    }
  }

  // ---------------------------------------------------------------------------
  // Exactly-once recording
  // ---------------------------------------------------------------------------

  /** The fact rows of the winning executions, in the order they won. */
  function WinnersFacts(history: seq<Event>): seq<FactRow> {
    if history == [] then []
    else
      var e := history[|history| - 1];
      WinnersFacts(history[..|history| - 1]) + if e.won then FactRows(e.batch, e.versions, e.facts) else []
  }

  ghost predicate Won(history: seq<Event>, i: int, key: ExecutionKey) {
    0 <= i < |history| && history[i].won && ExecutionKey(history[i].batch.id, history[i].versions) == key
  }

  ghost predicate Recorded(s: State) {
    && s.gold.facts == WinnersFacts(s.history)
    && (forall key :: key in s.gold.executions <==> exists i :: Won(s.history, i, key))
    && (forall i, j, key :: Won(s.history, i, key) && Won(s.history, j, key) ==> i == j)
  }

  lemma StepKeepsRecorded(c: Config, s: State, step: Step)
    requires Recorded(s) && Enabled(c, s, step)
    ensures Recorded(Apply(s, step))
    ensures s.history <= Apply(s, step).history
    ensures forall cursor :: cursor in s.gold.watermarks ==>
              cursor in Apply(s, step).gold.watermarks
              && WatermarkOf(s.gold, cursor) <= WatermarkOf(Apply(s, step).gold, cursor)
  {
    if step.RecordNext? {
      var s' := Apply(s, step);
      var n := |s.history|;
      var e := s'.history[n];
      var mine := ExecutionKey(e.batch.id, e.versions);
      assert s'.history[..n] == s.history;
      assert forall i, key :: i != n ==> (Won(s'.history, i, key) <==> Won(s.history, i, key));
      assert Won(s'.history, n, mine) <==> e.won;
      forall key
        ensures key in s'.gold.executions <==> exists i :: Won(s'.history, i, key)
      {
        if i :| Won(s.history, i, key) {
          assert Won(s'.history, i, key);
        }
      }
    }
  }

  lemma {:induction false} RunKeepsRecorded(c: Config, s: State, steps: seq<Step>)
    requires Recorded(s) && IsRun(c, s, steps)
    ensures Recorded(After(s, steps))
    ensures s.history <= After(s, steps).history
    ensures forall cursor :: cursor in s.gold.watermarks ==>
              WatermarkOf(s.gold, cursor) <= WatermarkOf(After(s, steps).gold, cursor)
    decreases steps
  {
    if steps != [] {
      StepKeepsRecorded(c, s, steps[0]);
      RunKeepsRecorded(c, Apply(s, steps[0]), steps[1..]);
    }
  }

  lemma InitiallyRecorded(s: State)
    requires Initial(s)
    ensures Recorded(s)
  {
    assert forall i, key :: !Won(s.history, i, key);
  }

  /** Over every interleaving: at most one call per (batch, versions) returns True, an
      execution row exists exactly for those, fact_record is exactly the winners' lists in
      order (a loser adds nothing), and no watermark ever moves back. */
  lemma RecordingIsExactlyOnce(c: Config, s: State, steps: seq<Step>, more: seq<Step>)
    requires Initial(s) && IsRun(c, s, steps) && IsRun(c, After(s, steps), more)
    ensures Recorded(After(s, steps))
    ensures After(s, steps).history <= After(After(s, steps), more).history
    ensures forall cursor :: cursor in After(s, steps).gold.watermarks ==>
              WatermarkOf(After(s, steps).gold, cursor) <= WatermarkOf(After(After(s, steps), more).gold, cursor)
  {
    InitiallyRecorded(s);
    RunKeepsRecorded(c, s, steps);
    RunKeepsRecorded(c, After(s, steps), more);
  }

  /** What a row of fact_record tells: two executions that recorded something leave the same rows
      exactly when batch, facts, rule catalogue and corpus agree.  The tenant pack is not told. */
  lemma TenantPackIsNotOnTheFact(b: Batch, v: Versions, facts: seq<Fact>, b': Batch, v': Versions, facts': seq<Fact>)
    requires facts != []
    ensures FactRows(b, v, facts) == FactRows(b', v', facts')
            <==> b.id == b'.id && facts == facts' && v.ruleCatalog == v'.ruleCatalog && v.corpus == v'.corpus
  {
    var rows, rows' := FactRows(b, v, facts), FactRows(b', v', facts');
    if rows == rows' {
      assert |facts| == |facts'| && rows[0] == rows'[0];
      forall i | 0 <= i < |facts| ensures facts[i] == facts'[i] {
        assert rows[i] == rows'[i];
      }
    }
  }
}
