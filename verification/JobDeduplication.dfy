/** The queue reliability migration: keys and heartbeats backfilled, duplicate active jobs resolved by
    rank, and then the unique partial index created. */
module JobDeduplication {
  import opened SqlLogic

  datatype Job = Job(
    entrypoint: string,
    contentId: Option<Option<string>>,   // payload ? 'content_id', and payload->>'content_id'
    idempotencyKey: Option<string>,
    status: string,
    createdAt: int,
    startedAt: Option<int>,
    completedAt: Option<int>,
    heartbeatAt: Option<int>,
    error: Option<string>)

  type Jobs = map<int, Job>

  const MIGRATION_ERROR := "Deduplicated during migration"

  function Coalesce<T>(a: Option<T>, b: Option<T>): (r: Option<T>) {
    if a.Some? then a else b
  }

  predicate Active(job: Job) {
    job.status in {"queued", "in_progress"}
  }

  /** In the window: active, with a key. */
  predicate Keyed(job: Job) {
    Active(job) && job.idempotencyKey.Some?
  }

  predicate SameGroup(a: Job, b: Job) {
    a.entrypoint == b.entrypoint && a.idempotencyKey == b.idempotencyKey
  }

  /** ORDER BY created_at ASC, id ASC */
  predicate Earlier(jobs: Jobs, a: int, b: int)
    requires a in jobs && b in jobs
  {
    jobs[a].createdAt < jobs[b].createdAt || (jobs[a].createdAt == jobs[b].createdAt && a < b)
  }

  ghost function Ahead(jobs: Jobs, id: int): (r: set<int>)
    requires id in jobs
  {
    set o | o in jobs && Keyed(jobs[o]) && SameGroup(jobs[o], jobs[id]) && Earlier(jobs, o, id)
  }

  /** ROW_NUMBER() over the group. */
  ghost function RowNumber(jobs: Jobs, id: int): (n: nat)
    requires id in jobs
  {
    1 + |Ahead(jobs, id)|
  }

  function BackfilledHeartbeat(job: Job): (r: Job) {
    if job.heartbeatAt.Some? then job
    else job.(heartbeatAt := Coalesce(job.startedAt, Coalesce(job.completedAt, Some(job.createdAt))))
  }

  function BackfilledKey(job: Job): (r: Job) {
    if job.idempotencyKey.None? && job.entrypoint in {"summarize_content", "extract_url_content"} && job.contentId.Some?
    then job.(idempotencyKey := Cat(Some(job.entrypoint + ":content_id:"), job.contentId.value))
    else job
  }

  /** Backfilled keys put two jobs of an entrypoint in one group exactly when they are about the
      same content. */
  lemma BackfilledKeysGroupByContent(a: Job, b: Job)
    requires a.idempotencyKey.None? && BackfilledKey(a).idempotencyKey.Some?
    requires b.idempotencyKey.None? && BackfilledKey(b).idempotencyKey.Some?
    ensures SameGroup(BackfilledKey(a), BackfilledKey(b)) <==> a.entrypoint == b.entrypoint && a.contentId == b.contentId
  {
    var prefix := a.entrypoint + ":content_id:";
    var x, y := a.contentId.value.value, b.contentId.value.value;
    assert (prefix + x)[|prefix|..] == x;
    assert (prefix + y)[|prefix|..] == y;
  }

  function Prepared(jobs: Jobs): (r: Jobs) {
    map id | id in jobs :: BackfilledKey(BackfilledHeartbeat(jobs[id]))
  }

  /** The backfills on the columns: the first time there is becomes the heartbeat, and a keyless job
      of the two content entrypoints gets its content id as key. */
  lemma PreparedColumns(jobs: Jobs, id: int)
    requires id in jobs
    ensures var (before, after) := (jobs[id], Prepared(jobs));
            && after.Keys == jobs.Keys
            && after[id] == before.(
                 heartbeatAt := if before.heartbeatAt.Some? then before.heartbeatAt
                                else if before.startedAt.Some? then before.startedAt
                                else if before.completedAt.Some? then before.completedAt
                                else Some(before.createdAt),
                 idempotencyKey :=
                   if before.idempotencyKey.None? && before.contentId.Some? && before.contentId.value.Some?
                      && (before.entrypoint == "summarize_content" || before.entrypoint == "extract_url_content")
                   then Some(before.entrypoint + ":content_id:" + before.contentId.value.value)
                   else before.idempotencyKey)
  {
  }

  /** The index on the columns. */
  lemma IndexOnColumns(jobs: Jobs)
    ensures IndexUnique(jobs) <==>
              forall a, b :: a in jobs && b in jobs && a < b
                             && jobs[a].status in {"queued", "in_progress"} && jobs[b].status in {"queued", "in_progress"}
                             && jobs[a].idempotencyKey.Some? && jobs[a].idempotencyKey == jobs[b].idempotencyKey ==>
                jobs[a].entrypoint != jobs[b].entrypoint
  {
    if !IndexUnique(jobs) {
      var a, b :| a in jobs && b in jobs && Keyed(jobs[a]) && Keyed(jobs[b]) && SameGroup(jobs[a], jobs[b]) && a != b;
      if b < a { assert jobs[b].entrypoint == jobs[a].entrypoint; }
    }
  }

  function Retired(job: Job, now: int): (r: Job) {
    job.(status := "failed", error := Coalesce(job.error, Some(MIGRATION_ERROR)),
         completedAt := Coalesce(job.completedAt, Some(now)), heartbeatAt := Coalesce(job.heartbeatAt, Some(now)))
  }

  ghost function Deduplicated(jobs: Jobs, now: int): (r: Jobs) {
    map id | id in jobs :: if Keyed(jobs[id]) && RowNumber(jobs, id) > 1 then Retired(jobs[id], now) else jobs[id]
  }

  /** What uq_pgqueuer_jobs_active_dedupe demands of the rows. */
  predicate IndexUnique(jobs: Jobs) {
    forall a, b | a in jobs && b in jobs && Keyed(jobs[a]) && Keyed(jobs[b]) && SameGroup(jobs[a], jobs[b]) :: a == b
  }

  // -----------------------------------------------------------------------------------------

  lemma FirstExactly(jobs: Jobs, id: int)
    requires id in jobs
    ensures RowNumber(jobs, id) == 1 <==> forall o :: o in jobs && Keyed(jobs[o]) && SameGroup(jobs[o], jobs[id]) ==> !Earlier(jobs, o, id)
  {
    if Ahead(jobs, id) == {} {
      forall o | o in jobs && Keyed(jobs[o]) && SameGroup(jobs[o], jobs[id]) ensures !Earlier(jobs, o, id) {
        assert o !in Ahead(jobs, id);
      }
    } else {
      var o :| o in Ahead(jobs, id);
      assert |Ahead(jobs, id)| > 0;
    }
  }

  lemma ProperSubsetSmaller(a: set<int>, b: set<int>)
    requires a < b
    ensures |a| < |b|
  {
    assert b == a + (b - a);
  }

  /** Going up the ranking from any job ends at the first of its group. */
  lemma {:induction false} GroupHasFirst(jobs: Jobs, id: int) returns (first: int)
    requires id in jobs && Keyed(jobs[id])
    ensures first in jobs && Keyed(jobs[first]) && SameGroup(jobs[first], jobs[id]) && RowNumber(jobs, first) == 1
    ensures first == id || Earlier(jobs, first, id)
    decreases RowNumber(jobs, id)
  {
    if Ahead(jobs, id) == {} {
      first := id;
    } else {
      var o :| o in Ahead(jobs, id);
      assert Ahead(jobs, o) <= Ahead(jobs, id) && o !in Ahead(jobs, o);
      ProperSubsetSmaller(Ahead(jobs, o), Ahead(jobs, id));
      first := GroupHasFirst(jobs, o);
    }
  }

  /** A job stays active exactly when it is the least of its group by (created_at, id). */
  lemma SurvivorIsLeast(jobs: Jobs, now: int, id: int)
    requires id in jobs && Keyed(jobs[id])
    ensures Keyed(Deduplicated(jobs, now)[id])
       <==> forall o :: o in jobs && Keyed(jobs[o]) && SameGroup(jobs[o], jobs[id]) ==> !Earlier(jobs, o, id)
  {
    hide RowNumber, SameGroup, Earlier;
    FirstExactly(jobs, id);
    RowNumberPositive(jobs, id);
  }

  /** The same on the columns: of the active jobs of one entrypoint and key, the one created first
      stays active, the smaller id breaking ties, and every other ends failed. */
  lemma {:induction false} EarliestSurvives(jobs: Jobs, now: int, id: int)
    requires id in jobs && jobs[id].status in {"queued", "in_progress"} && jobs[id].idempotencyKey.Some?
    ensures var after := Deduplicated(jobs, now);
            && id in after
            && (after[id].status in {"queued", "in_progress"} <==>
                  forall o :: o in jobs && jobs[o].status in {"queued", "in_progress"}
                              && jobs[o].entrypoint == jobs[id].entrypoint && jobs[o].idempotencyKey == jobs[id].idempotencyKey ==>
                    jobs[id].createdAt < jobs[o].createdAt || (jobs[id].createdAt == jobs[o].createdAt && id <= o))
            && (after[id].status !in {"queued", "in_progress"} ==> after[id].status == "failed")
  {
    hide RowNumber;
    FirstExactly(jobs, id);
    RowNumberPositive(jobs, id);
  }

  /** What the resolution leaves of every row: a job that is not active, has no key, or is the
      earliest of its key is untouched; any other is failed, with the error, completion time and
      heartbeat it had, or else the migration's. */
  lemma {:induction false} ResolvedColumns(jobs: Jobs, now: int, id: int)
    requires id in jobs
    ensures var (before, after) := (jobs[id], Deduplicated(jobs, now));
            var beaten := exists o :: o in jobs && jobs[o].status in {"queued", "in_progress"}
                                      && jobs[o].entrypoint == before.entrypoint && jobs[o].idempotencyKey == before.idempotencyKey
                                      && (jobs[o].createdAt < before.createdAt || (jobs[o].createdAt == before.createdAt && o < id));
            && after.Keys == jobs.Keys
            && after[id] == if before.status in {"queued", "in_progress"} && before.idempotencyKey.Some? && beaten
                            then before.(status := "failed",
                                         error := if before.error.Some? then before.error else Some("Deduplicated during migration"),
                                         completedAt := if before.completedAt.Some? then before.completedAt else Some(now),
                                         heartbeatAt := if before.heartbeatAt.Some? then before.heartbeatAt else Some(now))
                            else before
  {
    hide RowNumber;
    FirstExactly(jobs, id);
    RowNumberPositive(jobs, id);
  }

  /** So the unique partial index can always be created. */
  lemma {:induction false} IndexAlwaysCreatable(jobs: Jobs, now: int)
    ensures IndexUnique(Deduplicated(jobs, now))
  {
    hide RowNumber;
    var r := Deduplicated(jobs, now);
    forall a, b | a in r && b in r && Keyed(r[a]) && Keyed(r[b]) && SameGroup(r[a], r[b])
      ensures a == b
    {
      SurvivorIsLeast(jobs, now, a);
      SurvivorIsLeast(jobs, now, b);
      assert Keyed(jobs[a]) && Keyed(jobs[b]) && SameGroup(jobs[a], jobs[b]);
    }
  }

  /** Every group that had an active job still has one, and it is no later than any that left. */
  lemma EveryGroupSurvives(jobs: Jobs, now: int, id: int) returns (survivor: int)
    requires id in jobs && Keyed(jobs[id])
    ensures survivor in jobs && SameGroup(jobs[survivor], jobs[id]) && Keyed(Deduplicated(jobs, now)[survivor])
    ensures survivor == id || Earlier(jobs, survivor, id)
  {
    hide RowNumber;
    survivor := GroupHasFirst(jobs, id);
  }

  /** No row is lost, and a row that changes was active, loses only its activity, and says why. */
  lemma OnlyDuplicatesChange(jobs: Jobs, now: int, id: int)
    requires id in jobs
    ensures id in Deduplicated(jobs, now)
    ensures var (b, a) := (jobs[id], Deduplicated(jobs, now)[id]);
            a == b || (&& Keyed(b) && a.status == "failed" && a.error.Some? && a.completedAt.Some? && a.heartbeatAt.Some?
                       && (exists o :: o in jobs && Keyed(jobs[o]) && SameGroup(jobs[o], b) && Earlier(jobs, o, id))
                       && b == a.(status := b.status, error := b.error, completedAt := b.completedAt, heartbeatAt := b.heartbeatAt)
                       && (b.error.Some? ==> a.error == b.error) && (b.completedAt.Some? ==> a.completedAt == b.completedAt))
  {
    FirstExactly(jobs, id);
    RowNumberPositive(jobs, id);
  }

  lemma RowNumberPositive(jobs: Jobs, id: int)
    requires id in jobs
    ensures RowNumber(jobs, id) >= 1
  {
  }

  /** Rows that already satisfy the index have no duplicate to retire. */
  lemma {:induction false} NothingToRetire(jobs: Jobs, now: int)
    requires IndexUnique(jobs)
    ensures Deduplicated(jobs, now) == jobs
  {
    hide RowNumber;
    forall id | id in jobs && Keyed(jobs[id])
      ensures RowNumber(jobs, id) == 1
    {
      FirstExactly(jobs, id);
    }
  }

  // -----------------------------------------------------------------------------------------
  // Upgrading under an index that is already there

  predicate GainsKey(job: Job) {
    job.idempotencyKey.None? && BackfilledKey(job).idempotencyKey.Some?
  }

  /** Active job b has no key yet, and the key it is about to be given is that of active job a. */
  predicate Clash(jobs: Jobs, a: int, b: int) {
    && a in jobs && b in jobs && a != b && Active(jobs[a]) && Active(jobs[b])
    && jobs[a].entrypoint == jobs[b].entrypoint && GainsKey(jobs[b])
    && if jobs[a].idempotencyKey.None? then jobs[a].contentId == jobs[b].contentId
       else jobs[a].idempotencyKey == BackfilledKey(jobs[b]).idempotencyKey
  }

  lemma PreparedRow(job: Job)
    ensures var p := BackfilledKey(BackfilledHeartbeat(job));
            && p.entrypoint == job.entrypoint && p.status == job.status
            && p.idempotencyKey == BackfilledKey(job).idempotencyKey
    ensures job.idempotencyKey.Some? ==> BackfilledKey(job) == job
  {
  }

  /** The backfilled keys keep the index satisfied exactly when no active keyless job is about the
      content of another active job: one with the same content id, or one that holds its key. */
  lemma {:induction false} PreparedUniqueExactly(jobs: Jobs)
    requires IndexUnique(jobs)
    ensures IndexUnique(Prepared(jobs)) <==> forall a, b :: !Clash(jobs, a, b)
  {
    hide BackfilledKey, BackfilledHeartbeat;
    var p := Prepared(jobs);
    forall a, b | a in jobs && b in jobs && a != b
      ensures Keyed(p[a]) && Keyed(p[b]) && SameGroup(p[a], p[b]) <==> Clash(jobs, a, b) || Clash(jobs, b, a)
    {
      ClashExactly(jobs, a, b);
    }
    if a, b :| Clash(jobs, a, b) {
      assert a in p && b in p && Keyed(p[a]) && Keyed(p[b]) && SameGroup(p[a], p[b]);
    }
  }

  lemma {:induction false} ClashExactly(jobs: Jobs, a: int, b: int)
    requires IndexUnique(jobs) && a in jobs && b in jobs && a != b
    ensures var p := Prepared(jobs);
            (Keyed(p[a]) && Keyed(p[b]) && SameGroup(p[a], p[b])) <==> (Clash(jobs, a, b) || Clash(jobs, b, a))
  {
    PreparedRow(jobs[a]);
    PreparedRow(jobs[b]);
    if GainsKey(jobs[a]) && GainsKey(jobs[b]) {
      BackfilledKeysGroupByContent(jobs[a], jobs[b]);
    }
    hide BackfilledKey, BackfilledHeartbeat;
  }

  /** Two queued jobs of one content that have no keys: the index admits them, and the backfill
      makes them duplicates. */
  lemma KeylessTwinsClash()
    ensures var twin := Job("extract_url_content", Some(Some("7")), None, "queued", 0, None, None, None, None);
            var jobs := map[1 := twin, 2 := twin];
            IndexUnique(jobs) && !IndexUnique(Prepared(jobs))
  {
    var twin := Job("extract_url_content", Some(Some("7")), None, "queued", 0, None, None, None, None);
    var jobs := map[1 := twin, 2 := twin];
    assert GainsKey(twin);
    assert Clash(jobs, 1, 2);
    PreparedUniqueExactly(jobs);
  }

  // -----------------------------------------------------------------------------------------
  // The migration

  class JobsTable {
    var jobs: Jobs
    var indexed: bool

    predicate Valid()
      reads this
    {
      indexed ==> IndexUnique(jobs)
    }

    /** A row is beaten when an active row of its group precedes it. */
    predicate Beaten(id: int)
      requires id in jobs
      reads this
    {
      exists o | o in jobs :: Keyed(jobs[o]) && SameGroup(jobs[o], jobs[id]) && Earlier(jobs, o, id)
    }

    /** The effect of an UPDATE: rows that would repeat an indexed key refuse the statement. */
    method Write(updated: Jobs) returns (ok: bool)
      requires Valid()
      modifies this`jobs
      ensures ok <==> !indexed || IndexUnique(updated)
      ensures jobs == if ok then updated else old(jobs)
      ensures Valid()
    {
      ok := !indexed || IndexUnique(updated);
      if ok { jobs := updated; }
    }

    method Deduplicate(now: int) returns (ok: bool)
      requires Valid()
      modifies this`jobs
      ensures ok && jobs == Deduplicated(old(jobs), now) && IndexUnique(jobs)
    {
      hide RowNumber, Retired, Keyed, SameGroup, Earlier, IndexUnique;
      forall id | id in jobs ensures Beaten(id) <==> RowNumber(jobs, id) > 1 {
        FirstExactly(jobs, id);
        RowNumberPositive(jobs, id);
      }
      IndexAlwaysCreatable(jobs, now);
      var resolved := map id | id in jobs :: if Keyed(jobs[id]) && Beaten(id) then Retired(jobs[id], now) else jobs[id];
      assert resolved == Deduplicated(jobs, now);
      ok := Write(resolved);
    }

    /** CREATE UNIQUE INDEX, skipped when the index is there, fails on duplicates. */
    method CreateIndex() returns (ok: bool)
      requires Valid()
      modifies this`indexed
      ensures ok <==> IndexUnique(jobs)
      ensures indexed == (old(indexed) || ok) && Valid()
    {
      ok := indexed || forall a, b | a in jobs && b in jobs ::
              Keyed(jobs[a]) && Keyed(jobs[b]) && SameGroup(jobs[a], jobs[b]) ==> a == b;
      indexed := ok;
    }

    /** The three updates and the index in one transaction. Without the index the upgrade always
        succeeds; with it, exactly when the backfilled keys are unique, and then no job is retired. */
    method Upgrade(now: int) returns (ok: bool)
      requires Valid()
      modifies this
      ensures ok <==> !old(indexed) || IndexUnique(Prepared(old(jobs)))
      ensures ok ==> indexed && IndexUnique(jobs) && jobs == Deduplicated(Prepared(old(jobs)), now)
      ensures ok && old(indexed) ==> jobs == Prepared(old(jobs))
      ensures !ok ==> jobs == old(jobs) && indexed == old(indexed)
      ensures Valid()
    {
      hide Deduplicated, IndexUnique, BackfilledKey, BackfilledHeartbeat;
      var savepoint := jobs;
      HeartbeatsKeepKeys(jobs);
      ok := Write(map id | id in jobs :: BackfilledHeartbeat(jobs[id]));
      assert ok;
      ok := Write(map id | id in jobs :: BackfilledKey(jobs[id]));
      if !ok {
        assert Prepared(savepoint) == map id | id in jobs :: BackfilledKey(jobs[id]);
        jobs := savepoint;
        return;
      }
      assert jobs == Prepared(savepoint);
      if indexed { NothingToRetire(jobs, now); }
      ok := Deduplicate(now);
      ok := CreateIndex();
    }
  }

  lemma {:induction false} HeartbeatsKeepKeys(jobs: Jobs)
    ensures IndexUnique(jobs) ==> IndexUnique(map id | id in jobs :: BackfilledHeartbeat(jobs[id]))
  {
    var beats := map id | id in jobs :: BackfilledHeartbeat(jobs[id]);
    forall id | id in jobs
      ensures (Keyed(beats[id]) <==> Keyed(jobs[id])) && beats[id].entrypoint == jobs[id].entrypoint
      ensures beats[id].idempotencyKey == jobs[id].idempotencyKey
    {
    }
  }
}
