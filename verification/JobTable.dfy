/** The `jobs` table shared by `LocalStore` and `PgStore`, one function per SQL
    statement.  Times are whole seconds: both stores keep them as text whose
    order is the order of the instants (`Timestamps.TextOrderIsTimeOrder`). */
module JobTable {
  import opened Options
  import opened Blobs
  import opened FiniteSets
  import opened Text

  type JobId = string
  type NodeId = string

  datatype Status = Queued | Running | Done | Error | Interrupted

  datatype Mode = Auto | Force

  datatype Job = Job(
    key: CacheKey,
    status: Status,
    mode: Mode,
    error: Option<string>,
    requestedBy: string,
    createdAt: int,
    startedAt: Option<int>,
    finishedAt: Option<int>,
    durationMs: Option<int>,
    claimedBy: Option<NodeId>)

  type Table = map<JobId, Job>

  /** The row `RenderQueue.submit` builds. */
  function NewJob(key: CacheKey, mode: Mode, requestedBy: string, createdAt: int): Job {
    Job(key, Queued, mode, None, requestedBy, createdAt, None, None, None, None)
  }

  predicate Active(job: Job) {
    job.status.Queued? || job.status.Running?
  }

  predicate Terminal(status: Status) {
    status.Done? || status.Error? || status.Interrupted?
  }

  /** How far a job has come; `finish_job` may overwrite `interrupted`. */
  function Rank(status: Status): nat {
    match status
    case Queued => 0
    case Running => 1
    case Interrupted => 2
    case Done => 3
    case Error => 3
  }

  ghost predicate ActiveFor(jobs: Table, key: CacheKey, id: JobId) {
    id in jobs && Active(jobs[id]) && jobs[id].key == key
  }

  ghost predicate HasActive(jobs: Table, key: CacheKey) {
    exists id :: ActiveFor(jobs, key, id)
  }

  ghost predicate SingleFlight(jobs: Table) {
    forall i, j ::
      i in jobs && j in jobs && Active(jobs[i]) && Active(jobs[j]) && jobs[i].key == jobs[j].key ==> i == j
  }

  /** No row of `jobs` meeting the `WHERE` of a claim was created before `id`. */
  ghost predicate OldestQueued(jobs: Table, id: JobId) {
    && id in jobs && jobs[id].status.Queued?
    && forall i :: i in jobs && jobs[i].status.Queued? ==> jobs[id].createdAt <= jobs[i].createdAt
  }

  function Claimed(jobs: Table, id: JobId, at: int, node: NodeId): Table
    requires id in jobs
  {
    jobs[id := jobs[id].(status := Running, startedAt := Some(at), claimedBy := Some(node))]
  }

  /** Unconditional on the old status, and nothing when the id is unknown. */
  function Finished(jobs: Table, id: JobId, status: Status, error: Option<string>, durationMs: Option<int>, at: int)
    : Table
  {
    if id in jobs then
      jobs[id := jobs[id].(status := status, error := error, durationMs := durationMs, finishedAt := Some(at))]
    else jobs
  }

  predicate InterruptedBy(job: Job, owner: Option<NodeId>) {
    Active(job) && (owner.None? || job.claimedBy == owner)
  }

  function WithInterrupted(jobs: Table, owner: Option<NodeId>, at: int): Table {
    map id | id in jobs ::
      if InterruptedBy(jobs[id], owner) then jobs[id].(status := Interrupted, finishedAt := Some(at)) else jobs[id]
  }

  /** `started_at < cutoff`: false for a NULL `started_at`. */
  predicate Stale(job: Job, cutoff: int) {
    job.status.Running? && job.startedAt.Some? && job.startedAt.value < cutoff
  }

  function Reaped(jobs: Table, cutoff: int, at: int): Table {
    map id | id in jobs ::
      if Stale(jobs[id], cutoff) then jobs[id].(status := Interrupted, finishedAt := Some(at)) else jobs[id]
  }

  /** Rows are never deleted and keep their key. */
  ghost predicate Evolves(jobs: Table, jobs': Table) {
    forall id :: id in jobs ==> id in jobs' && jobs'[id].key == jobs[id].key
  }

  /** `MAX(created_at)` over the key's jobs. */
  ghost predicate IsLastActivity(jobs: Table, key: CacheKey, last: Option<int>) {
    && (last.None? <==> forall i :: i in jobs ==> jobs[i].key != key)
    && (last.Some? ==>
          && (exists i :: i in jobs && jobs[i].key == key && jobs[i].createdAt == last.value)
          && (forall i :: i in jobs && jobs[i].key == key ==> jobs[i].createdAt <= last.value))
  }

  /** `ORDER BY created_at`. */
  predicate NoLater(jobs: Table, i: JobId, j: JobId) {
    i in jobs && j in jobs && jobs[i].createdAt <= jobs[j].createdAt
  }

  /** `ORDER BY created_at LIMIT 1` over some rows. */
  predicate OldestOf(jobs: Table, ids: set<JobId>, id: JobId) {
    id in ids && forall i :: i in ids ==> NoLater(jobs, id, i)
  }

  lemma OldestExists(jobs: Table, ids: set<JobId>)
    requires ids != {} && ids <= jobs.Keys
    ensures exists id :: OldestOf(jobs, ids, id)
  {
    var le := (i, j) => NoLater(jobs, i, j);
    FirstExists(ids, le);
    var id :| First(ids, le, id);
    assert OldestOf(jobs, ids, id);
  }

  lemma OldestQueuedExists(jobs: Table, some: JobId)
    requires some in jobs && jobs[some].status.Queued?
    ensures exists id :: OldestQueued(jobs, id)
  {
    var queued := set i | i in jobs && jobs[i].status.Queued?;
    assert some in queued;
    OldestExists(jobs, queued);
    var id :| OldestOf(jobs, queued, id);
    forall i | i in jobs && jobs[i].status.Queued?
      ensures jobs[id].createdAt <= jobs[i].createdAt
    {
      assert i in queued;
    }
    assert OldestQueued(jobs, id);
  }

  /** `i` comes before `j` in `ORDER BY created_at DESC, id DESC`. */
  predicate Newer(jobs: Table, i: JobId, j: JobId)
    requires i in jobs && j in jobs
  {
    jobs[i].createdAt > jobs[j].createdAt || (jobs[i].createdAt == jobs[j].createdAt && Less(j, i))
  }

  /** `WHERE key = $1 ORDER BY created_at DESC, id DESC LIMIT 1`. */
  predicate IsNewest(jobs: Table, key: CacheKey, id: JobId) {
    && id in jobs && jobs[id].key == key
    && forall i :: i in jobs && jobs[i].key == key && i != id ==> Newer(jobs, id, i)
  }

  lemma NewerTransitive(jobs: Table, i: JobId, j: JobId, k: JobId)
    requires i in jobs && j in jobs && k in jobs && Newer(jobs, i, j) && Newer(jobs, j, k)
    ensures Newer(jobs, i, k)
  {
    if Less(k, j) && Less(j, i) { LessTransitive(k, j, i); }
  }

  /** The answer is determined: ids break every tie. */
  lemma NewestIsUnique(jobs: Table, key: CacheKey, i: JobId, j: JobId)
    requires IsNewest(jobs, key, i) && IsNewest(jobs, key, j)
    ensures i == j
  {
    if i != j {
      NewerTransitive(jobs, i, j, i);
      LessIrreflexive(i);
    }
  }

  lemma NewestExists(jobs: Table, key: CacheKey, some: JobId)
    requires some in jobs && jobs[some].key == key
    ensures exists id :: IsNewest(jobs, key, id)
  {
    var ids := set i | i in jobs && jobs[i].key == key;
    var le := (i, j) => i in jobs && j in jobs && (i == j || Newer(jobs, i, j));
    forall i, j | i in ids && j in ids
      ensures le(i, j) || le(j, i)
    {
      LessTotal(i, j);
    }
    forall i, j, k | i in ids && j in ids && k in ids && le(i, j) && le(j, k)
      ensures le(i, k)
    {
      if i != j && j != k { NewerTransitive(jobs, i, j, k); }
    }
    assert some in ids;
    FirstExists(ids, le);
    var id :| First(ids, le, id);
    forall i | i in jobs && jobs[i].key == key && i != id
      ensures Newer(jobs, id, i)
    {
      assert i in ids && le(id, i);
    }
    assert IsNewest(jobs, key, id);
  }

  /** `active_job_for_key`: an oldest active row of the key. */
  method FindActive(jobs: Table, key: CacheKey) returns (found: Option<JobId>)
    ensures found.Some? ==> ActiveFor(jobs, key, found.value)
    ensures found.Some? ==> forall i :: ActiveFor(jobs, key, i) ==> NoLater(jobs, found.value, i)
    ensures found.None? ==> forall i :: !ActiveFor(jobs, key, i)
    ensures found.None? <==>
      forall i :: i in jobs && jobs[i].key == key ==> !jobs[i].status.Queued? && !jobs[i].status.Running?
  {
    var active := set i | i in jobs && Active(jobs[i]) && jobs[i].key == key;
    assert forall i :: ActiveFor(jobs, key, i) ==> i in active;
    if active == {} {
      forall i | i in jobs && jobs[i].key == key
        ensures !jobs[i].status.Queued? && !jobs[i].status.Running?
      {
        assert i !in active;
      }
      return None;
    }
    OldestExists(jobs, active);
    var id :| id in active && OldestOf(jobs, active, id);
    found := Some(id);
  }
}
