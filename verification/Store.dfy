/** `LocalStore` (`store.py`): the two tables of a single node.  Each method is one
    locked section of SQL; its contract names the table function that the
    protocol uses for the same step. */
module Store {
  import opened Options
  import opened Blobs
  import opened FiniteSets
  import opened JobTable

  /** A row of the renders table; `ok` is `status = 'ok'`. */
  datatype RenderRecord = RenderRecord(
    key: CacheKey,
    artifactPath: string,
    ok: bool,
    durationMs: Option<int>,
    renderedAt: int,
    dctVersion: string)

  type Renders = map<CacheKey, RenderRecord>

  /** The primary key column holds the row's key. */
  predicate Keyed(renders: Renders) {
    forall key :: key in renders ==> renders[key].key == key
  }

  /** A renders row implies its blob. */
  ghost predicate RowsHaveBlobs(renders: Renders, files: map<string, Bytes>) {
    forall key :: key in renders ==> renders[key].artifactPath in files
  }

  /** Any result `SELECT * WHERE status = 'ok' ORDER BY rendered_at DESC` may
      give: ties come in any order. */
  ghost predicate IsSnapshot(renders: Renders, rows: seq<RenderRecord>) {
    && (forall i :: 0 <= i < |rows| ==> rows[i].key in renders && renders[rows[i].key] == rows[i] && rows[i].ok)
    && (forall key :: key in renders && renders[key].ok ==> renders[key] in rows)
    && (forall i, j :: 0 <= i < j < |rows| ==> rows[i].key != rows[j].key)
    && (forall i, j :: 0 <= i < j < |rows| ==> rows[i].renderedAt >= rows[j].renderedAt)
  }

  /** `key` is listed no later than `other`. */
  predicate NoOlder(renders: Renders, key: CacheKey, other: CacheKey) {
    key in renders && other in renders && renders[key].renderedAt >= renders[other].renderedAt
  }

  lemma NewestRenderExists(renders: Renders, keys: set<CacheKey>)
    requires keys != {} && keys <= renders.Keys
    ensures exists k :: k in keys && forall j :: j in keys ==> NoOlder(renders, k, j)
  {
    var le := (k, j) => NoOlder(renders, k, j);
    FirstExists(keys, le);
    var k :| First(keys, le, k);
    assert forall j :: j in keys ==> NoOlder(renders, k, j);
  }

  /** A snapshot of which the rows with keys in `left` are still to come. */
  ghost predicate Listed(renders: Renders, rows: seq<RenderRecord>, left: set<CacheKey>) {
    && IsSnapshot(renders - left, rows)
    && (forall key :: key in left ==> key in renders && renders[key].ok)
    && (forall i, key :: 0 <= i < |rows| && key in left ==> rows[i].renderedAt >= renders[key].renderedAt)
  }

  lemma ListNext(renders: Renders, rows: seq<RenderRecord>, left: set<CacheKey>, key: CacheKey)
    requires Keyed(renders) && Listed(renders, rows, left) && key in left
    requires forall j :: j in left ==> NoOlder(renders, key, j)
    ensures Listed(renders, rows + [renders[key]], left - {key})
  {
    var rows', rest := rows + [renders[key]], renders - (left - {key});
    forall k | k in rest && rest[k].ok
      ensures rest[k] in rows'
    {
      if k == key {
        assert rows'[|rows|] == rest[k];
      } else {
        assert k in renders - left && (renders - left)[k] in rows;
      }
    }
  }

  class LocalStore {
    var renders: Renders
    var jobs: Table

    constructor ()
      ensures renders == map[] && jobs == map[]
    {
      renders, jobs := map[], map[];
    }

    method Get(key: CacheKey) returns (record: Option<RenderRecord>)
      ensures record == if key in renders then Some(renders[key]) else None
    {
      record := if key in renders then Some(renders[key]) else None;
    }

    method Put(record: RenderRecord)
      modifies this`renders
      ensures renders == old(renders)[record.key := record]
      ensures old(Keyed(renders)) ==> Keyed(renders)
    {
      renders := renders[record.key := record];
    }

    /** Deletes the row and hands its locator to the caller. */
    method DeleteRender(key: CacheKey) returns (locator: Option<string>)
      modifies this`renders
      ensures renders == old(renders) - {key}
      ensures old(Keyed(renders)) ==> Keyed(renders)
      ensures locator == if key in old(renders) then Some(old(renders)[key].artifactPath) else None
    {
      locator := if key in renders then Some(renders[key].artifactPath) else None;
      renders := renders - {key};
    }

    method AllRenders() returns (rows: seq<RenderRecord>)
      requires Keyed(renders)
      ensures IsSnapshot(renders, rows)
    {
      rows := [];
      var left := set key | key in renders && renders[key].ok;
      while left != {}
        invariant Listed(renders, rows, left)
        decreases |left|
      {
        NewestRenderExists(renders, left);
        var key :| key in left && forall j :: j in left ==> NoOlder(renders, key, j);
        ListNext(renders, rows, left, key);
        rows, left := rows + [renders[key]], left - {key};
      }
      assert renders - left == renders;
    }

    /** Inserts the job, or coalesces onto the active job of its key. */
    method SubmitJob(id: JobId, job: Job) returns (rid: JobId, row: Job, created: bool)
      requires id !in jobs
      modifies this`jobs
      ensures created <==> forall i :: !ActiveFor(old(jobs), job.key, i)
      ensures created <==> forall i :: i in old(jobs) && old(jobs)[i].key == job.key ==>
        !old(jobs)[i].status.Queued? && !old(jobs)[i].status.Running?
      ensures created ==> jobs == old(jobs)[id := job] && rid == id
      ensures !created ==> jobs == old(jobs) && ActiveFor(jobs, job.key, rid)
      ensures rid in jobs && row == jobs[rid] && row.key == job.key
    {
      var active := FindActive(jobs, job.key);
      if active.Some? {
        return active.value, jobs[active.value], false;
      }
      jobs := jobs[id := job];
      rid, row, created := id, job, true;
    }

    method GetJob(id: JobId) returns (row: Option<Job>)
      ensures row == if id in jobs then Some(jobs[id]) else None
    {
      row := if id in jobs then Some(jobs[id]) else None;
    }

    /** Claims an oldest queued job.  The row handed out is the one read before
        the update, so it still says `queued`. */
    method ClaimNextJob(claimedBy: NodeId, at: int) returns (claim: Option<(JobId, Job)>)
      modifies this`jobs
      ensures claim.None? ==> jobs == old(jobs) && forall i :: i in jobs ==> !jobs[i].status.Queued?
      ensures claim.Some? ==>
        && OldestQueued(old(jobs), claim.value.0)
        && claim.value.1 == old(jobs)[claim.value.0]
        && jobs == Claimed(old(jobs), claim.value.0, at, claimedBy)
        && jobs == old(jobs)[claim.value.0 := claim.value.1.(
             status := Running, startedAt := Some(at), claimedBy := Some(claimedBy))]
    {
      var queued := set i | i in jobs && jobs[i].status.Queued?;
      if queued == {} {
        assert forall i :: i in jobs && jobs[i].status.Queued? ==> i in queued;
        return None;
      }
      OldestExists(jobs, queued);
      var id :| id in queued && OldestOf(jobs, queued, id);
      assert forall i :: i in jobs && jobs[i].status.Queued? ==> i in queued && NoLater(jobs, id, i);
      claim := Some((id, jobs[id]));
      jobs := jobs[id := jobs[id].(status := Running, startedAt := Some(at), claimedBy := Some(claimedBy))];
    }

    method FinishJob(id: JobId, status: Status, error: Option<string>, durationMs: Option<int>, at: int)
      modifies this`jobs
      ensures jobs == Finished(old(jobs), id, status, error, durationMs, at)
      ensures id !in old(jobs) ==> jobs == old(jobs)
      ensures id in old(jobs) ==> jobs == old(jobs)[id := old(jobs)[id].(
        status := status, error := error, durationMs := durationMs, finishedAt := Some(at))]
    {
      if id in jobs {
        var row := jobs[id].(status := status, error := error, durationMs := durationMs, finishedAt := Some(at));
        jobs := jobs[id := row];
      }
    }

    /** Returns the number of rows changed. */
    method InterruptJobs(owner: Option<NodeId>, at: int) returns (count: nat)
      modifies this`jobs
      ensures jobs == WithInterrupted(old(jobs), owner, at)
      ensures count == |set id | id in old(jobs) && InterruptedBy(old(jobs)[id], owner)|
      ensures jobs.Keys == old(jobs).Keys
      ensures forall id :: id in jobs ==>
        var was := old(jobs)[id];
        jobs[id] == if (was.status.Queued? || was.status.Running?) && (owner.None? || was.claimedBy == owner)
                    then was.(status := Interrupted, finishedAt := Some(at)) else was
    {
      count := |set id | id in jobs && InterruptedBy(jobs[id], owner)|;
      jobs := WithInterrupted(jobs, owner, at);
    }

    method LastActivity(key: CacheKey) returns (last: Option<int>)
      ensures IsLastActivity(jobs, key, last)
    {
      last := None;
      var left := jobs.Keys;
      while left != {}
        invariant left <= jobs.Keys
        invariant last.None? ==> forall i :: i in jobs && i !in left ==> jobs[i].key != key
        invariant last.Some? ==>
          && (exists i :: i in jobs && jobs[i].key == key && jobs[i].createdAt == last.value)
          && (forall i :: i in jobs && i !in left && jobs[i].key == key ==> jobs[i].createdAt <= last.value)
        decreases |left|
      {
        var id :| id in left;
        if jobs[id].key == key && (last.None? || last.value < jobs[id].createdAt) {
          last := Some(jobs[id].createdAt);
        }
        left := left - {id};
      }
    }
  }
}
