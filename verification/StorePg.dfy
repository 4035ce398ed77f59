/** The statements in which `PgStore` (`store_pg.py`) differs from `LocalStore`.

    Between two statements of one method other replicas may act.  What they leave
    behind is a parameter, constrained only by what every run guarantees: rows
    are never deleted and never change their key (`Lifecycle.RunEvolves`).  Each
    contract also names the cluster action that the statement is, in every state of
    the protocol that has the store's job table. */
module StorePg {
  import opened Options
  import opened Blobs
  import opened JobTable
  import opened Text
  import opened Protocol

  /** A live node of a cluster has stamped a statement that meets this job table. */
  ghost predicate Sends(c: Config, s: State, jobs: Table, node: NodeId, stamp: int) {
    !c.single && s.jobs == jobs && node in s.up && stamp <= s.now
  }

  /** The same by an idle worker. */
  ghost predicate AsksFor(c: Config, s: State, jobs: Table, w: WorkerId, stamp: int) {
    !c.single && s.jobs == jobs && w in s.workers && s.workers[w].Idle? && stamp <= s.now
  }

  /** The action is possible and leaves this job table. */
  ghost predicate Leaves(c: Config, s: State, a: Action, jobs: Table) {
    Enabled(c, s, a) && Apply(c, s, a).jobs == jobs
  }

  class PgStore {
    var jobs: Table

    constructor ()
      ensures jobs == map[]
    {
      jobs := map[];
    }

    /** `ORDER BY created_at DESC, id DESC LIMIT 1` over the key's rows. */
    method LatestForKey(key: CacheKey) returns (id: JobId)
      requires exists i :: i in jobs && jobs[i].key == key
      ensures IsNewest(jobs, key, id)
      ensures forall i :: i in jobs && jobs[i].key == key && i != id ==>
        || jobs[id].createdAt > jobs[i].createdAt
        || (jobs[id].createdAt == jobs[i].createdAt && Less(i, id))
    {
      ghost var some :| some in jobs && jobs[some].key == key;
      NewestExists(jobs, key, some);
      id :| id in jobs && IsNewest(jobs, key, id);
    }

    /** The partial unique index turns the insert into the single-flight test.
        On a conflict the active row is read; when its job has finished by then,
        the newest row of the key is read instead.  `atSelect` and `atLatest` are
        the tables those two reads see.  What the last read says about the winner
        is in `Coalescing`. */
    method SubmitJob(id: JobId, job: Job, atSelect: Table, atLatest: Table)
      returns (rid: JobId, row: Job, created: bool)
      requires id !in jobs && job == NewJob(job.key, job.mode, job.requestedBy, job.createdAt)
      requires Evolves(jobs, atSelect) && Evolves(atSelect, atLatest)
      modifies this
      ensures created <==> forall i :: i in old(jobs) && old(jobs)[i].key == job.key ==>
        !old(jobs)[i].status.Queued? && !old(jobs)[i].status.Running?
      ensures created ==> jobs == old(jobs)[id := job] && rid == id
      ensures created ==> forall c: Config, s: State, node: NodeId, stamp: int ::
        Sends(c, s, old(jobs), node, stamp) && job.createdAt == Sec(stamp) ==>
          Leaves(c, s, Submit(node, id, job.key, job.mode, job.requestedBy, stamp), jobs)
      ensures !created ==> jobs == if HasActive(atSelect, job.key) then atSelect else atLatest
      ensures rid in jobs && row == jobs[rid] && row.key == job.key
      ensures !created && HasActive(atSelect, job.key) ==> ActiveFor(atSelect, job.key, rid)
      ensures !created && !HasActive(atSelect, job.key) ==> IsNewest(atLatest, job.key, rid)
      ensures SingleFlight(old(jobs)) && created ==> SingleFlight(jobs)
    {
      var winner := FindActive(jobs, job.key);
      if winner.None? {
        assert forall i :: i in jobs && Active(jobs[i]) && jobs[i].key == job.key ==> ActiveFor(jobs, job.key, i);
        jobs := jobs[id := job];
        return id, job, true;
      }
      jobs := atSelect;
      var found := FindActive(jobs, job.key);
      if found.None? {
        jobs := atLatest;
        assert winner.value in jobs && jobs[winner.value].key == job.key;
        var latest := LatestForKey(job.key);
        return latest, jobs[latest], false;
      }
      rid, row, created := found.value, jobs[found.value], false;
    }

    /** `FOR UPDATE SKIP LOCKED`: rows another claim has locked are skipped, so
        only the oldest unlocked queued row is taken; the updated row is returned. */
    method ClaimNextJob(claimedBy: NodeId, at: int, locked: set<JobId>) returns (claim: Option<(JobId, Job)>)
      modifies this
      ensures claim.None? ==> jobs == old(jobs) && forall i :: i in jobs && jobs[i].status.Queued? ==> i in locked
      ensures claim.Some? ==> var id := claim.value.0;
        && id in old(jobs) && old(jobs)[id].status.Queued? && id !in locked
        && (forall i :: i in old(jobs) && old(jobs)[i].status.Queued? && i !in locked ==>
              old(jobs)[id].createdAt <= old(jobs)[i].createdAt)
        && jobs == old(jobs)[id := old(jobs)[id].(
             status := Running, startedAt := Some(at), claimedBy := Some(claimedBy))]
        && claim.value.1 == jobs[id]
      ensures forall c: Config, s: State, w: WorkerId, stamp: int ::
        AsksFor(c, s, old(jobs), w, stamp) && w.node == claimedBy && at == Sec(stamp) ==>
          Leaves(c, s, if claim.Some? then Claim(w, claim.value.0, stamp) else ClaimNothing(w), jobs)
    {
      var queued := set i | i in jobs && jobs[i].status.Queued? && i !in locked;
      assert forall i :: i in jobs && jobs[i].status.Queued? && i !in locked ==> i in queued;
      if queued == {} {
        return None;
      }
      OldestExists(jobs, queued);
      var id :| id in queued && OldestOf(jobs, queued, id);
      jobs := Claimed(jobs, id, at, claimedBy);
      claim := Some((id, jobs[id]));
    }

    /** Returns the number of rows changed; queued rows are never stale.  `stamp`:
        what the clock reads, in microseconds. */
    method ReapStaleJobs(staleAfter: nat, stamp: int) returns (count: nat)
      modifies this
      ensures jobs == Reaped(old(jobs), Cutoff(staleAfter, stamp), Sec(stamp))
      ensures forall c: Config, s: State, node: NodeId ::
        Sends(c, s, old(jobs), node, stamp) && c.staleAfter == staleAfter ==> Leaves(c, s, Reap(node, stamp), jobs)
      ensures count == |set id | id in old(jobs) && Stale(old(jobs)[id], Cutoff(staleAfter, stamp))|
      ensures jobs.Keys == old(jobs).Keys
      ensures forall id :: id in jobs ==>
        var was := old(jobs)[id];
        jobs[id] == if was.status.Running? && was.startedAt.Some?
                       && was.startedAt.value < (stamp - staleAfter * 1_000_000) / 1_000_000
                    then was.(status := Interrupted, finishedAt := Some(stamp / 1_000_000)) else was
    {
      var cutoff := Cutoff(staleAfter, stamp);
      count := |set id | id in jobs && Stale(jobs[id], cutoff)|;
      jobs := Reaped(jobs, cutoff, Sec(stamp));
    }
  }
}
