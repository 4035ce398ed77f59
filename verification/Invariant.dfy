/** What every action of the protocol keeps, in both modes. */
module Invariant {
  import opened Options
  import opened Blobs
  import opened JobTable
  import opened Protocol

  ghost predicate Placed(c: Config, s: State) {
    && (forall w :: w in s.workers ==> w.node in s.up && w.slot < c.concurrency)
    && (forall n :: n in s.disk.sweeps ==> n in s.up)
    && (c.single ==> forall m, n :: m in s.up && n in s.up ==> m == n)
  }

  /** Every slot of a live node has its worker. */
  ghost predicate PoolWhole(c: Config, s: State) {
    forall node, slot: nat :: node in s.up && slot < c.concurrency ==> WorkerId(node, slot) in s.workers
  }

  /** The job a worker executes is the one it claimed, at the instant it
      remembers, and nobody has finished it yet. */
  ghost predicate Owns(s: State, w: WorkerId)
    requires w in s.workers && Working(s.workers[w])
  {
    var pc := s.workers[w];
    && pc.id in s.jobs
    && (s.jobs[pc.id].status.Running? || s.jobs[pc.id].status.Interrupted?)
    && s.jobs[pc.id].claimedBy == Some(w.node)
    && s.jobs[pc.id].startedAt == Some(Sec(pc.at))
    && pc.at <= s.now
    && (pc.Publishing? ==> Renderable(s.jobs[pc.id].key))
  }

  ghost predicate Owned(s: State) {
    forall w :: w in s.workers && Working(s.workers[w]) ==> Owns(s, w)
  }

  /** No two workers, on any node, execute the same job. */
  ghost predicate OneWorkerPerJob(s: State) {
    forall v, w ::
      && v in s.workers && w in s.workers && Working(s.workers[v]) && Working(s.workers[w])
      && s.workers[v].id == s.workers[w].id
      ==> v == w
  }

  ghost predicate ClaimStamped(jobs: Table) {
    forall id :: id in jobs ==>
      && (jobs[id].status.Queued? ==> jobs[id].startedAt.None? && jobs[id].claimedBy.None?)
      && (jobs[id].status.Running? ==> jobs[id].startedAt.Some? && jobs[id].claimedBy.Some?)
  }

  /** A `done` job's row was put while a worker held the claim. */
  ghost predicate DonePublished(s: State) {
    && (forall w :: w in s.workers && s.workers[w].Finishing? && s.workers[w].ok ==>
          s.workers[w].id in s.disk.published)
    && (forall id :: id in s.jobs && s.jobs[id].status.Done? ==> id in s.disk.published)
    && (forall id :: id in s.disk.published ==> id in s.jobs && s.jobs[id].startedAt.Some?)
  }

  ghost predicate Executes(s: State, w: WorkerId, id: JobId) {
    w in s.workers && Working(s.workers[w]) && s.workers[w].id == id
  }

  ghost predicate IsRunning(s: State, id: JobId) {
    id in s.jobs && s.jobs[id].status.Running?
  }

  ghost predicate WorkersRun(s: State) {
    forall w :: w in s.workers && Working(s.workers[w]) ==> IsRunning(s, s.workers[w].id)
  }

  ghost predicate Inv(c: Config, s: State) {
    && Placed(c, s) && PoolWhole(c, s) && Owned(s) && OneWorkerPerJob(s)
    && SingleFlight(s.jobs) && ClaimStamped(s.jobs) && DonePublished(s)
  }

  lemma KeepsPlaced(c: Config, s: State, a: Action)
    requires Inv(c, s) && Enabled(c, s, a)
    ensures Placed(c, Apply(c, s, a))
  {
  }

  lemma KeepsPoolWhole(c: Config, s: State, a: Action)
    requires PoolWhole(c, s) && Enabled(c, s, a)
    ensures PoolWhole(c, Apply(c, s, a))
  {
  }

  /** What one action may do to one stored job: rows are never deleted, and the
      status only moves along queued, running, interrupted, done or error. */
  ghost predicate Follows(job: Job, job': Job) {
    && job'.key == job.key && job'.createdAt == job.createdAt && job'.mode == job.mode
    && Rank(job.status) <= Rank(job'.status)
    && (Rank(job.status) == Rank(job'.status) ==> job' == job)
    && (!job.status.Queued? ==> job'.claimedBy == job.claimedBy && job'.startedAt == job.startedAt)
    && (job.startedAt.Some? ==> job'.startedAt.Some?)
  }

  lemma JobFollows(c: Config, s: State, a: Action, id: JobId)
    requires Owned(s) && Enabled(c, s, a) && id in s.jobs
    ensures id in Apply(c, s, a).jobs && Follows(s.jobs[id], Apply(c, s, a).jobs[id])
  {
    match a
    case FinishJob(w, error, durationMs) => assert Owns(s, w);
    case _ =>
  }

  lemma NewJobQueued(c: Config, s: State, a: Action, id: JobId)
    requires Enabled(c, s, a) && id in Apply(c, s, a).jobs && id !in s.jobs
    ensures a.Submit? || a.Refresh?
    ensures id == a.id && !HasActive(s.jobs, a.key)
    ensures exists mode, who, at :: Apply(c, s, a).jobs[id] == NewJob(a.key, mode, who, at)
  {
  }

  lemma KeepsOwned(c: Config, s: State, a: Action)
    requires Inv(c, s) && Enabled(c, s, a)
    ensures Owned(Apply(c, s, a))
  {
    var s' := Apply(c, s, a);
    forall w | w in s'.workers && Working(s'.workers[w])
      ensures Owns(s', w)
    {
      KeepsOwns(c, s, a, w);
    }
  }

  lemma KeepsOwns(c: Config, s: State, a: Action, w: WorkerId)
    requires Owned(s) && OneWorkerPerJob(s) && Enabled(c, s, a)
    requires w in Apply(c, s, a).workers && Working(Apply(c, s, a).workers[w])
    ensures Owns(Apply(c, s, a), w)
  {
    WasWorking(c, s, a, w);
    if !(a.Claim? && a.w == w) {
      assert Owns(s, w);
      var id := s.workers[w].id;
      JobFollows(c, s, a, id);
      OnlyFinishEnds(c, s, a, id);
      KeepsStamp(c, s, a, w);
    }
  }

  /** Only `finish_job` makes a claimed job done or failed. */
  lemma OnlyFinishEnds(c: Config, s: State, a: Action, id: JobId)
    requires Owned(s) && Enabled(c, s, a) && id in s.jobs && 1 <= Rank(s.jobs[id].status) <= 2
    ensures id in Apply(c, s, a).jobs
    ensures Rank(Apply(c, s, a).jobs[id].status) == 3 ==> a.FinishJob? && s.workers[a.w].id == id
    ensures 1 <= Rank(Apply(c, s, a).jobs[id].status)
  {
    JobFollows(c, s, a, id);
  }

  lemma KeepsStamp(c: Config, s: State, a: Action, w: WorkerId)
    requires Enabled(c, s, a) && w in s.workers && Working(s.workers[w])
    requires w in Apply(c, s, a).workers && Working(Apply(c, s, a).workers[w]) && !(a.Claim? && a.w == w)
    ensures Apply(c, s, a).workers[w].at == s.workers[w].at && s.now <= Apply(c, s, a).now
    ensures a.FinishJob? ==> a.w != w
  {
  }

  /** A worker that executes a job after an action either executed it before or
      has just claimed it. */
  lemma KeepsOneWorkerPerJob(c: Config, s: State, a: Action)
    requires Inv(c, s) && Enabled(c, s, a)
    ensures OneWorkerPerJob(Apply(c, s, a))
  {
    var s' := Apply(c, s, a);
    forall v, w | v in s'.workers && w in s'.workers && Working(s'.workers[v]) && Working(s'.workers[w])
        && s'.workers[v].id == s'.workers[w].id
      ensures v == w
    {
      WasWorking(c, s, a, v);
      WasWorking(c, s, a, w);
    }
  }

  lemma WasWorking(c: Config, s: State, a: Action, w: WorkerId)
    requires Owned(s) && Enabled(c, s, a)
    requires w in Apply(c, s, a).workers && Working(Apply(c, s, a).workers[w])
    ensures var id := Apply(c, s, a).workers[w].id;
      if a.Claim? && a.w == w then s.jobs[id].status.Queued?
      else w in s.workers && Working(s.workers[w]) && s.workers[w].id == id && !s.jobs[id].status.Queued?
  {
    if !(a.Claim? && a.w == w) {
      assert w in s.workers && Working(s.workers[w]);
      assert Owns(s, w);
    }
  }

  lemma KeepsSingleFlight(c: Config, s: State, a: Action)
    requires Inv(c, s) && Enabled(c, s, a)
    ensures SingleFlight(Apply(c, s, a).jobs)
  {
    var s' := Apply(c, s, a);
    forall i, j | i in s'.jobs && j in s'.jobs && Active(s'.jobs[i]) && Active(s'.jobs[j])
        && s'.jobs[i].key == s'.jobs[j].key
      ensures i == j
    {
      WasActive(c, s, a, i);
      WasActive(c, s, a, j);
    }
  }

  lemma WasActive(c: Config, s: State, a: Action, id: JobId)
    requires Inv(c, s) && Enabled(c, s, a)
    requires id in Apply(c, s, a).jobs && Active(Apply(c, s, a).jobs[id])
    ensures id in s.jobs ==> ActiveFor(s.jobs, Apply(c, s, a).jobs[id].key, id)
    ensures id !in s.jobs ==>
      (a.Submit? || a.Refresh?) && id == a.id && !HasActive(s.jobs, Apply(c, s, a).jobs[id].key)
  {
    if id in s.jobs {
      JobFollows(c, s, a, id);
    } else {
      NewJobQueued(c, s, a, id);
    }
  }

  lemma KeepsClaimStamped(c: Config, s: State, a: Action)
    requires Inv(c, s) && Enabled(c, s, a)
    ensures ClaimStamped(Apply(c, s, a).jobs)
  {
    var s' := Apply(c, s, a);
    forall id | id in s'.jobs
      ensures s'.jobs[id].status.Queued? ==> s'.jobs[id].startedAt.None? && s'.jobs[id].claimedBy.None?
      ensures s'.jobs[id].status.Running? ==> s'.jobs[id].startedAt.Some? && s'.jobs[id].claimedBy.Some?
    {
      if id in s.jobs { JobFollows(c, s, a, id); } else { NewJobQueued(c, s, a, id); }
    }
  }

  lemma KeepsDonePublished(c: Config, s: State, a: Action)
    requires Inv(c, s) && Enabled(c, s, a)
    ensures DonePublished(Apply(c, s, a))
  {
    var s' := Apply(c, s, a);
    forall w | w in s'.workers && s'.workers[w].Finishing? && s'.workers[w].ok
      ensures s'.workers[w].id in s'.disk.published
    {
      WasWorking(c, s, a, w);
    }
    forall id | id in s'.jobs && s'.jobs[id].status.Done?
      ensures id in s'.disk.published
    {
      if id in s.jobs { DoneWasFinished(c, s, a, id); } else { NewJobQueued(c, s, a, id); }
    }
    forall id | id in s'.disk.published
      ensures id in s'.jobs && s'.jobs[id].startedAt.Some?
    {
      PublishedWasClaimed(c, s, a, id);
    }
  }

  lemma PublishedWasClaimed(c: Config, s: State, a: Action, id: JobId)
    requires Owned(s) && Enabled(c, s, a) && id in Apply(c, s, a).disk.published
    requires id in s.disk.published ==> id in s.jobs && s.jobs[id].startedAt.Some?
    ensures id in Apply(c, s, a).jobs && Apply(c, s, a).jobs[id].startedAt.Some?
  {
    if id !in s.disk.published { assert Owns(s, a.w); }
    JobFollows(c, s, a, id);
  }

  lemma DoneWasFinished(c: Config, s: State, a: Action, id: JobId)
    requires Enabled(c, s, a) && id in s.jobs && id in Apply(c, s, a).jobs && Apply(c, s, a).jobs[id].status.Done?
    ensures s.jobs[id].status.Done? || (a.FinishJob? && s.workers[a.w].ok && s.workers[a.w].id == id)
    ensures s.disk.published <= Apply(c, s, a).disk.published
  {
  }

  lemma StepKeepsInv(c: Config, s: State, a: Action)
    requires Inv(c, s) && Enabled(c, s, a)
    ensures Inv(c, Apply(c, s, a))
  {
    KeepsPlaced(c, s, a);
    KeepsPoolWhole(c, s, a);
    KeepsOwned(c, s, a);
    KeepsOneWorkerPerJob(c, s, a);
    KeepsSingleFlight(c, s, a);
    KeepsClaimStamped(c, s, a);
    KeepsDonePublished(c, s, a);
  }

  lemma {:induction false} RunKeepsInv(c: Config, s: State, acts: seq<Action>)
    requires Inv(c, s) && Run(c, s, acts)
    ensures Inv(c, After(c, s, acts))
    decreases |acts|
  {
    if acts != [] {
      StepKeepsInv(c, s, acts[0]);
      RunKeepsInv(c, Apply(c, s, acts[0]), acts[1..]);
    }
  }
}
