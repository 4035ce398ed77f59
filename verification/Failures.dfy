/** A failed job leaves no trace among the artifacts: it never displaces the last
    good one. */
module Failures {
  import opened Options
  import opened Blobs
  import opened JobTable
  import opened Protocol
  import opened Invariant

  /** No row was put for the job and no stored bytes are its own. */
  ghost predicate NoTrace(disk: Artifacts, id: JobId) {
    id !in disk.published && forall locator :: locator in disk.blobs ==> disk.blobs[locator] != id
  }

  /** Workers that have published nothing for their job (yet). */
  predicate Clean(pc: Pc) {
    pc.Executing? || (pc.Finishing? && !pc.ok)
  }

  predicate Untouched(jobs: Table, id: JobId) {
    id !in jobs || jobs[id].status.Queued? || jobs[id].status.Error?
  }

  ghost predicate FailInv(s: State) {
    && (forall w :: w in s.workers && Clean(s.workers[w]) ==> NoTrace(s.disk, s.workers[w].id))
    && (forall id :: Untouched(s.jobs, id) ==> NoTrace(s.disk, id))
  }

  /** Only a worker's own job can gain a trace. */
  lemma TraceIsOwn(c: Config, s: State, a: Action, id: JobId)
    requires Enabled(c, s, a) && NoTrace(s.disk, id)
    ensures NoTrace(Apply(c, s, a).disk, id)
      || ((a.PutBlob? || a.PutRow?) && s.workers[a.w].id == id)
  {
  }

  /** A clean worker was clean before, or has just claimed a queued job. */
  lemma WasClean(c: Config, s: State, a: Action, w: WorkerId)
    requires Enabled(c, s, a) && w in Apply(c, s, a).workers && Clean(Apply(c, s, a).workers[w])
    ensures var id := Apply(c, s, a).workers[w].id;
      || (a.Claim? && id in s.jobs && s.jobs[id].status.Queued?)
      || (w in s.workers && Clean(s.workers[w]) && s.workers[w].id == id)
    ensures a.PutBlob? || a.PutRow? ==> a.w != w
  {
  }

  lemma KeepsClean(c: Config, s: State, a: Action, w: WorkerId)
    requires Inv(c, s) && FailInv(s) && Enabled(c, s, a)
    requires w in Apply(c, s, a).workers && Clean(Apply(c, s, a).workers[w])
    ensures NoTrace(Apply(c, s, a).disk, Apply(c, s, a).workers[w].id)
  {
    WasClean(c, s, a, w);
    TraceIsOwn(c, s, a, Apply(c, s, a).workers[w].id);
  }

  lemma KeepsUntouched(c: Config, s: State, a: Action, id: JobId)
    requires Inv(c, s) && FailInv(s) && Enabled(c, s, a) && Untouched(Apply(c, s, a).jobs, id)
    ensures NoTrace(Apply(c, s, a).disk, id)
  {
    if a.PutBlob? || a.PutRow? {
      assert Owns(s, a.w);
    }
    if id in s.jobs {
      JobFollows(c, s, a, id);
      ErrorWasFinished(c, s, a, id);
    }
    TraceIsOwn(c, s, a, id);
  }

  lemma ErrorWasFinished(c: Config, s: State, a: Action, id: JobId)
    requires Owned(s) && Enabled(c, s, a) && id in s.jobs && Untouched(Apply(c, s, a).jobs, id)
    ensures Untouched(s.jobs, id) || (a.FinishJob? && s.workers[a.w].id == id && !s.workers[a.w].ok)
  {
  }

  lemma {:induction false} RunKeepsFailInv(c: Config, s: State, acts: seq<Action>)
    requires Inv(c, s) && FailInv(s) && Run(c, s, acts)
    ensures FailInv(After(c, s, acts))
    decreases |acts|
  {
    if acts != [] {
      var a := acts[0];
      var s' := Apply(c, s, a);
      forall w | w in s'.workers && Clean(s'.workers[w])
        ensures NoTrace(s'.disk, s'.workers[w].id)
      {
        KeepsClean(c, s, a, w);
      }
      forall id | Untouched(s'.jobs, id)
        ensures NoTrace(s'.disk, id)
      {
        KeepsUntouched(c, s, a, id);
      }
      StepKeepsInv(c, s, a);
      RunKeepsFailInv(c, s', acts[1..]);
    }
  }

  /** Over any run, on any number of nodes: a job recorded as failed never had its
      row put, and no published bytes are its own; a done job did have its row put. */
  lemma FailedJobsLeaveNoTrace(c: Config, s: State, acts: seq<Action>, id: JobId)
    requires Initial(s) && Run(c, s, acts) && id in After(c, s, acts).jobs
    ensures var s' := After(c, s, acts);
      && (s'.jobs[id].status.Error? ==> NoTrace(s'.disk, id))
      && (s'.jobs[id].status.Done? ==> id in s'.disk.published)
  {
    RunKeepsInv(c, s, acts);
    RunKeepsFailInv(c, s, acts);
  }
}
