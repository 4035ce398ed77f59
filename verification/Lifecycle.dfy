/** Job lifecycle over whole runs, on any number of nodes, with crashes, reaps
    and late finishes. */
module Lifecycle {
  import opened Options
  import opened Blobs
  import opened JobTable
  import opened Protocol
  import opened Invariant
  import opened Traces

  /** Rows are never deleted; a job's rank never falls; while the rank stays the
      same nothing in the row changes, so `done` and `error` are final. */
  lemma {:induction false} RunFollows(c: Config, s: State, acts: seq<Action>, id: JobId)
    requires Inv(c, s) && Run(c, s, acts) && id in s.jobs
    ensures id in After(c, s, acts).jobs && Follows(s.jobs[id], After(c, s, acts).jobs[id])
    decreases |acts|
  {
    if acts != [] {
      JobFollows(c, s, acts[0], id);
      StepKeepsInv(c, s, acts[0]);
      RunFollows(c, Apply(c, s, acts[0]), acts[1..], id);
    }
  }

  /** What other replicas may do to the table between two statements of one method. */
  lemma RunEvolves(c: Config, s: State, acts: seq<Action>)
    requires Inv(c, s) && Run(c, s, acts)
    ensures Evolves(s.jobs, After(c, s, acts).jobs)
  {
    forall id | id in s.jobs
      ensures id in After(c, s, acts).jobs && After(c, s, acts).jobs[id].key == s.jobs[id].key
    {
      RunFollows(c, s, acts, id);
    }
  }

  lemma {:induction false} NotClaimedAgain(c: Config, s: State, acts: seq<Action>, id: JobId, i: nat)
    requires Inv(c, s) && Run(c, s, acts) && id in s.jobs && !s.jobs[id].status.Queued?
    requires i < |acts| && acts[i].Claim?
    ensures acts[i].id != id
    decreases |acts|
  {
    if i > 0 {
      JobFollows(c, s, acts[0], id);
      StepKeepsInv(c, s, acts[0]);
      NotClaimedAgain(c, Apply(c, s, acts[0]), acts[1..], id, i - 1);
    }
  }

  /** No run claims one job twice, whichever workers do the claiming. */
  lemma {:induction false} ClaimedAtMostOnce(c: Config, s: State, acts: seq<Action>, i: nat, j: nat)
    requires Inv(c, s) && Run(c, s, acts)
    requires i < j < |acts| && acts[i].Claim? && acts[j].Claim?
    ensures acts[i].id != acts[j].id
    decreases |acts|
  {
    StepKeepsInv(c, s, acts[0]);
    if i > 0 {
      ClaimedAtMostOnce(c, Apply(c, s, acts[0]), acts[1..], i - 1, j - 1);
    } else {
      NotClaimedAgain(c, Apply(c, s, acts[0]), acts[1..], acts[0].id, j - 1);
    }
  }

  /** Every reachable table has at most one queued or running job per key, and
      every `done` job is one that had its row put (`Traces.DoneWasPublished` gives
      the order of the events). */
  lemma ReachableTable(c: Config, s: State, acts: seq<Action>)
    requires Initial(s) && Run(c, s, acts)
    ensures SingleFlight(After(c, s, acts).jobs)
    ensures var s' := After(c, s, acts);
      forall id :: id in s'.jobs && s'.jobs[id].status.Done? ==> id in s'.disk.published && s'.jobs[id].startedAt.Some?
  {
    RunKeepsInv(c, s, acts);
  }

  /** A boot interrupts what an earlier process left behind: on a single node
      everything active, in a cluster exactly the active jobs the node had claimed,
      so queued jobs and those of other nodes stay as they are. */
  lemma BootInterrupts(c: Config, s: State, node: NodeId, id: JobId)
    requires Inv(c, s) && Enabled(c, s, Start(node)) && id in s.jobs
    ensures var jobs := Apply(c, s, Start(node)).jobs;
      && id in jobs
      && (c.single ==> !Active(jobs[id]))
      && (!c.single ==> (jobs[id] != s.jobs[id] <==> s.jobs[id].status.Running? && s.jobs[id].claimedBy == Some(node)))
      && (jobs[id] != s.jobs[id] ==> jobs[id].status.Interrupted? && jobs[id].finishedAt == Some(Sec(s.now)))
  {
  }

  // Whether a terminal status is final in a cluster.

  ghost predicate InHand(s: State, id: JobId) {
    exists w :: Executes(s, w, id)
  }

  lemma UnheldStep(c: Config, s: State, a: Action, id: JobId)
    requires Inv(c, s) && Enabled(c, s, a)
    requires id in s.jobs && Terminal(s.jobs[id].status) && !InHand(s, id)
    ensures id in Apply(c, s, a).jobs && Apply(c, s, a).jobs[id] == s.jobs[id] && !InHand(Apply(c, s, a), id)
  {
    var s' := Apply(c, s, a);
    JobFollows(c, s, a, id);
    if a.FinishJob? { assert Executes(s, a.w, s.workers[a.w].id); }
    if s.jobs[id].status.Interrupted? { OnlyFinishEnds(c, s, a, id); }
    forall w
      ensures !Executes(s', w, id)
    {
      if Executes(s', w, id) { BecameExecuting(c, s, a, w, id); }
    }
  }

  /** A terminal job that no live worker has in hand never changes again. */
  lemma {:induction false} UnheldIsFinal(c: Config, s: State, acts: seq<Action>, id: JobId)
    requires Inv(c, s) && Run(c, s, acts)
    requires id in s.jobs && Terminal(s.jobs[id].status) && !InHand(s, id)
    ensures id in After(c, s, acts).jobs && After(c, s, acts).jobs[id] == s.jobs[id]
    decreases |acts|
  {
    if acts != [] {
      UnheldStep(c, s, acts[0], id);
      StepKeepsInv(c, s, acts[0]);
      UnheldIsFinal(c, Apply(c, s, acts[0]), acts[1..], id);
    }
  }

  /** A boot interrupts what an earlier process left behind, on a single node
      everything active, in a cluster the jobs the node had claimed; and for good:
      whatever runs afterwards, on any node, such a job never runs or finishes. */
  lemma BootInterruptionIsFinal(c: Config, s: State, node: NodeId, acts: seq<Action>, id: JobId)
    requires Inv(c, s) && Enabled(c, s, Start(node)) && Run(c, Apply(c, s, Start(node)), acts)
    requires id in s.jobs && Active(s.jobs[id]) && (c.single || s.jobs[id].claimedBy == Some(node))
    ensures var jobs := After(c, Apply(c, s, Start(node)), acts).jobs;
      id in jobs && jobs[id] == s.jobs[id].(status := Interrupted, finishedAt := Some(Sec(s.now)))
  {
    var s1 := Apply(c, s, Start(node));
    StepKeepsInv(c, s, Start(node));
    forall w
      ensures !Executes(s1, w, id)
    {
      if Executes(s1, w, id) { BecameExecuting(c, s, Start(node), w, id); }
    }
    UnheldIsFinal(c, s1, acts, id);
  }

  /** The outcome a worker can still reach from where it stands. */
  ghost predicate CanEnd(s: State, w: WorkerId, ok: bool)
    requires w in s.workers && Working(s.workers[w]) && s.workers[w].id in s.jobs
  {
    match s.workers[w]
    case Executing(id, _) => ok ==> Renderable(s.jobs[id].key)
    case Publishing(_, _) => ok
    case Finishing(_, _, done) => ok == done
    case _ => false
  }

  /** What is left of `_worker` up to `finish_job`. */
  ghost function RestOf(pc: Pc, w: WorkerId, ok: bool, error: string, durationMs: int): seq<Action> {
    (match pc
     case Executing(_, _) => if ok then [PutBlob(w), PutRow(w)] else [RenderFails(w)]
     case Publishing(_, _) => [PutRow(w)]
     case _ => []) + [FinishJob(w, error, durationMs)]
  }

  lemma PublishesAndFinishes(c: Config, s: State, w: WorkerId, finish: Action)
    requires !c.single && w in s.workers && s.workers[w].Executing? && s.workers[w].id in s.jobs
    requires Renderable(s.jobs[s.workers[w].id].key) && finish.FinishJob? && finish.w == w
    ensures Run(c, s, [PutBlob(w), PutRow(w), finish])
    ensures EndsAs(After(c, s, [PutBlob(w), PutRow(w), finish]), s.workers[w].id, true)
  {
    RunOfThree(c, s, PutBlob(w), PutRow(w), finish);
  }

  lemma FailsAndFinishes(c: Config, s: State, w: WorkerId, finish: Action)
    requires !c.single && w in s.workers && s.workers[w].Executing? && s.workers[w].id in s.jobs
    requires finish.FinishJob? && finish.w == w
    ensures Run(c, s, [RenderFails(w), finish])
    ensures EndsAs(After(c, s, [RenderFails(w), finish]), s.workers[w].id, false)
  {
    RunOfTwo(c, s, RenderFails(w), finish);
  }

  lemma PutsRowAndFinishes(c: Config, s: State, w: WorkerId, finish: Action)
    requires !c.single && w in s.workers && s.workers[w].Publishing? && s.workers[w].id in s.jobs
    requires Renderable(s.jobs[s.workers[w].id].key) && finish.FinishJob? && finish.w == w
    ensures Run(c, s, [PutRow(w), finish])
    ensures EndsAs(After(c, s, [PutRow(w), finish]), s.workers[w].id, true)
  {
    RunOfTwo(c, s, PutRow(w), finish);
  }

  /** `finish_job` is unconditional: whatever became of the row meanwhile, a live
      worker that goes on alone makes its job done or failed. */
  lemma WorkerStillFinishes(c: Config, s: State, w: WorkerId, ok: bool, error: string, durationMs: int)
    requires Owned(s) && !c.single && w in s.workers && Working(s.workers[w]) && s.workers[w].id in s.jobs
    requires CanEnd(s, w, ok)
    ensures var rest := RestOf(s.workers[w], w, ok, error, durationMs);
      Run(c, s, rest) && EndsAs(After(c, s, rest), s.workers[w].id, ok)
  {
    var finish := FinishJob(w, error, durationMs);
    assert Owns(s, w);
    match s.workers[w]
    case Executing(_, _) =>
      if ok {
        PublishesAndFinishes(c, s, w, finish);
        assert [PutBlob(w), PutRow(w)] + [finish] == [PutBlob(w), PutRow(w), finish];
      } else {
        FailsAndFinishes(c, s, w, finish);
        assert [RenderFails(w)] + [finish] == [RenderFails(w), finish];
      }
    case Publishing(_, _) =>
      PutsRowAndFinishes(c, s, w, finish);
      assert [PutRow(w)] + [finish] == [PutRow(w), finish];
    case Finishing(_, _, _) =>
      RunOfOne(c, s, finish);
      assert [] + [finish] == [finish];
    case _ =>
  }

  predicate EndsAs(s: State, id: JobId, ok: bool) {
    id in s.jobs && s.jobs[id].status == if ok then Done else Error
  }

  ghost predicate Unchanged(c: Config, s: State, acts: seq<Action>, id: JobId)
    requires Run(c, s, acts) && id in s.jobs
  {
    id in After(c, s, acts).jobs && After(c, s, acts).jobs[id] == s.jobs[id]
  }

  /** The exact condition, in a cluster: an interrupted job stays as it is in every
      continuation if and only if no live worker has it in hand. */
  lemma InterruptedIsFinal(c: Config, s: State, id: JobId)
    requires !c.single && Inv(c, s) && id in s.jobs && s.jobs[id].status.Interrupted?
    ensures (forall acts :: Run(c, s, acts) ==> Unchanged(c, s, acts, id)) <==> !InHand(s, id)
  {
    if w :| Executes(s, w, id) {
      var ok := s.workers[w].Publishing? || (s.workers[w].Finishing? && s.workers[w].ok);
      WorkerStillFinishes(c, s, w, ok, "", 0);
      assert !Unchanged(c, s, RestOf(s.workers[w], w, ok, "", 0), id);
    } else {
      forall acts | Run(c, s, acts)
        ensures Unchanged(c, s, acts, id)
      {
        UnheldIsFinal(c, s, acts, id);
      }
    }
  }
}
