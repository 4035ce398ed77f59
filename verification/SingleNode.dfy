/** What the single-node mode adds: workers and running rows match one to one,
    no wake-up is lost, and every terminal status is final. */
module SingleNode {
  import opened Options
  import opened Blobs
  import opened JobTable
  import opened Protocol
  import opened Invariant

  ghost predicate RunningHaveWorkers(s: State) {
    s.up != {} ==> forall id :: IsRunning(s, id) ==> exists w :: Executes(s, w, id)
  }

  ghost predicate ParkedOnlyIfNothingQueued(s: State) {
    forall w :: w in s.workers && (s.workers[w].Parked? || s.workers[w].Unlucky?) ==> NothingQueued(s.jobs)
  }

  ghost predicate SingleInv(c: Config, s: State) {
    Inv(c, s) && WorkersRun(s) && RunningHaveWorkers(s) && ParkedOnlyIfNothingQueued(s)
  }

  lemma KeepsWorkersRun(c: Config, s: State, a: Action)
    requires c.single && SingleInv(c, s) && Enabled(c, s, a)
    ensures WorkersRun(Apply(c, s, a))
  {
    var s' := Apply(c, s, a);
    forall w | w in s'.workers && Working(s'.workers[w])
      ensures IsRunning(s', s'.workers[w].id)
    {
      WasWorking(c, s, a, w);
      if !(a.Claim? && a.w == w) {
        assert IsRunning(s, s.workers[w].id);
        KeepsRunning(c, s, a, w);
      }
    }
  }

  lemma KeepsRunning(c: Config, s: State, a: Action, w: WorkerId)
    requires c.single && Inv(c, s) && Enabled(c, s, a)
    requires w in s.workers && Working(s.workers[w]) && IsRunning(s, s.workers[w].id)
    requires w in Apply(c, s, a).workers && Working(Apply(c, s, a).workers[w])
    ensures IsRunning(Apply(c, s, a), s.workers[w].id)
  {
    assert Owns(s, w);
    JobFollows(c, s, a, s.workers[w].id);
    if a.Start? { assert w.node in s.up; }
  }

  lemma KeepsRunningHaveWorkers(c: Config, s: State, a: Action)
    requires c.single && SingleInv(c, s) && Enabled(c, s, a)
    ensures RunningHaveWorkers(Apply(c, s, a))
  {
    var s' := Apply(c, s, a);
    forall id | s'.up != {} && IsRunning(s', id)
      ensures exists w :: Executes(s', w, id)
    {
      var w := RunningWorker(c, s, a, id);
    }
  }

  lemma RunningWorker(c: Config, s: State, a: Action, id: JobId) returns (w: WorkerId)
    requires c.single && SingleInv(c, s) && Enabled(c, s, a)
    requires Apply(c, s, a).up != {} && IsRunning(Apply(c, s, a), id)
    ensures Executes(Apply(c, s, a), w, id)
  {
    if id !in s.jobs { NewJobQueued(c, s, a, id); }
    if a.Claim? && a.id == id {
      w := a.w;
    } else {
      JobFollows(c, s, a, id);
      KeepsExecuting(c, s, a, id);
      w :| Executes(s, w, id);
    }
  }

  lemma KeepsExecuting(c: Config, s: State, a: Action, id: JobId)
    requires c.single && Placed(c, s) && WorkersRun(s) && Enabled(c, s, a) && !(a.Claim? && a.id == id)
    requires Apply(c, s, a).up != {} && id in s.jobs && IsRunning(Apply(c, s, a), id)
    ensures IsRunning(s, id) && s.up != {}
    ensures forall w :: Executes(s, w, id) ==> Executes(Apply(c, s, a), w, id)
  {
  }

  lemma KeepsParked(c: Config, s: State, a: Action)
    requires c.single && SingleInv(c, s) && Enabled(c, s, a)
    ensures ParkedOnlyIfNothingQueued(Apply(c, s, a))
  {
    var s' := Apply(c, s, a);
    forall w, id | w in s'.workers && (s'.workers[w].Parked? || s'.workers[w].Unlucky?) && id in s'.jobs
      ensures !s'.jobs[id].status.Queued?
    {
      if id in s.jobs {
        JobFollows(c, s, a, id);
        WasWaiting(c, s, a, w);
      } else {
        NewJobQueued(c, s, a, id);
      }
    }
  }

  lemma WasWaiting(c: Config, s: State, a: Action, w: WorkerId)
    requires c.single && Enabled(c, s, a)
    requires w in Apply(c, s, a).workers && (Apply(c, s, a).workers[w].Parked? || Apply(c, s, a).workers[w].Unlucky?)
    ensures (w in s.workers && (s.workers[w].Parked? || s.workers[w].Unlucky?)) || NothingQueued(s.jobs)
  {
  }

  lemma StepKeepsSingleInv(c: Config, s: State, a: Action)
    requires c.single && SingleInv(c, s) && Enabled(c, s, a)
    ensures SingleInv(c, Apply(c, s, a))
  {
    StepKeepsInv(c, s, a);
    KeepsWorkersRun(c, s, a);
    KeepsRunningHaveWorkers(c, s, a);
    KeepsParked(c, s, a);
  }

  lemma {:induction false} RunKeepsSingleInv(c: Config, s: State, acts: seq<Action>)
    requires c.single && SingleInv(c, s) && Run(c, s, acts)
    ensures SingleInv(c, After(c, s, acts))
    decreases |acts|
  {
    if acts != [] {
      StepKeepsSingleInv(c, s, acts[0]);
      RunKeepsSingleInv(c, Apply(c, s, acts[0]), acts[1..]);
    }
  }

  ghost function RunningJobs(s: State): set<JobId> {
    set id | id in s.jobs && s.jobs[id].status.Running?
  }

  ghost function BusyWorkers(s: State): set<WorkerId> {
    set w | w in s.workers && Working(s.workers[w])
  }

  lemma {:induction false} DistinctJobs(s: State, busy: set<WorkerId>)
    requires OneWorkerPerJob(s) && busy <= BusyWorkers(s)
    ensures |set w | w in busy :: s.workers[w].id| == |busy|
    decreases |busy|
  {
    if busy != {} {
      var w :| w in busy;
      DistinctJobs(s, busy - {w});
      assert (set v | v in busy :: s.workers[v].id) == (set v | v in busy - {w} :: s.workers[v].id) + {s.workers[w].id};
    }
  }

  lemma {:induction false} PoolSize(ws: set<WorkerId>, node: NodeId, k: nat)
    requires forall w :: w in ws ==> w.node == node && w.slot < k
    ensures |ws| <= k
  {
    if k == 0 {
      assert ws == {};
    } else {
      PoolSize(ws - {WorkerId(node, k - 1)}, node, k - 1);
    }
  }

  /** Over any run with crashes and restarts: while the process is up, each
      running row has exactly one live worker executing it and each busy worker's
      row is running, so at most `concurrency` rows are running and no key is
      rendered twice at once. */
  lemma WorkersMatchRunningRows(c: Config, s0: State, acts: seq<Action>)
    requires c.single && Initial(s0) && Run(c, s0, acts)
    ensures var s := After(c, s0, acts);
      && (forall w :: w in s.workers && Working(s.workers[w]) ==> IsRunning(s, s.workers[w].id))
      && (s.up != {} ==> forall id :: IsRunning(s, id) ==> exists w :: Executes(s, w, id))
      && (forall v, w, id :: Executes(s, v, id) && Executes(s, w, id) ==> v == w)
      && (forall v, w, i, j :: Executes(s, v, i) && Executes(s, w, j) && s.jobs[i].key == s.jobs[j].key ==> v == w)
      && (s.up != {} ==> |RunningJobs(s)| == |BusyWorkers(s)| <= c.concurrency)
  {
    RunKeepsSingleInv(c, s0, acts);
    var s := After(c, s0, acts);
    forall v, w, i, j | Executes(s, v, i) && Executes(s, w, j) && s.jobs[i].key == s.jobs[j].key
      ensures v == w
    {
      assert IsRunning(s, i) && IsRunning(s, j);
    }
    if s.up != {} {
      var busy := BusyWorkers(s);
      DistinctJobs(s, busy);
      forall id | id in RunningJobs(s)
        ensures id in set w | w in busy :: s.workers[w].id
      {
        assert IsRunning(s, id);
        var w :| Executes(s, w, id);
        assert w in busy;
      }
      forall w | w in busy
        ensures s.workers[w].id in RunningJobs(s)
      {
        assert IsRunning(s, s.workers[w].id);
      }
      assert (set w | w in busy :: s.workers[w].id) == RunningJobs(s);
      var node :| node in s.up;
      PoolSize(busy, node, c.concurrency);
    }
  }

  /** No lost wake-ups: whenever a job is queued, no worker is parked. */
  lemma NoLostWakeUps(c: Config, s0: State, acts: seq<Action>, w: WorkerId, id: JobId)
    requires c.single && Initial(s0) && Run(c, s0, acts)
    requires id in After(c, s0, acts).jobs && After(c, s0, acts).jobs[id].status.Queued?
    ensures !(w in After(c, s0, acts).workers && After(c, s0, acts).workers[w].Parked?)
  {
    RunKeepsSingleInv(c, s0, acts);
  }

  /** The queue never stalls: while a job is queued and nothing is half done, every
      worker that is not executing a job can claim one at once, and there is a worker. */
  lemma NeverStalls(c: Config, s0: State, acts: seq<Action>, s: State, id: JobId)
    requires c.single && 1 <= c.concurrency && Initial(s0) && Run(c, s0, acts) && s == After(c, s0, acts)
    requires Quiet(s) && s.up != {} && id in s.jobs && s.jobs[id].status.Queued?
    ensures s.workers != map[]
    ensures forall w :: w in s.workers ==> Working(s.workers[w]) || exists i :: Enabled(c, s, Claim(w, i, s.now))
  {
    RunKeepsSingleInv(c, s0, acts);
    var node :| node in s.up;
    assert WorkerId(node, 0) in s.workers;
    OldestQueuedExists(s.jobs, id);
    var oldest :| OldestQueued(s.jobs, oldest);
    forall w | w in s.workers && !Working(s.workers[w])
      ensures Enabled(c, s, Claim(w, oldest, s.now))
    {
      assert s.workers[w].Idle?;
    }
  }

  /** On a single node an interrupted job stays interrupted as well. */
  lemma {:induction false} TerminalIsFinal(c: Config, s: State, acts: seq<Action>, id: JobId)
    requires c.single && SingleInv(c, s) && Run(c, s, acts)
    requires id in s.jobs && Terminal(s.jobs[id].status)
    ensures id in After(c, s, acts).jobs && After(c, s, acts).jobs[id] == s.jobs[id]
    decreases |acts|
  {
    if acts != [] {
      var a := acts[0];
      JobFollows(c, s, a, id);
      if a.FinishJob? { assert IsRunning(s, s.workers[a.w].id); }
      assert Apply(c, s, a).jobs[id] == s.jobs[id];
      StepKeepsSingleInv(c, s, a);
      TerminalIsFinal(c, Apply(c, s, a), acts[1..], id);
    }
  }
}
