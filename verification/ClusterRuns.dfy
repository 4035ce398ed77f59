/** Runs from an empty installation that end where a guarantee stops.  In a cluster:
    a row without its blob, two workers rendering one key, a parked worker beside a
    queued job, an interrupted job that becomes done or failed, and the answers of
    `submit_job` that are not a finished winner.  On a single node: a blob that a
    crash has left without a row. */
module ClusterRuns {
  import opened Options
  import opened Blobs
  import opened JobTable
  import opened Text
  import opened Protocol
  import opened Invariant
  import opened Lifecycle
  import opened Publishing
  import opened Exclusion
  import opened Scheduling
  import opened Traces
  import opened Coalescing

  // Stages.

  lemma ReachesStep(c: Config, s0: State, s: State, a: Action)
    requires Reaches(c, s0, s) && Enabled(c, s, a)
    ensures Reaches(c, s0, Apply(c, s, a))
  {
    RunOfOne(c, s, a);
    ReachesBy(c, s0, s, [a]);
  }

  lemma ReachableInv(c: Config, s0: State, s: State)
    requires Initial(s0) && Reaches(c, s0, s)
    ensures Inv(c, s)
  {
    var acts :| Run(c, s0, acts) && After(c, s0, acts) == s;
    RunKeepsInv(c, s0, acts);
  }

  ghost predicate IdleAt(s: State, w: WorkerId) {
    w in s.workers && s.workers[w].Idle? && w.node in s.up
  }

  /** A node joins an installation without jobs. */
  lemma Join(c: Config, s0: State, s: State, node: NodeId) returns (s': State)
    requires !c.single && 1 <= c.concurrency && Reaches(c, s0, s) && s.jobs == map[] && node !in s.up
    ensures Reaches(c, s0, s') && s'.jobs == map[] && s'.disk == s.disk && s'.now == s.now && s'.up == s.up + {node}
    ensures IdleAt(s', WorkerId(node, 0)) && forall w :: IdleAt(s, w) ==> IdleAt(s', w)
  {
    s' := Apply(c, s, Start(node));
    ReachesStep(c, s0, s, Start(node));
    assert s'.jobs == map[];
    assert WorkerId(node, 0) in Pool(node, c.concurrency);
  }

  lemma Boot(c: Config, s0: State, node: NodeId) returns (s: State)
    requires !c.single && 1 <= c.concurrency && Initial(s0)
    ensures Reaches(c, s0, s) && s.jobs == map[] && s.disk == s0.disk && s.now == s0.now && s.up == {node}
    ensures IdleAt(s, WorkerId(node, 0))
  {
    assert Run(c, s0, []) && After(c, s0, []) == s0;
    s := Join(c, s0, s0, node);
  }

  lemma Queue(c: Config, s0: State, s: State, node: NodeId, id: JobId, key: CacheKey) returns (s': State)
    requires !c.single && Reaches(c, s0, s) && node in s.up && id !in s.jobs && !HasActive(s.jobs, key)
    ensures Reaches(c, s0, s') && s'.disk == s.disk && s'.now == s.now && s'.up == s.up
    ensures s'.jobs == s.jobs[id := NewJob(key, Auto, "", Sec(s.now))]
    ensures forall w :: IdleAt(s, w) ==> IdleAt(s', w)
  {
    var submit := Submit(node, id, key, Auto, "", s.now);
    s' := Apply(c, s, submit);
    ReachesStep(c, s0, s, submit);
  }

  /** A job of the key is submitted and claimed. */
  lemma Assign(c: Config, s0: State, s: State, w: WorkerId, id: JobId, key: CacheKey) returns (s': State)
    requires !c.single && Reaches(c, s0, s) && IdleAt(s, w) && id !in s.jobs && !HasActive(s.jobs, key)
    ensures Reaches(c, s0, s') && s'.disk == s.disk && s'.now == s.now && s'.up == s.up
    ensures w in s'.workers && s'.workers[w] == Executing(id, s.now)
    ensures forall v :: IdleAt(s, v) && v != w ==> IdleAt(s', v)
    ensures id in s'.jobs && s'.jobs[id].status.Running? && s'.jobs[id].key == key && s'.jobs.Keys == s.jobs.Keys + {id}
    ensures s'.jobs[id].startedAt == Some(Sec(s.now))
    ensures forall i :: i in s.jobs ==> s'.jobs[i] == s.jobs[i]
  {
    var s1 := Queue(c, s0, s, w.node, id, key);
    s' := Apply(c, s1, Claim(w, id, s1.now));
    ReachesStep(c, s0, s1, Claim(w, id, s1.now));
  }

  /** The worker publishes its job and records the success. */
  lemma Deliver(c: Config, s0: State, s: State, w: WorkerId) returns (s': State)
    requires !c.single && Reaches(c, s0, s) && w in s.workers && s.workers[w].Executing? && w.node in s.up
    requires s.workers[w].id in s.jobs && Renderable(s.jobs[s.workers[w].id].key)
    ensures Reaches(c, s0, s') && s'.now == s.now && s'.up == s.up && s'.disk.sweeps == s.disk.sweeps
    ensures IdleAt(s', w) && s'.jobs.Keys == s.jobs.Keys
    ensures forall i :: i in s.jobs && i != s.workers[w].id ==> s'.jobs[i] == s.jobs[i]
    ensures IsDone(s', s.workers[w].id)
    ensures var key := s.jobs[s.workers[w].id].key; key in s'.disk.rows && s'.disk.rows[key] == Locator(key)
  {
    var b, r, f := PutBlob(w), PutRow(w), FinishJob(w, "", 0);
    RunOfThree(c, s, b, r, f);
    ReachesBy(c, s0, s, [b, r, f]);
    s' := Apply(c, Apply(c, Apply(c, s, b), r), f);
  }

  /** The clock passes the reaper's threshold. */
  lemma Age(c: Config, s0: State, s: State) returns (s': State)
    requires Reaches(c, s0, s)
    requires c.single ==> Quiet(s)
    ensures Reaches(c, s0, s') && s' == s.(now := s.now + (c.staleAfter + 1) * 1_000_000)
    ensures LooksStale(c, s'.now, s.now)
  {
    var to := s.now + (c.staleAfter + 1) * 1_000_000;
    s' := Apply(c, s, Tick(to));
    ReachesStep(c, s0, s, Tick(to));
  }

  // What fails.

  /** A row whose blob is gone, whichever way the publish and the delete crossed. */
  lemma RowCanLoseBlob(c: Config, s0: State, node: NodeId, key: CacheKey, i: JobId, j: JobId,
                       blobFirst: bool, rowFirst: bool)
    returns (s: State)
    requires !c.single && 1 <= c.concurrency && Initial(s0) && Renderable(key) && i != j
    ensures Reaches(c, s0, s) && RowWithoutBlob(s.disk, key)
  {
    var w := WorkerId(node, 0);
    var s1 := Boot(c, s0, node);
    var s2 := Assign(c, s0, s1, w, i, key);
    var s3 := Deliver(c, s0, s2, w);
    var s4 := Assign(c, s0, s3, w, j, key);
    CrossedLosesBlob(c, s4, w, node, key, blobFirst, rowFirst);
    ReachesBy(c, s0, s4, Crossed(w, node, key, blobFirst, rowFirst));
    s := After(c, s4, Crossed(w, node, key, blobFirst, rowFirst));
  }

  /** Two workers on two nodes rendering one key. */
  lemma KeyCanBeRenderedTwice(c: Config, s0: State, m: NodeId, n: NodeId, key: CacheKey, i: JobId, j: JobId)
    returns (s: State)
    requires !c.single && 1 <= c.concurrency && Initial(s0) && m != n && i != j
    ensures Reaches(c, s0, s)
    ensures Executes(s, WorkerId(m, 0), i) && Executes(s, WorkerId(n, 0), j)
    ensures i in s.jobs && j in s.jobs && s.jobs[i].key == s.jobs[j].key == key
  {
    var w, v := WorkerId(m, 0), WorkerId(n, 0);
    var s1 := Boot(c, s0, m);
    var s2 := Join(c, s0, s1, n);
    var s3 := Assign(c, s0, s2, w, i, key);
    var s4 := Age(c, s0, s3);
    ReachableInv(c, s0, s4);
    assert Executes(s4, w, i) && IsRunning(s4, i);
    var acts;
    acts, s := StaleExecutionLosesExclusion(c, s4, w, v, i, j);
    ReachesBy(c, s0, s4, acts);
  }

  /** A parked worker beside a queued job. */
  lemma WakeUpCanBeMissed(c: Config, s0: State, node: NodeId, key: CacheKey, id: JobId) returns (s: State)
    requires !c.single && 1 <= c.concurrency && Initial(s0)
    ensures Reaches(c, s0, s)
    ensures id in s.jobs && s.jobs[id].status.Queued?
    ensures WorkerId(node, 0) in s.workers && s.workers[WorkerId(node, 0)].Parked?
  {
    var s1 := Boot(c, s0, node);
    ReachableInv(c, s0, s1);
    var acts;
    acts, s := ClusterCanMissWakeUp(c, s1, WorkerId(node, 0), id, key);
    ReachesBy(c, s0, s1, acts);
  }

  /** A reaped job whose worker comes back: interrupted in `s`, done or failed in `s'`. */
  lemma InterruptedCanEnd(c: Config, s0: State, node: NodeId, key: CacheKey, id: JobId, ok: bool)
    returns (s: State, s': State)
    requires !c.single && 1 <= c.concurrency && Initial(s0) && (ok ==> Renderable(key))
    ensures Reaches(c, s0, s) && id in s.jobs && s.jobs[id].status.Interrupted?
    ensures Reaches(c, s, s') && EndsAs(s', id, ok)
  {
    var w := WorkerId(node, 0);
    var s1 := Boot(c, s0, node);
    var s2 := Assign(c, s0, s1, w, id, key);
    var s3 := Age(c, s0, s2);
    s := Apply(c, s3, Reap(node, s3.now));
    ReachesStep(c, s0, s3, Reap(node, s3.now));
    ReachableInv(c, s0, s);
    WorkerStillFinishes(c, s, w, ok, "", 0);
    s' := After(c, s, RestOf(s.workers[w], w, ok, "", 0));
  }

  // On a single node.

  /** A single node up and rendering a job. */
  lemma SingleClaim(c: Config, s0: State, node: NodeId, key: CacheKey, id: JobId) returns (s: State)
    requires c.single && 1 <= c.concurrency && Initial(s0)
    ensures Reaches(c, s0, s) && Quiet(s) && s.up == {node} && s.disk == s0.disk
    ensures var w := WorkerId(node, 0); w in s.workers && s.workers[w].Executing? && s.workers[w].id == id
    ensures id in s.jobs && s.jobs[id].key == key && s.jobs[id].status.Running?
  {
    assert Run(c, s0, []) && After(c, s0, []) == s0;
    var start, w := Start(node), WorkerId(node, 0);
    var s1 := Apply(c, s0, start);
    ReachesStep(c, s0, s0, start);
    assert s1.jobs == map[] && w in Pool(node, c.concurrency);
    var submit := Submit(node, id, key, Auto, "", s1.now);
    var s2 := Apply(c, s1, submit);
    ReachesStep(c, s0, s1, submit);
    assert s2.jobs == map[id := NewJob(key, Auto, "", Sec(s1.now))];
    s := Apply(c, s2, Claim(w, id, s2.now));
    ReachesStep(c, s0, s2, Claim(w, id, s2.now));
  }

  /** Why `BlobsAreRows` speaks of crash-free runs: a crash between the two publishing
      writes leaves a blob without a row for good, while its job, still running in the
      table, is only interrupted by the next boot. */
  lemma CrashCanOrphanBlob(c: Config, s0: State, node: NodeId, key: CacheKey, id: JobId) returns (s: State, s': State)
    requires c.single && 1 <= c.concurrency && Initial(s0) && Renderable(key)
    ensures Reaches(c, s0, s) && s.up == {} && id in s.jobs && s.jobs[id].status.Running?
    ensures Enabled(c, s, Start(node)) && s' == Apply(c, s, Start(node)) && Reaches(c, s0, s')
    ensures id in s'.jobs && s'.jobs[id].status.Interrupted?
    ensures Quiet(s') && Locator(key) in s'.disk.blobs && Locator(key) !in s'.disk.rows.Values
  {
    var w := WorkerId(node, 0);
    var s1 := SingleClaim(c, s0, node, key, id);
    var s2 := Apply(c, s1, PutBlob(w));
    ReachesStep(c, s0, s1, PutBlob(w));
    s := Apply(c, s2, Crash(node));
    ReachesStep(c, s0, s2, Crash(node));
    s' := Apply(c, s, Start(node));
    ReachesStep(c, s0, s, Start(node));
  }

  // Answers of `submit_job` after a conflict.

  lemma OnlyRowIsNewest(jobs: Table, key: CacheKey, id: JobId)
    requires jobs.Keys == {id} && jobs[id].key == key
    ensures IsNewest(jobs, key, id)
    ensures !Active(jobs[id]) ==> !HasActive(jobs, key)
  {
  }

  /** The winner's render fails before the first select. */
  lemma AnswerCanBeFailed(c: Config, s: State, w: WorkerId, key: CacheKey, id: JobId) returns (acts: seq<Action>)
    requires !c.single && IdleAt(s, w) && s.jobs == map[id := NewJob(key, Auto, "", Sec(s.now))]
    ensures FallsBack(c, s, acts, |acts|, key, id, id) && EndsAs(After(c, s, acts), id, false)
    ensures var s' := After(c, s, acts);
      s'.jobs.Keys == {id} && s'.jobs[id].createdAt == Sec(s.now) && s'.now == s.now && s'.up == s.up
  {
    var a, f, e := Claim(w, id, s.now), RenderFails(w), FinishJob(w, "render failed", 0);
    acts := [a, f, e];
    RunOfThree(c, s, a, f, e);
    StateAtEnd(c, s, acts);
    OnlyRowIsNewest(After(c, s, acts).jobs, key, id);
    assert ActiveFor(s.jobs, key, id);
  }

  /** The winner is reaped before the first select. */
  lemma AnswerCanBeInterrupted(c: Config, s: State, w: WorkerId, key: CacheKey, id: JobId) returns (acts: seq<Action>)
    requires !c.single && IdleAt(s, w) && s.jobs == map[id := NewJob(key, Auto, "", Sec(s.now))]
    ensures FallsBack(c, s, acts, |acts|, key, id, id)
    ensures id in After(c, s, acts).jobs && After(c, s, acts).jobs[id].status.Interrupted?
  {
    var to := s.now + (c.staleAfter + 1) * 1_000_000;
    var a, t, r := Claim(w, id, s.now), Tick(to), Reap(w.node, to);
    acts := [a, t, r];
    assert LooksStale(c, to, s.now);
    RunOfThree(c, s, a, t, r);
    StateAtEnd(c, s, acts);
    OnlyRowIsNewest(After(c, s, acts).jobs, key, id);
    assert ActiveFor(s.jobs, key, id);
  }

  lemma {:induction false} StateAtPrefix(c: Config, s: State, first: seq<Action>, second: seq<Action>)
    requires Run(c, s, first) && Run(c, s, first + second)
    ensures StateAt(c, s, first + second, |first|) == After(c, s, first)
    decreases |first|
  {
    if first != [] {
      assert (first + second)[1..] == first[1..] + second;
      StateAtPrefix(c, Apply(c, s, first[0]), first[1..], second);
    }
  }

  /** The key is resubmitted between the two selects: the answer is a job that is
      still queued, and not the winner. */
  lemma AnswerCanBeQueued(c: Config, s: State, w: WorkerId, key: CacheKey, id: JobId, id': JobId)
    returns (acts: seq<Action>, m: nat)
    requires !c.single && IdleAt(s, w) && s.jobs == map[id := NewJob(key, Auto, "", Sec(s.now))] && id' != id
    ensures FallsBack(c, s, acts, m, key, id, id')
    ensures id' in After(c, s, acts).jobs && After(c, s, acts).jobs[id'].status.Queued?
  {
    var first := AnswerCanBeFailed(c, s, w, key, id);
    StateAtEnd(c, s, first);
    var s1, to := After(c, s, first), s.now + 1_000_000;
    var t, q := Tick(to), Submit(w.node, id', key, Auto, "", to);
    RunOfTwo(c, s1, t, q);
    RunOfBoth(c, s, first, [t, q]);
    StateAtPrefix(c, s, first, [t, q]);
    acts, m := first + [t, q], |first|;
  }

  /** From an empty installation: `submit_job` conflicts with `id` and answers with a
      row that is failed, interrupted or still queued. */
  lemma AnswerNeedNotBeDone(c: Config, s0: State, node: NodeId, key: CacheKey, id: JobId, id': JobId, status: Status)
    returns (s: State, acts: seq<Action>, m: nat, answer: JobId)
    requires !c.single && 1 <= c.concurrency && Initial(s0) && id' != id
    requires status.Error? || status.Interrupted? || status.Queued?
    ensures Reaches(c, s0, s) && FallsBack(c, s, acts, m, key, id, answer)
    ensures After(c, s, acts).jobs[answer].status == status
  {
    var w := WorkerId(node, 0);
    var s1 := Boot(c, s0, node);
    s := Queue(c, s0, s1, node, id, key);
    answer := id;
    match status
    case Error =>
      acts := AnswerCanBeFailed(c, s, w, key, id);
      m := |acts|;
    case Interrupted =>
      acts := AnswerCanBeInterrupted(c, s, w, key, id);
      m := |acts|;
    case _ =>
      acts, m := AnswerCanBeQueued(c, s, w, key, id, id');
      answer := id';
  }
}
