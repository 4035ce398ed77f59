/** The render queue, the artifact store and the housekeeping as one transition
    system: job table, workers on every node, rows, blobs and the clock.

    Each action is one atomic piece of work.  In HA mode every store or blob
    call is its own action.  On a single node awaiting a `LocalStore` or
    `LocalBlobs` coroutine never suspends, so a sequence of such calls is not
    interleaved with other coroutines; it stays split here so that the process may
    crash between any two of them, and `Enabled` only lets the coroutine that is in
    the middle of its sequence continue. */
module Protocol {
  import opened Options
  import opened Blobs
  import opened JobTable

  /** `single`: one process, `LocalStore`.  `staleAfter`: the reaper's threshold
      in seconds (render timeout plus 120).  `minInterval`: spacing of unforced
      refreshes, in seconds.  `idlePoll`: how long a worker parks, in microseconds. */
  datatype Config = Config(single: bool, concurrency: nat, staleAfter: nat, minInterval: nat, idlePoll: nat)

  datatype WorkerId = WorkerId(node: NodeId, slot: nat)

  /** Where a live worker stands in `_worker`.
      `Unlucky`: the claim returned nothing, `_wake.clear()` is next.
      `Parked`: waiting for the wake event or the idle poll.
      `Executing`: inside `execute_render`, blob not yet published.
      `Publishing`: blob published, row not yet written.
      `Finishing`: `execute_render` is over, `finish_job` is next.
      `at` is the instant the claim stamped, in microseconds. */
  datatype Pc =
    | Idle
    | Unlucky
    | Parked(since: int)
    | Executing(id: JobId, at: int)
    | Publishing(id: JobId, at: int)
    | Finishing(id: JobId, at: int, ok: bool)

  /** `rows`: the renders table, key to stored locator.  `blobs`: locator to the
      job whose render produced the bytes.  `sweeps`: nodes that have deleted a
      row and still owe the blob delete.  `published`: jobs whose row was ever
      written (history only). */
  datatype Artifacts = Artifacts(
    rows: map<CacheKey, string>,
    blobs: map<string, JobId>,
    sweeps: map<NodeId, string>,
    published: set<JobId>)

  /** `now`: the shared clock, in microseconds. */
  datatype State = State(
    jobs: Table,
    workers: map<WorkerId, Pc>,
    up: set<NodeId>,
    disk: Artifacts,
    now: int)

  /** `Submit`: any path that creates a job.  `Refresh`: an unforced request whose
      lookup found an artifact, after the interval test, on a single node. */
  datatype Action =
    | Tick(to: int)
    | Start(node: NodeId)
    | Crash(node: NodeId)
    | Submit(node: NodeId, id: JobId, key: CacheKey, mode: Mode, who: string, stamp: int)
    | Refresh(node: NodeId, id: JobId, key: CacheKey, who: string, checked: int)
    | Claim(w: WorkerId, id: JobId, stamp: int)
    | ClaimNothing(w: WorkerId)
    | Park(w: WorkerId)
    | Poll(w: WorkerId)
    | RenderFails(w: WorkerId)
    | PutBlob(w: WorkerId)
    | PutRow(w: WorkerId)
    | FinishJob(w: WorkerId, error: string, durationMs: int)
    | DeleteRow(node: NodeId, key: CacheKey)
    | DeleteBlob(node: NodeId)
    | Reap(node: NodeId, stamp: int)

  /** Timestamps are truncated to whole seconds. */
  function Sec(micros: int): int {
    micros / 1_000_000
  }

  /** What `reap_stale_jobs` compares `started_at` with. */
  function Cutoff(staleAfter: nat, stamp: int): int {
    Sec(stamp - staleAfter * 1_000_000)
  }

  predicate Working(pc: Pc) {
    pc.Executing? || pc.Publishing? || pc.Finishing?
  }

  /** Between two store calls that a single node runs without suspending. */
  predicate MidSegment(pc: Pc) {
    pc.Unlucky? || pc.Publishing? || pc.Finishing?
  }

  ghost predicate Quiet(s: State) {
    s.disk.sweeps == map[] && forall w :: w in s.workers ==> !MidSegment(s.workers[w])
  }

  predicate Continues(a: Action) {
    a.Tick? || a.Crash? || a.Park? || a.PutRow? || a.FinishJob? || a.DeleteBlob?
  }

  ghost predicate NothingQueued(jobs: Table) {
    forall id :: id in jobs ==> !jobs[id].status.Queued?
  }

  /** `within_min_interval(last_activity(key))` read at instant `checked`. */
  ghost predicate WithinMinInterval(c: Config, jobs: Table, key: CacheKey, checked: int) {
    exists id ::
      && id in jobs && jobs[id].key == key
      && checked - jobs[id].createdAt * 1_000_000 < c.minInterval * 1_000_000
  }

  /** In HA mode a node stamps a statement before sending it, so a stamp may lie
      before the step; and a claim skips rows that other claims have locked, so it
      may take any queued row and may find none. */
  ghost predicate Possible(c: Config, s: State, a: Action) {
    match a
    case Tick(to) => s.now <= to
    case Start(node) => node !in s.up && (c.single ==> s.up == {})
    case Crash(node) => node in s.up
    case Submit(node, id, key, mode, who, stamp) =>
      node in s.up && id !in s.jobs && stamp <= s.now && (c.single ==> stamp == s.now)
    case Refresh(node, id, key, who, checked) =>
      c.single && node in s.up && id !in s.jobs && checked <= s.now && !WithinMinInterval(c, s.jobs, key, checked)
    case Claim(w, id, stamp) =>
      && w in s.workers && s.workers[w].Idle? && stamp <= s.now && (c.single ==> stamp == s.now)
      && id in s.jobs && s.jobs[id].status.Queued? && (c.single ==> OldestQueued(s.jobs, id))
    case ClaimNothing(w) => w in s.workers && s.workers[w].Idle? && (c.single ==> NothingQueued(s.jobs))
    case Park(w) => w in s.workers && s.workers[w].Unlucky?
    case Poll(w) => w in s.workers && s.workers[w].Parked?
    case RenderFails(w) => w in s.workers && s.workers[w].Executing?
    case PutBlob(w) =>
      && w in s.workers && s.workers[w].Executing? && s.workers[w].id in s.jobs
      && Renderable(s.jobs[s.workers[w].id].key)
    case PutRow(w) =>
      && w in s.workers && s.workers[w].Publishing? && s.workers[w].id in s.jobs
      && Renderable(s.jobs[s.workers[w].id].key)
    case FinishJob(w, error, durationMs) => w in s.workers && s.workers[w].Finishing?
    case DeleteRow(node, key) => node in s.up && node !in s.disk.sweeps
    case DeleteBlob(node) => node in s.disk.sweeps
    case Reap(node, stamp) => !c.single && node in s.up && stamp <= s.now
  }

  ghost predicate Enabled(c: Config, s: State, a: Action) {
    Possible(c, s, a) && (c.single && !Quiet(s) ==> Continues(a))
  }

  /** `_wake.set()` after a created submission: every parked worker of the node resumes. */
  function Woken(workers: map<WorkerId, Pc>, node: NodeId): map<WorkerId, Pc> {
    map w | w in workers :: if w.node == node && workers[w].Parked? then Idle else workers[w]
  }

  ghost function AfterSubmit(s: State, node: NodeId, id: JobId, job: Job): State {
    if HasActive(s.jobs, job.key) then s
    else s.(jobs := s.jobs[id := job], workers := Woken(s.workers, node))
  }

  function Pool(node: NodeId, concurrency: nat): map<WorkerId, Pc> {
    map i: nat | i < concurrency :: WorkerId(node, i) := Idle
  }

  function WithoutNode(workers: map<WorkerId, Pc>, node: NodeId): map<WorkerId, Pc> {
    map w | w in workers && w.node != node :: workers[w]
  }

  ghost function Apply(c: Config, s: State, a: Action): State
    requires Possible(c, s, a)
  {
    match a
    case Tick(to) => s.(now := to)
    case Start(node) =>
      s.(jobs := WithInterrupted(s.jobs, if c.single then None else Some(node), Sec(s.now)),
         up := s.up + {node},
         workers := s.workers + Pool(node, c.concurrency))
    case Crash(node) =>
      s.(up := s.up - {node},
         workers := WithoutNode(s.workers, node),
         disk := s.disk.(sweeps := s.disk.sweeps - {node}))
    case Submit(node, id, key, mode, who, stamp) => AfterSubmit(s, node, id, NewJob(key, mode, who, Sec(stamp)))
    case Refresh(node, id, key, who, checked) => AfterSubmit(s, node, id, NewJob(key, Auto, who, Sec(s.now)))
    case Claim(w, id, stamp) =>
      s.(jobs := Claimed(s.jobs, id, Sec(stamp), w.node), workers := s.workers[w := Executing(id, stamp)])
    case ClaimNothing(w) => s.(workers := s.workers[w := Unlucky])
    case Park(w) => s.(workers := s.workers[w := Parked(s.now)])
    case Poll(w) => s.(workers := s.workers[w := Idle])
    case RenderFails(w) => s.(workers := s.workers[w := Finishing(s.workers[w].id, s.workers[w].at, false)])
    case PutBlob(w) =>
      var id := s.workers[w].id;
      s.(workers := s.workers[w := Publishing(id, s.workers[w].at)],
         disk := s.disk.(blobs := s.disk.blobs[Locator(s.jobs[id].key) := id]))
    case PutRow(w) =>
      var id := s.workers[w].id;
      var key := s.jobs[id].key;
      s.(workers := s.workers[w := Finishing(id, s.workers[w].at, true)],
         disk := s.disk.(rows := s.disk.rows[key := Locator(key)], published := s.disk.published + {id}))
    case FinishJob(w, error, durationMs) =>
      var pc := s.workers[w];
      s.(workers := s.workers[w := Idle],
         jobs := Finished(s.jobs, pc.id, if pc.ok then Done else Error, if pc.ok then None else Some(error),
                          Some(durationMs), Sec(s.now)))
    case DeleteRow(node, key) =>
      if key in s.disk.rows then
        s.(disk := s.disk.(rows := s.disk.rows - {key}, sweeps := s.disk.sweeps[node := s.disk.rows[key]]))
      else s
    case DeleteBlob(node) =>
      s.(disk := s.disk.(blobs := s.disk.blobs - {s.disk.sweeps[node]}, sweeps := s.disk.sweeps - {node}))
    case Reap(node, stamp) => s.(jobs := Reaped(s.jobs, Cutoff(c.staleAfter, stamp), Sec(stamp)))
  }

  ghost predicate Step(c: Config, s: State, a: Action, s': State) {
    Enabled(c, s, a) && s' == Apply(c, s, a)
  }

  /** A fresh installation: nothing stored, no process running. */
  predicate Initial(s: State) {
    s.jobs == map[] && s.workers == map[] && s.up == {} && s.disk == Artifacts(map[], map[], map[], {})
  }

  ghost predicate Run(c: Config, s: State, acts: seq<Action>)
    decreases |acts|
  {
    acts == [] || (Enabled(c, s, acts[0]) && Run(c, Apply(c, s, acts[0]), acts[1..]))
  }

  /** The state a run ends in. */
  ghost function After(c: Config, s: State, acts: seq<Action>): State
    requires Run(c, s, acts)
    decreases |acts|
  {
    if acts == [] then s else After(c, Apply(c, s, acts[0]), acts[1..])
  }

  ghost predicate Reaches(c: Config, s: State, s': State) {
    exists acts :: Run(c, s, acts) && After(c, s, acts) == s'
  }

  /** Runs compose. */
  lemma {:induction false} RunOfBoth(c: Config, s: State, first: seq<Action>, second: seq<Action>)
    requires Run(c, s, first) && Run(c, After(c, s, first), second)
    ensures Run(c, s, first + second)
    ensures After(c, s, first + second) == After(c, After(c, s, first), second)
    decreases |first|
  {
    if first == [] {
      assert first + second == second;
    } else {
      RunOfBoth(c, Apply(c, s, first[0]), first[1..], second);
      assert (first + second)[1..] == first[1..] + second;
    }
  }

  lemma ReachesBy(c: Config, s: State, s1: State, acts: seq<Action>)
    requires Reaches(c, s, s1) && Run(c, s1, acts)
    ensures Reaches(c, s, After(c, s1, acts))
  {
    var first :| Run(c, s, first) && After(c, s, first) == s1;
    RunOfBoth(c, s, first, acts);
  }

  lemma RunOfOne(c: Config, s: State, a: Action)
    requires Enabled(c, s, a)
    ensures Run(c, s, [a]) && After(c, s, [a]) == Apply(c, s, a)
  {
    assert [a][1..] == [] && Run(c, Apply(c, s, a), []);
    assert After(c, s, [a]) == After(c, Apply(c, s, a), []);
  }

  lemma RunOfTwo(c: Config, s: State, a1: Action, a2: Action)
    requires Enabled(c, s, a1) && Enabled(c, Apply(c, s, a1), a2)
    ensures Run(c, s, [a1, a2])
    ensures After(c, s, [a1, a2]) == Apply(c, Apply(c, s, a1), a2)
  {
    var s1 := Apply(c, s, a1);
    assert [a1, a2][1..] == [a2] && [a2][1..] == [];
    assert Run(c, s1, [a2]) && After(c, s1, [a2]) == After(c, Apply(c, s1, a2), []);
  }

  lemma RunOfThree(c: Config, s: State, a1: Action, a2: Action, a3: Action)
    requires Enabled(c, s, a1) && Enabled(c, Apply(c, s, a1), a2) && Enabled(c, Apply(c, Apply(c, s, a1), a2), a3)
    ensures Run(c, s, [a1, a2, a3])
    ensures After(c, s, [a1, a2, a3]) == Apply(c, Apply(c, Apply(c, s, a1), a2), a3)
  {
    RunOfTwo(c, Apply(c, s, a1), a2, a3);
    assert [a1, a2, a3][1..] == [a2, a3];
  }

  lemma RunOfFour(c: Config, s: State, a1: Action, a2: Action, a3: Action, a4: Action)
    requires Enabled(c, s, a1) && Enabled(c, Apply(c, s, a1), a2)
    requires Run(c, Apply(c, Apply(c, s, a1), a2), [a3, a4])
    ensures Run(c, s, [a1, a2, a3, a4])
    ensures After(c, s, [a1, a2, a3, a4]) == After(c, Apply(c, Apply(c, s, a1), a2), [a3, a4])
  {
  }
}
