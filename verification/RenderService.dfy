/** `RenderService.execute_render` and the decision ladder shared by
    `trigger_render` and `warm_submit` (`api.py`), on a single node. */
module RenderService {
  import opened Options
  import opened Blobs
  import opened JobTable
  import opened Store
  import opened FiniteSets
  import opened Protocol
  import opened Invariant
  import opened Installation
  import opened Scheduling
  import opened SingleNode
  import Queue = RenderQueue
  import Limiter = RateLimiter
  import Policy = CachePolicy

  /** What the world outside does to one execution: whether the board resolves,
      the dct version or its failure, what the render left in the staging file,
      and whether it succeeded. */
  datatype Environment = Environment(
    resolved: bool,
    version: Option<string>,
    written: Option<Bytes>,
    rendered: bool,
    durationMs: int)

  /** Executions that publish. */
  predicate Publishes(env: Environment, key: CacheKey) {
    env.resolved && env.version.Some? && env.rendered && env.written.Some? && Renderable(key)
  }

  datatype Outcome =
    | Cached(stale: bool)
    | RateLimited
    | Submitted(job: JobId, created: bool)

  /** How many workers `__init__` asks for. */
  function Workers(queryCache: bool, maxConcurrent: int): int {
    if queryCache then 1 else maxConcurrent
  }

  class RenderService {
    const store: LocalStore
    const blobs: LocalBlobs
    const queue: Queue.RenderQueue

    /** With the query cache on one worker, else as many as configured, at least one. */
    constructor (store: LocalStore, blobs: LocalBlobs, queryCache: bool, maxConcurrent: int,
                 node: NodeId, now: int, ghost disk: Artifacts)
      requires Represents(disk, store.renders, blobs.files)
      ensures this.store == store && this.blobs == blobs
      ensures fresh(queue) && queue.store == store && queue.node == node && !queue.started
      ensures queue.View() == State(store.jobs, map[], {}, disk, now)
      ensures Represents(queue.View().disk, store.renders, blobs.files)
      ensures queue.Cfg().single
      ensures queryCache ==> queue.Cfg().concurrency == 1
      ensures !queryCache && 1 <= maxConcurrent ==> queue.Cfg().concurrency == maxConcurrent
      ensures 1 <= queue.Cfg().concurrency
    {
      this.store, this.blobs := store, blobs;
      this.queue := new Queue.RenderQueue(store, Workers(queryCache, maxConcurrent), node, now, disk);
    }

    /** `_usable` of the stored row.  While a row implies its blob, what it finds has one. */
    method Lookup(key: CacheKey) returns (record: Option<RenderRecord>)
      ensures record.Some? <==> key in store.renders && store.renders[key].ok
      ensures record.Some? ==> record.value == store.renders[key]
      ensures record.Some? && RowsHaveBlobs(store.renders, blobs.files) ==> record.value.artifactPath in blobs.files
    {
      record := store.Get(key);
      if record.Some? && !record.value.ok {
        record := None;
      }
    }

    /** Publishes the blob, then the row; a failure anywhere leaves rows and blobs
        as they were.  The staging area is left as found in every case.  In any state
        of the protocol with these tables it is the two publishing actions or the
        failing one. */
    method ExecuteRender(key: CacheKey, tmp: string, env: Environment, now: int) returns (r: Result<RenderRecord>)
      requires '/' !in key.digest && tmp !in blobs.staging
      modifies store`renders, blobs
      ensures r.Ok? <==> Publishes(env, key)
      ensures blobs.staging == old(blobs.staging)
      ensures r.Raised? ==> store.renders == old(store.renders) && blobs.files == old(blobs.files)
      ensures r.Ok? ==>
        && blobs.files == old(blobs.files)[Locator(key) := env.written.value]
        && store.renders == old(store.renders)[key := r.value]
        && r.value == RenderRecord(key, Locator(key), true, Some(env.durationMs), Sec(now), env.version.value)
      // The same without the helpers.
      ensures r.Ok? <==>
        && env.resolved && env.version.Some? && env.rendered && env.written.Some?
        && ArtifactLocator(key.board, key.digest, key.format).Ok?
      ensures r.Ok? ==>
        var locator := key.board + "/" + key.digest + "." + key.format;
        && key in store.renders
        && store.renders[key]
             == RenderRecord(key, locator, true, Some(env.durationMs), now / 1_000_000, env.version.value)
        && locator in blobs.files && blobs.files[locator] == env.written.value
      ensures old(RowsHaveBlobs(store.renders, blobs.files)) ==> RowsHaveBlobs(store.renders, blobs.files)
      ensures forall c: Config, s: State, w: WorkerId ::
        AboutToRender(c, s, w, key, old(store.renders), old(blobs.files)) ==>
          Performs(c, s, Execution(w, r.Ok?), store.renders, blobs.files)
    {
      r := Attempt(key, tmp, env, now);
      forall c: Config, s: State, w: WorkerId | AboutToRender(c, s, w, key, old(store.renders), old(blobs.files))
        ensures Performs(c, s, Execution(w, r.Ok?), store.renders, blobs.files)
      {
        if r.Ok? {
          PublishIsRun(c, s, w, key, old(store.renders), old(blobs.files), r.value, env.written.value);
        } else {
          FailureIsRun(c, s, w, key, store.renders, blobs.files);
        }
      }
    }

    method Attempt(key: CacheKey, tmp: string, env: Environment, now: int) returns (r: Result<RenderRecord>)
      requires '/' !in key.digest && tmp !in blobs.staging
      modifies store`renders, blobs
      ensures r.Ok? <==> Publishes(env, key)
      ensures blobs.staging == old(blobs.staging)
      ensures r.Raised? ==> store.renders == old(store.renders) && blobs.files == old(blobs.files)
      ensures r.Ok? ==>
        && blobs.files == old(blobs.files)[Locator(key) := env.written.value]
        && store.renders == old(store.renders)[key := r.value]
        && r.value == RenderRecord(key, Locator(key), true, Some(env.durationMs), Sec(now), env.version.value)
    {
      if !env.resolved { return Raised("board not found"); }
      if env.version.None? { return Raised("dct --version failed"); }
      var locator := ArtifactLocator(key.board, key.digest, key.format);
      if locator.Raised? { return Raised(locator.message); }
      var published := Stage(locator.value, tmp, env);
      if published.Raised? { return Raised(published.message); }
      var record := RenderRecord(key, locator.value, true, Some(env.durationMs), Sec(now), env.version.value);
      store.Put(record);
      r := Ok(record);
    }

    /** The `try`/`finally`: render into the staging file, publish it, and remove
        whatever is left of it. */
    method Stage(locator: string, tmp: string, env: Environment) returns (r: Result<()>)
      requires tmp !in blobs.staging
      modifies blobs
      ensures r.Ok? <==> env.rendered && env.written.Some?
      ensures blobs.staging == old(blobs.staging)
      ensures r.Raised? ==> blobs.files == old(blobs.files)
      ensures r.Ok? ==> blobs.files == old(blobs.files)[locator := env.written.value]
    {
      if env.written.Some? {
        blobs.staging := blobs.staging[tmp := env.written.value];
      }
      if env.rendered {
        r := blobs.PutFile(locator, tmp);
      } else {
        r := Raised("render failed");
      }
      blobs.staging := blobs.staging - {tmp};
    }
  }

  /** The actions of a worker inside `execute_render`, once the render itself is over. */
  function Execution(w: WorkerId, ok: bool): seq<Action> {
    if ok then [PutBlob(w), PutRow(w)] else [RenderFails(w)]
  }

  /** And the one that records the outcome. */
  function Recording(w: WorkerId, r: Result<RenderRecord>, durationMs: int): Action {
    FinishJob(w, if r.Ok? then "" else Queue.Tail(r.message, 2000), durationMs)
  }

  lemma ThenStep(c: Config, s: State, acts: seq<Action>, a: Action, s': State)
    requires Run(c, s, acts) && Step(c, After(c, s, acts), a, s')
    ensures Run(c, s, acts + [a]) && After(c, s, acts + [a]) == s'
  {
    RunOfOne(c, After(c, s, acts), a);
    RunOfBoth(c, s, acts, [a]);
  }

  lemma AfterExecution(c: Config, s: State, w: WorkerId, ok: bool)
    requires w in s.workers && s.workers[w].Executing?
    requires Run(c, s, Execution(w, ok))
    ensures var s' := After(c, s, Execution(w, ok));
      w in s'.workers && s'.workers[w] == Finishing(s.workers[w].id, s.workers[w].at, ok)
  {
    if ok {
      assert [PutBlob(w), PutRow(w)][1..] == [PutRow(w)];
      RunOfOne(c, Apply(c, s, PutBlob(w)), PutRow(w));
    } else {
      RunOfOne(c, s, RenderFails(w));
    }
  }

  /** `execute_render` by a worker of the queue's pool, from the moment the render
      itself is over. */
  method Execute(service: RenderService, w: WorkerId, key: CacheKey, tmp: string, env: Environment)
    returns (r: Result<RenderRecord>)
    requires service.queue.store == service.store && '/' !in key.digest && tmp !in service.blobs.staging
    requires AboutToRender(service.queue.Cfg(), service.queue.View(), w, key,
                           service.store.renders, service.blobs.files)
    modifies service.store`renders, service.blobs, service.queue`pcs, service.queue`disk
    ensures r.Ok? <==> Publishes(env, key)
    ensures service.blobs.staging == old(service.blobs.staging)
    ensures Performs(service.queue.Cfg(), old(service.queue.View()), Execution(w, r.Ok?),
                     service.store.renders, service.blobs.files)
    ensures service.queue.View() == After(service.queue.Cfg(), old(service.queue.View()), Execution(w, r.Ok?))
  {
    ghost var c, s := service.queue.Cfg(), service.queue.View();
    r := service.ExecuteRender(key, tmp, env, service.queue.now);
    assert Performs(c, s, Execution(w, r.Ok?), service.store.renders, service.blobs.files);
    ghost var s' := After(c, s, Execution(w, r.Ok?));
    service.queue.pcs, service.queue.disk := s'.workers, s'.disk;
  }

  /** The body of `_worker` after its claim, from the moment the render itself is over:
      on a single node nothing suspends from there to the loop head.  It publishes and
      records the success, or leaves the artifacts alone and records the failure; it
      is a run of the protocol, and the tables stay those of the abstract state. */
  method Deliver(service: RenderService, w: WorkerId, id: JobId, key: CacheKey, tmp: string,
                 env: Environment, durationMs: int)
    returns (r: Result<RenderRecord>)
    requires service.queue.store == service.store && service.queue.started && w in service.queue.pcs
    requires '/' !in key.digest && tmp !in service.blobs.staging
    requires AboutToRender(service.queue.Cfg(), service.queue.View(), w, key,
                           service.store.renders, service.blobs.files)
    requires service.queue.pcs[w].id == id
    modifies service.store`renders, service.blobs, service.queue`pcs, service.queue`disk, service.queue`done
    modifies service.store`jobs, service.queue.done.Values
    ensures r.Ok? <==> Publishes(env, key)
    ensures service.blobs.staging == old(service.blobs.staging)
    ensures
      var c, s := service.queue.Cfg(), old(service.queue.View());
      var acts := Execution(w, r.Ok?) + [Recording(w, r, durationMs)];
      Run(c, s, acts) && service.queue.View() == After(c, s, acts)
    ensures Represents(service.queue.disk, service.store.renders, service.blobs.files)
    ensures service.queue.done == old(service.queue.done) - {id}
  {
    ghost var c, s := service.queue.Cfg(), service.queue.View();
    r := Execute(service, w, key, tmp, env);
    AfterExecution(c, s, w, r.Ok?);
    service.queue.Complete(w, r.Ok?, if r.Ok? then None else Some(r.message), id, durationMs);
    ThenStep(c, s, Execution(w, r.Ok?), Recording(w, r, durationMs), service.queue.View());
  }

  /** What the queue has done before it looks at a submission. */
  ghost function Booted(q: Queue.RenderQueue): State
    requires !q.started ==> q.node !in q.View().up
    reads q, q.store
  {
    if q.started then q.View() else Apply(q.Cfg(), q.View(), Action.Start(q.node))
  }

  /** Interrupting jobs does not touch their creation times. */
  lemma BootKeepsActivity(c: Config, jobs: Table, at: int, key: CacheKey, checked: int)
    ensures WithinMinInterval(c, WithInterrupted(jobs, None, at), key, checked)
      <==> WithinMinInterval(c, jobs, key, checked)
  {
    var jobs' := WithInterrupted(jobs, None, at);
    if id :| id in jobs && jobs[id].key == key && checked - jobs[id].createdAt * 1_000_000 < c.minInterval * 1_000_000 {
      assert id in jobs' && jobs'[id].key == key && jobs'[id].createdAt == jobs[id].createdAt;
    }
  }

  /** The first rungs: whether the found artifact is served as it is, and whether
      as a stale one. */
  method ServeFound(q: Queue.RenderQueue, freshness: Policy.Freshness, key: CacheKey, minInterval: nat)
    returns (served: Option<bool>)
    ensures served == Some(false) <==> freshness.Frozen? || freshness.Fresh?
    ensures served == Some(true) <==>
      !freshness.Frozen? && !freshness.Fresh? && Recent(q.store.jobs, key, q.now, minInterval)
    ensures served == Some(true) <==>
      && !freshness.Frozen? && !freshness.Fresh?
      && exists id :: id in q.store.jobs && q.store.jobs[id].key == key
           && q.now < (q.store.jobs[id].createdAt + minInterval) * 1_000_000
  {
    if freshness.Frozen? || freshness.Fresh? {
      return Some(false);
    }
    var last := q.store.LastActivity(key);
    IntervalTestReadsMax(Config(true, 1, 0, minInterval, 0), q.store.jobs, key, last, q.now);
    served := if last.Some? && q.now - last.value * 1_000_000 < minInterval * 1_000_000 then Some(true) else None;
  }

  /** Some job of the key was created within the last `minInterval` seconds. */
  ghost predicate Recent(jobs: Table, key: CacheKey, now: int, minInterval: nat) {
    WithinMinInterval(Config(true, 1, 0, minInterval, 0), jobs, key, now)
  }

  /** The action a submission is: an unforced one for a found artifact is a refresh. */
  function SubmissionOf(q: Queue.RenderQueue, found: bool, force: bool, id: JobId, key: CacheKey, who: string): Action
    reads q
  {
    if found && !force then Refresh(q.node, id, key, who, q.now)
    else Action.Submit(q.node, id, key, if force then Force else Auto, who, q.now)
  }

  method SubmitAllowed(q: Queue.RenderQueue, found: bool, force: bool, id: JobId, key: CacheKey, who: string,
                       minInterval: nat)
    returns (rid: JobId, created: bool)
    requires id !in q.store.jobs && Quiet(q.View()) && (!q.started ==> q.pcs == map[])
    requires found && !force ==> !Recent(q.store.jobs, key, q.now, minInterval)
    modifies q`started, q`wake, q`pcs, q.store`jobs
    ensures rid in q.store.jobs && q.store.jobs[rid].key == key
    ensures created ==> rid == id
    ensures created ==>
      q.store.jobs[rid] ==
        Job(key, Queued, if force then Force else Auto, None, who, q.now / 1_000_000, None, None, None, None)
    ensures !created ==> q.store.jobs[rid].status.Queued? || q.store.jobs[rid].status.Running?
    ensures Step(q.Cfg().(minInterval := minInterval), old(Booted(q)),
                 old(SubmissionOf(q, found, force, id, key, who)), q.View())
  {
    BootKeepsActivity(Config(true, 1, 0, minInterval, 0), q.store.jobs, Sec(q.now), key, q.now);
    var row;
    rid, row, created := q.Submit(id, key, if force then Force else Auto, who);
  }

  /** The ladder: serve what is frozen or fresh, then what was submitted recently,
      then refuse over the rate limit, then submit.  `warm_submit` takes it with
      `force` false.  `record`: what an earlier `Lookup` returned; other coroutines
      may have run since. */
  method TriggerRender(q: Queue.RenderQueue, limiter: Limiter.RateLimiter, record: Option<RenderRecord>,
                       freshness: Policy.Freshness, force: bool, id: JobId, key: CacheKey, who: string,
                       minInterval: nat, monotonic: real)
    returns (outcome: Outcome)
    requires id !in q.store.jobs && Quiet(q.View()) && (!q.started ==> q.pcs == map[])
    requires limiter.Valid() && limiter.clock <= monotonic
    modifies q`started, q`wake, q`pcs, q.store`jobs, limiter
    ensures limiter.Valid()
    ensures outcome.Cached? <==>
      && record.Some? && !force
      && (freshness.Frozen? || freshness.Fresh? || Recent(old(q.store.jobs), key, q.now, minInterval))
    ensures outcome.Cached? ==> (outcome.stale <==> !freshness.Frozen? && !freshness.Fresh?)
    ensures outcome.Cached? ==> q.View() == old(q.View()) && limiter.log == old(limiter.log)
    ensures !outcome.Cached? ==>
      limiter.log == Limiter.Record(limiter.limit, old(limiter.log), who, monotonic) && limiter.clock == monotonic
    ensures outcome.RateLimited? ==>
      && q.View() == old(q.View())
      && !Limiter.Accepts(limiter.limit, old(limiter.log), who, monotonic)
    ensures outcome.Submitted? ==>
      && Limiter.Accepts(limiter.limit, old(limiter.log), who, monotonic)
      && outcome.job in q.store.jobs && q.store.jobs[outcome.job].key == key
      && (if outcome.created then
            q.store.jobs[outcome.job] ==
              Job(key, Queued, if force then Force else Auto, None, who, q.now / 1_000_000, None, None, None, None)
          else q.store.jobs[outcome.job].status.Queued? || q.store.jobs[outcome.job].status.Running?)
      && Step(q.Cfg().(minInterval := minInterval), old(Booted(q)),
              old(SubmissionOf(q, record.Some?, force, id, key, who)), q.View())
  {
    if record.Some? && !force {
      var served := ServeFound(q, freshness, key, minInterval);
      if served.Some? {
        return Cached(served.value);
      }
    }
    var allowed := limiter.Allow(who, monotonic);
    if !allowed {
      return RateLimited;
    }
    var rid, created := SubmitAllowed(q, record.Some?, force, id, key, who, minInterval);
    outcome := Submitted(rid, created);
  }

  /** With the query cache on, no reachable state has two rows running or two
      workers rendering. */
  lemma QueryCacheRunsOneAtATime(c: Config, s0: State, acts: seq<Action>, queryCache: bool, maxConcurrent: int)
    requires c.single && Initial(s0) && Run(c, s0, acts)
    requires queryCache && c.concurrency == Workers(queryCache, maxConcurrent)
    ensures var s := After(c, s0, acts);
      s.up != {} ==> |RunningJobs(s)| <= 1 && forall v, w, i, j :: Executes(s, v, i) && Executes(s, w, j) ==> v == w
  {
    WorkersMatchRunningRows(c, s0, acts);
    var s := After(c, s0, acts);
    if s.up != {} {
      forall v, w, i, j | Executes(s, v, i) && Executes(s, w, j)
        ensures v == w
      {
        if v != w {
          SubsetSize({v, w}, BusyWorkers(s));
        }
      }
    }
  }
}
