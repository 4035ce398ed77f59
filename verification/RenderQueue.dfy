/** `RenderQueue` (`queue.py`) over a `LocalStore`: single-node mode.

    Each method but `Wait` is the code between two suspension points.  Its
    contract says which action of the protocol it performs on the abstract state
    `View()`, so every theorem about runs of the protocol speaks about sequences of
    these calls.  `Wait` suspends: what the other coroutines leave behind while it
    sleeps is a parameter. */
module RenderQueue {
  import opened Options
  import opened Blobs
  import opened JobTable
  import opened Store
  import opened Protocol

  /** An `asyncio.Event`. */
  class Event {
    var fired: bool

    constructor ()
      ensures !fired
    {
      fired := false;
    }
  }

  /** `detail[-2000:]` */
  function Tail(s: string, n: nat): (t: string)
    ensures |t| == (if |s| <= n then |s| else n)
    ensures t == s[|s| - |t|..]
  {
    if |s| <= n then s else s[|s| - n..]
  }

  const WAIT_POLL_S: real := 0.5

  /** `wait` stops polling: the job is gone or its status is terminal. */
  predicate Settled(job: Option<Job>) {
    job.None? || Terminal(job.value.status)
  }

  function Row(jobs: Table, id: JobId): Option<Job> {
    if id in jobs then Some(jobs[id]) else None
  }

  function Shorter(a: real, b: real): real {
    if a <= b then a else b
  }

  function Ceil(x: real): int {
    -((-x).Floor)
  }

  /** What the other coroutines and the clock have made of the queue by the time a
      sleep ends: `woken` says whether the event, not the poll, ended it. */
  datatype World = World(
    jobs: Table,
    done: map<JobId, Event>,
    wake: bool,
    pcs: map<WorkerId, Pc>,
    disk: Artifacts,
    now: int,
    woken: bool)

  /** `worlds(k)` is met after the k-th sleep, counted from 0, and `clock(k)` read at
      the k-th loop test.  A sleep that the event does not end lasts at least its
      timeout; one that the event ends is followed by a terminal read
      (`Waiting.EventMeansTerminal`). */
  ghost predicate Sleeps(id: JobId, timeout: real, worlds: nat -> World, clock: nat -> real) {
    forall k: nat ::
      if worlds(k).woken then Settled(Row(worlds(k).jobs, id))
      else clock(k + 1) >= clock(k) + Shorter(WAIT_POLL_S, clock(0) + timeout - clock(k))
  }

  lemma RoundFits(rounds: nat, timeout: real)
    requires rounds as real * WAIT_POLL_S < timeout
    ensures rounds + 1 <= Ceil(timeout / WAIT_POLL_S)
  {
  }

  /** The deadline has passed, or the first `k` sleeps took half a second each. */
  predicate OnTime(k: nat, timeout: real, clock: nat -> real) {
    clock(k) >= clock(0) + timeout || clock(k) >= clock(0) + k as real * WAIT_POLL_S
  }

  /** After a sleep the wait is over, or half a second closer to its deadline. */
  lemma SleepLasts(k: nat, id: JobId, timeout: real, worlds: nat -> World, clock: nat -> real)
    requires Sleeps(id, timeout, worlds, clock) && OnTime(k, timeout, clock) && clock(k) < clock(0) + timeout
    ensures Settled(Row(worlds(k).jobs, id)) || OnTime(k + 1, timeout, clock)
    ensures k + 1 <= Ceil(timeout / WAIT_POLL_S)
  {
    RoundFits(k, timeout);
  }

  /** The row that the `k`-th read returns, `jobs` being the table of the first. */
  function RowAt(id: JobId, worlds: nat -> World, jobs: Table, k: nat): Option<Job> {
    Row(if k == 0 then jobs else worlds(k - 1).jobs, id)
  }

  /** The first `rounds` sleeps were each entered before the deadline with the job
      still active. */
  ghost predicate Waited(id: JobId, timeout: real, worlds: nat -> World, clock: nat -> real,
                         jobs: Table, rounds: nat)
  {
    && (forall k: nat :: k < rounds ==> clock(k) < clock(0) + timeout && !Settled(RowAt(id, worlds, jobs, k)))
    && (rounds > 0 ==> rounds <= Ceil(timeout / WAIT_POLL_S))
  }

  /** What each sleep was limited to: half a second, or the rest of the timeout. */
  predicate Asked(limits: seq<real>, rounds: nat, timeout: real, clock: nat -> real) {
    && |limits| == rounds
    && forall k: nat :: k < rounds ==>
         var rest := clock(0) + timeout - clock(k);
         limits[k] == if rest < 0.5 then rest else 0.5
  }

  lemma WaitedNext(id: JobId, timeout: real, worlds: nat -> World, clock: nat -> real, jobs: Table, k: nat)
    requires Waited(id, timeout, worlds, clock, jobs, k) && k + 1 <= Ceil(timeout / WAIT_POLL_S)
    requires clock(k) < clock(0) + timeout && !Settled(RowAt(id, worlds, jobs, k))
    ensures Waited(id, timeout, worlds, clock, jobs, k + 1)
  {
  }

  lemma CeilIsLeast(n: nat, timeout: real)
    requires 0 < n <= Ceil(timeout / WAIT_POLL_S)
    ensures (n - 1) as real * 0.5 < timeout
  {
  }

  class RenderQueue {
    const store: LocalStore
    const concurrency: nat
    const node: NodeId
    var started: bool
    var wake: bool
    var done: map<JobId, Event>

    var now: int  // what the clock reads during the next call, in microseconds

    // Control state of the worker coroutines, and the tables other components change.
    ghost var pcs: map<WorkerId, Pc>
    ghost var disk: Artifacts

    ghost function View(): State
      reads this, store
    {
      State(store.jobs, pcs, if started then {node} else {}, disk, now)
    }

    ghost function Cfg(): Config {
      Config(true, concurrency, 0, 0, 0)
    }

    constructor (store: LocalStore, concurrency: int, node: NodeId, now: int, ghost disk: Artifacts)
      ensures this.store == store && this.node == node && !started && done == map[]
      ensures 1 <= this.concurrency && (1 <= concurrency ==> this.concurrency == concurrency)
      ensures View() == State(store.jobs, map[], {}, disk, now)
    {
      this.store, this.concurrency, this.node := store, if concurrency < 1 then 1 else concurrency, node;
      started, wake, done := false, false, map[];
      this.now, this.pcs, this.disk := now, map[], disk;
    }

    /** Once per process: interrupts what an earlier process left active, then
        starts the pool. */
    method Start()
      requires !started ==> pcs == map[] && Quiet(View())
      modifies this`started, this`wake, this`pcs, store`jobs
      ensures started
      ensures old(started) ==> View() == old(View()) && wake == old(wake)
      ensures !old(started) ==> Step(Cfg(), old(View()), Action.Start(node), View())
    {
      if started { return; }
      started := true;
      var _ := store.InterruptJobs(None, Sec(now));
      wake := false;
      pcs := Pool(node, concurrency);
      assert map[] + Pool(node, concurrency) == Pool(node, concurrency);
    }

    method Submit(id: JobId, key: CacheKey, mode: Mode, who: string) returns (rid: JobId, row: Job, created: bool)
      requires id !in store.jobs && Quiet(View()) && (!started ==> pcs == map[])
      modifies this`started, this`wake, this`pcs, store`jobs
      ensures started && rid in store.jobs && row == store.jobs[rid] && row.key == key
      ensures created ==> rid == id && wake
      ensures created ==> row == Job(key, Queued, mode, None, who, now / 1_000_000, None, None, None, None)
      ensures !created ==> row.status.Queued? || row.status.Running?
      ensures !created && old(started) ==> wake == old(wake)
      ensures var booted := if old(started) then old(View()) else Apply(Cfg(), old(View()), Action.Start(node));
        && Step(Cfg(), booted, Action.Submit(node, id, key, mode, who, now), View())
        && (created <==> !HasActive(booted.jobs, key))
    {
      Start();
      rid, row, created := store.SubmitJob(id, NewJob(key, mode, who, Sec(now)));
      if created {
        wake := true;
        pcs := Woken(pcs, node);
      }
    }

    /** A worker from its loop head to its next suspension: it claims a job
        and enters `execute_render`, or clears the wake event and parks. */
    method Turn(w: WorkerId) returns (claim: Option<(JobId, Job)>)
      requires started && w in pcs && w.node == node && pcs[w].Idle? && Quiet(View())
      modifies this`wake, this`pcs, store`jobs
      ensures claim.Some? ==>
        && Step(Cfg(), old(View()), Action.Claim(w, claim.value.0, now), View())
        && claim.value.1 == old(store.jobs)[claim.value.0]
        && claim.value.0 in store.jobs
        && store.jobs[claim.value.0] == claim.value.1.(
             status := Running, startedAt := Some(now / 1_000_000), claimedBy := Some(node))
      ensures claim.None? ==>
        && !wake
        && Run(Cfg(), old(View()), [ClaimNothing(w), Park(w)])
        && View() == After(Cfg(), old(View()), [ClaimNothing(w), Park(w)])
    {
      claim := store.ClaimNextJob(node, Sec(now));
      if claim.None? {
        wake := false;
        pcs := pcs[w := Parked(now)];
        RunOfTwo(Cfg(), old(View()), ClaimNothing(w), Park(w));
        assert pcs == old(pcs)[w := Unlucky][w := Parked(now)];
      } else {
        pcs := pcs[w := Executing(claim.value.0, now)];
      }
    }

    /** A worker after `execute_render` returned or raised: records the
        outcome and fires the job's done-event, if some waiter registered one. */
    method Complete(w: WorkerId, ghost ok: bool, failure: Option<string>, id: JobId, durationMs: int)
      requires started && w in pcs && pcs[w].Finishing? && pcs[w].id == id
      requires pcs[w].ok == ok == failure.None?
      modifies this`pcs, this`done, store`jobs, done.Values
      ensures Step(Cfg(), old(View()),
                   FinishJob(w, if failure.Some? then Tail(failure.value, 2000) else "", durationMs), View())
      ensures id in old(store.jobs) ==> id in store.jobs && store.jobs[id] == old(store.jobs)[id].(
        status := if failure.None? then Done else Error,
        error := if failure.None? then None
          else Some(failure.value[if |failure.value| <= 2000 then 0 else |failure.value| - 2000..]),
        durationMs := Some(durationMs),
        finishedAt := Some(now / 1_000_000))
      ensures done == old(done) - {id}
      ensures id in old(done) ==> old(done)[id].fired
      ensures forall e :: e in old(done.Values) && !(id in old(done) && old(done)[id] == e) ==> e.fired == old(e.fired)
    {
      match failure {
        case None =>
          store.FinishJob(id, Done, None, Some(durationMs), Sec(now));
        case Some(detail) =>
          store.FinishJob(id, Error, Some(Tail(detail, 2000)), Some(durationMs), Sec(now));
      }
      pcs := pcs[w := Idle];
      if id in done {
        done[id].fired := true;
      }
      done := done - {id};
    }

    /** What the queue consists of once the sleep that ends in `world` is over. */
    ghost predicate Meets(world: World)
      reads this, store
    {
      && store.jobs == world.jobs && wake == world.wake
      && pcs == world.pcs && disk == world.disk && now == world.now
    }

    /** The await of the job's event, for at most `limit` seconds: everything but the
        process itself may change. */
    method Sleep(id: JobId, limit: real, world: World)
      requires id in done && limit > 0.0
      modifies this`done, this`wake, this`pcs, this`disk, this`now, store`jobs
      ensures Meets(world) && done == world.done
    {
      store.jobs, done, wake := world.jobs, world.done, world.wake;
      pcs, disk, now := world.pcs, world.disk, world.now;
    }

    /** One round: registers an event unless the job has one, sleeps, reads the row.
        After it the wait is over, or still on schedule. */
    method Nap(id: JobId, k: nat, limit: real, ghost timeout: real, worlds: nat -> World, ghost clock: nat -> real)
      returns (job: Option<Job>)
      requires limit > 0.0
      requires Sleeps(id, timeout, worlds, clock) && OnTime(k, timeout, clock) && clock(k) < clock(0) + timeout
      modifies this`done, this`wake, this`pcs, this`disk, this`now, store`jobs
      ensures Meets(worlds(k)) && done == worlds(k).done
      ensures job == Row(store.jobs, id)
      ensures Settled(job) || OnTime(k + 1, timeout, clock)
      ensures k + 1 <= Ceil(timeout / WAIT_POLL_S)
    {
      SleepLasts(k, id, timeout, worlds, clock);
      if id !in done {
        var event := new Event();
        done := done[id := event];
      }
      Sleep(id, limit, worlds(k));
      job := store.GetJob(id);
    }

    /** The row returned is the one stored when `wait` returns; unless the deadline
        has passed it is terminal, or the job unknown.  There are at most
        `ceil(timeout / 0.5)` sleeps, each entered before the deadline with the job
        still active.  Besides starting the queue the only effect of `wait` itself
        is on `_done`, where no entry of the job is left. */
    method Wait(id: JobId, timeout: real, worlds: nat -> World, clock: nat -> real)
      returns (job: Option<Job>, rounds: nat, limits: seq<real>)
      requires Sleeps(id, timeout, worlds, clock)
      requires Quiet(View()) && (!started ==> pcs == map[])
      modifies this, store`jobs
      ensures started
      ensures job == Row(store.jobs, id)
      ensures Settled(job) || clock(rounds) >= clock(0) + timeout
      // In terms of the statuses and of half-seconds.
      ensures job.Some? && (job.value.status.Queued? || job.value.status.Running?) ==>
        clock(rounds) >= clock(0) + timeout
      ensures var booted := if old(started) then old(View()) else Apply(Cfg(), old(View()), Action.Start(node));
        rounds > 0 ==> id in booted.jobs && (booted.jobs[id].status.Queued? || booted.jobs[id].status.Running?)
      ensures forall k: nat :: k + 1 < rounds ==>
        var jobs := worlds(k).jobs; id in jobs && (jobs[id].status.Queued? || jobs[id].status.Running?)
      ensures rounds > 0 ==> (rounds - 1) as real * 0.5 < timeout
      ensures Asked(limits, rounds, timeout, clock)
      ensures var booted := if old(started) then old(View()) else Apply(Cfg(), old(View()), Action.Start(node));
        Waited(id, timeout, worlds, clock, booted.jobs, rounds) && (rounds == 0 ==> View() == booted)
      ensures rounds > 0 ==> Meets(worlds(rounds - 1))
      ensures done == (if rounds == 0 then old(done) else worlds(rounds - 1).done) - {id}
    {
      Start();
      ghost var jobs0 := store.jobs;
      job, rounds, limits := Poll(id, timeout, worlds, clock);
      forall k: nat | k + 1 < rounds
        ensures var jobs := worlds(k).jobs; id in jobs && (jobs[id].status.Queued? || jobs[id].status.Running?)
      {
        assert !Settled(RowAt(id, worlds, jobs0, k + 1));
      }
      if rounds > 0 {
        assert !Settled(RowAt(id, worlds, jobs0, 0));
        CeilIsLeast(rounds, timeout);
      }
    }

    method Poll(id: JobId, timeout: real, worlds: nat -> World, clock: nat -> real)
      returns (job: Option<Job>, rounds: nat, limits: seq<real>)
      requires Sleeps(id, timeout, worlds, clock)
      modifies this`done, this`wake, this`pcs, this`disk, this`now, store`jobs
      ensures job == Row(store.jobs, id)
      ensures Settled(job) || clock(rounds) >= clock(0) + timeout
      ensures Waited(id, timeout, worlds, clock, old(store.jobs), rounds)
      ensures Asked(limits, rounds, timeout, clock)
      ensures rounds == 0 ==> View() == old(View())
      ensures rounds > 0 ==> Meets(worlds(rounds - 1))
      ensures done == (if rounds == 0 then old(done) else worlds(rounds - 1).done) - {id}
    {
      ghost var jobs0 := store.jobs;
      var deadline := clock(0) + timeout;
      job := store.GetJob(id);
      rounds, limits := 0, [];
      while !Settled(job)
        invariant job == Row(store.jobs, id) == RowAt(id, worlds, jobs0, rounds)
        invariant Waited(id, timeout, worlds, clock, jobs0, rounds)
        invariant Asked(limits, rounds, timeout, clock)
        invariant Settled(job) || OnTime(rounds, timeout, clock)
        invariant rounds == 0 ==> View() == old(View())
        invariant rounds > 0 ==> Meets(worlds(rounds - 1))
        invariant done == if rounds == 0 then old(done) else worlds(rounds - 1).done
        decreases Ceil(timeout / WAIT_POLL_S) - rounds
      {
        var remaining := deadline - clock(rounds);
        if remaining <= 0.0 {
          break;
        }
        var limit := Shorter(WAIT_POLL_S, remaining);
        job := Nap(id, rounds, limit, timeout, worlds, clock);
        limits := limits + [limit];
        WaitedNext(id, timeout, worlds, clock, jobs0, rounds);
        rounds := rounds + 1;
      }
      done := done - {id};
    }
  }
}
