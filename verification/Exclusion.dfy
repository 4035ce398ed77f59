/** Cluster-wide execution exclusion.

    The janitor interrupts running jobs whose `started_at` lies before its
    cutoff, both cut to whole seconds.  As long as no live execution is that old,
    no live worker's job is ever interrupted and no key is rendered by two
    workers at once; a live execution that is that old can lose both. */
module Exclusion {
  import opened Options
  import opened Blobs
  import opened JobTable
  import opened Protocol
  import opened Invariant
  import opened Traces

  /** The reaper's `WHERE started_at < cutoff`, on the instant a claim stamped. */
  predicate LooksStale(c: Config, now: int, at: int) {
    Sec(at) < Cutoff(c.staleAfter, now)
  }

  ghost predicate Fresh(c: Config, s: State) {
    forall w :: w in s.workers && Working(s.workers[w]) ==> !LooksStale(c, s.now, s.workers[w].at)
  }

  ghost predicate AlwaysFresh(c: Config, s: State, acts: seq<Action>)
    requires Run(c, s, acts)
    decreases |acts|
  {
    Fresh(c, s) && (acts != [] ==> AlwaysFresh(c, Apply(c, s, acts[0]), acts[1..]))
  }

  /** Cutting both timestamps to seconds only errs on the safe side: an execution
      within `timeout_s + 120` seconds of its stamp never looks stale. */
  lemma WithinLimitIsFresh(c: Config, now: int, at: int)
    requires now <= at + c.staleAfter * 1_000_000
    ensures !LooksStale(c, now, at)
  {
  }

  lemma KeepsExecutionsRunning(c: Config, s: State, a: Action)
    requires Inv(c, s) && WorkersRun(s) && Fresh(c, s) && Enabled(c, s, a)
    ensures WorkersRun(Apply(c, s, a))
  {
    var s' := Apply(c, s, a);
    forall w | w in s'.workers && Working(s'.workers[w])
      ensures IsRunning(s', s'.workers[w].id)
    {
      WasWorking(c, s, a, w);
      if !(a.Claim? && a.w == w) {
        assert Owns(s, w) && IsRunning(s, s.workers[w].id);
        KeepsExecutionRunning(c, s, a, w);
      }
    }
  }

  lemma KeepsExecutionRunning(c: Config, s: State, a: Action, w: WorkerId)
    requires Placed(c, s) && Owned(s) && OneWorkerPerJob(s) && Enabled(c, s, a)
    requires w in s.workers && Working(s.workers[w]) && IsRunning(s, s.workers[w].id)
    requires !LooksStale(c, s.now, s.workers[w].at)
    requires w in Apply(c, s, a).workers && Working(Apply(c, s, a).workers[w])
    ensures IsRunning(Apply(c, s, a), s.workers[w].id)
  {
    var id := s.workers[w].id;
    assert Owns(s, w);
    JobFollows(c, s, a, id);
    OnlyFinishEnds(c, s, a, id);
  }

  lemma {:induction false} RunKeepsExecutionsRunning(c: Config, s: State, acts: seq<Action>)
    requires Inv(c, s) && WorkersRun(s) && Run(c, s, acts) && AlwaysFresh(c, s, acts)
    ensures WorkersRun(After(c, s, acts))
    decreases |acts|
  {
    if acts != [] {
      KeepsExecutionsRunning(c, s, acts[0]);
      StepKeepsInv(c, s, acts[0]);
      RunKeepsExecutionsRunning(c, Apply(c, s, acts[0]), acts[1..]);
    }
  }

  /** In the whole cluster: no live worker's job is interrupted, and at most one
      live worker executes a key. */
  lemma OneExecutionPerKey(c: Config, s0: State, acts: seq<Action>)
    requires Initial(s0) && Run(c, s0, acts) && AlwaysFresh(c, s0, acts)
    ensures var s := After(c, s0, acts);
      && (forall w, id :: Executes(s, w, id) ==> IsRunning(s, id))
      && (forall v, w, i, j :: Executes(s, v, i) && Executes(s, w, j) && s.jobs[i].key == s.jobs[j].key ==> v == w)
  {
    RunKeepsInv(c, s0, acts);
    RunKeepsExecutionsRunning(c, s0, acts);
    var s := After(c, s0, acts);
    forall v, w, i, j | Executes(s, v, i) && Executes(s, w, j) && s.jobs[i].key == s.jobs[j].key
      ensures v == w
    {
      assert IsRunning(s, i) && IsRunning(s, j);
    }
  }

  lemma {:induction false} WithinLimitAlwaysFresh(c: Config, s: State, acts: seq<Action>)
    requires Run(c, s, acts)
    requires forall n: nat, w ::
      n <= |acts| && w in StateAt(c, s, acts, n).workers && Working(StateAt(c, s, acts, n).workers[w]) ==>
        StateAt(c, s, acts, n).now <= StateAt(c, s, acts, n).workers[w].at + c.staleAfter * 1_000_000
    ensures AlwaysFresh(c, s, acts)
    decreases |acts|
  {
    forall w | w in s.workers && Working(s.workers[w])
      ensures !LooksStale(c, s.now, s.workers[w].at)
    {
      assert StateAt(c, s, acts, 0) == s;
      WithinLimitIsFresh(c, s.now, s.workers[w].at);
    }
    if acts != [] {
      var s1 := Apply(c, s, acts[0]);
      forall n: nat, w | n <= |acts[1..]| && w in StateAt(c, s1, acts[1..], n).workers
          && Working(StateAt(c, s1, acts[1..], n).workers[w])
        ensures StateAt(c, s1, acts[1..], n).now
          <= StateAt(c, s1, acts[1..], n).workers[w].at + c.staleAfter * 1_000_000
      {
        assert StateAt(c, s, acts, n + 1) == StateAt(c, s1, acts[1..], n);
      }
      WithinLimitAlwaysFresh(c, s1, acts[1..]);
    }
  }

  /** Executions that end within `timeout_s + 120` seconds of their stamps exclude
      each other in the whole cluster, and none loses its row. */
  lemma TimelyExecutionsExclude(c: Config, s0: State, acts: seq<Action>)
    requires Initial(s0) && Run(c, s0, acts)
    requires forall n: nat, w ::
      n <= |acts| && w in StateAt(c, s0, acts, n).workers && Working(StateAt(c, s0, acts, n).workers[w]) ==>
        StateAt(c, s0, acts, n).now <= StateAt(c, s0, acts, n).workers[w].at + c.staleAfter * 1_000_000
    ensures var s := After(c, s0, acts);
      && (forall w, id :: Executes(s, w, id) ==> IsRunning(s, id))
      && (forall v, w, i, j :: Executes(s, v, i) && Executes(s, w, j) && s.jobs[i].key == s.jobs[j].key ==> v == w)
  {
    WithinLimitAlwaysFresh(c, s0, acts);
    OneExecutionPerKey(c, s0, acts);
  }

  /** The freshness condition is the exact one: from any state in which a live
      execution looks stale, a sweep of the janitor, a resubmission and a claim
      by any idle worker make two workers render one key. */
  lemma StaleExecutionLosesExclusion(c: Config, s: State, w: WorkerId, v: WorkerId, id: JobId, id': JobId)
    returns (acts: seq<Action>, s': State)
    requires Inv(c, s) && !c.single
    requires Executes(s, w, id) && IsRunning(s, id) && LooksStale(c, s.now, s.workers[w].at)
    requires v in s.workers && s.workers[v].Idle? && id' !in s.jobs
    ensures acts == [Reap(w.node, s.now), Submit(w.node, id', s.jobs[id].key, Auto, "", s.now), Claim(v, id', s.now)]
    ensures Run(c, s, acts) && s' == After(c, s, acts)
    ensures Executes(s', w, id) && Executes(s', v, id') && id in s'.jobs && id' in s'.jobs
    ensures s'.jobs[id].status.Interrupted? && s'.jobs[id'].key == s'.jobs[id].key == s.jobs[id].key
  {
    var key := s.jobs[id].key;
    var reap, submit, claim := Reap(w.node, s.now), Submit(w.node, id', key, Auto, "", s.now), Claim(v, id', s.now);
    acts := [reap, submit, claim];
    assert Owns(s, w);
    var s1 := Apply(c, s, reap);
    assert s1.jobs[id].status.Interrupted? && !HasActive(s1.jobs, key);
    var s2 := Apply(c, s1, submit);
    assert s2.jobs == s1.jobs[id' := NewJob(key, Auto, "", Sec(s.now))];
    RunOfThree(c, s, reap, submit, claim);
    s' := Apply(c, s2, claim);
  }
}
