/** Claim order and refresh spacing on a single node. */
module Scheduling {
  import opened Options
  import opened Blobs
  import opened JobTable
  import opened Protocol
  import opened Invariant
  import opened Lifecycle
  import opened Traces
  import opened FiniteSets

  /** Queued jobs created no later than second `t`. */
  ghost function Ahead(jobs: Table, t: int): set<JobId> {
    set id | id in jobs && jobs[id].status.Queued? && jobs[id].createdAt <= t
  }

  ghost function Claims(acts: seq<Action>): nat {
    if acts == [] then 0 else (if acts[0].Claim? then 1 else 0) + Claims(acts[1..])
  }

  lemma AheadShrinks(c: Config, s: State, a: Action, t: int)
    requires c.single && Inv(c, s) && Enabled(c, s, a) && t < Sec(s.now)
    ensures Ahead(Apply(c, s, a).jobs, t) <= Ahead(s.jobs, t)
    ensures a.Claim? && Ahead(s.jobs, t) != {} ==> a.id in Ahead(s.jobs, t) && a.id !in Ahead(Apply(c, s, a).jobs, t)
  {
    forall id | id in Ahead(Apply(c, s, a).jobs, t)
      ensures id in Ahead(s.jobs, t)
    {
      if id in s.jobs { JobFollows(c, s, a, id); } else { NewJobQueued(c, s, a, id); }
    }
    if a.Claim? && Ahead(s.jobs, t) != {} {
      var id :| id in Ahead(s.jobs, t);
    }
  }

  /** Once the clock has left a job's creation second, a job still queued has seen
      fewer claims than there were queued jobs at or before it: nothing submitted
      later overtakes it. */
  lemma {:induction false} BoundedOvertaking(c: Config, s: State, acts: seq<Action>, id: JobId)
    requires c.single && Inv(c, s) && Run(c, s, acts)
    requires id in s.jobs && s.jobs[id].status.Queued? && s.jobs[id].createdAt < Sec(s.now)
    requires id in After(c, s, acts).jobs && After(c, s, acts).jobs[id].status.Queued?
    ensures Claims(acts) < |Ahead(s.jobs, s.jobs[id].createdAt)|
    decreases |acts|
  {
    var t := s.jobs[id].createdAt;
    assert id in Ahead(s.jobs, t);
    if acts != [] {
      var a := acts[0];
      var s' := Apply(c, s, a);
      StepKeepsInv(c, s, a);
      JobFollows(c, s, a, id);
      RunFollows(c, s', acts[1..], id);
      AheadCount(c, s, a, t);
      BoundedOvertaking(c, s', acts[1..], id);
    }
  }

  lemma AheadCount(c: Config, s: State, a: Action, t: int)
    requires c.single && Inv(c, s) && Enabled(c, s, a) && t < Sec(s.now) && Ahead(s.jobs, t) != {}
    ensures |Ahead(Apply(c, s, a).jobs, t)| + (if a.Claim? then 1 else 0) <= |Ahead(s.jobs, t)|
  {
    AheadShrinks(c, s, a, t);
    var before, after := Ahead(s.jobs, t), Ahead(Apply(c, s, a).jobs, t);
    SubsetSize(after, if a.Claim? then before - {a.id} else before);
  }

  /** The interval test reads `MAX(created_at)`: it fires exactly when some job
      of the key is younger than the interval. */
  lemma IntervalTestReadsMax(c: Config, jobs: Table, key: CacheKey, last: Option<int>, checked: int)
    requires IsLastActivity(jobs, key, last)
    ensures WithinMinInterval(c, jobs, key, checked)
      <==> last.Some? && checked - last.value * 1_000_000 < c.minInterval * 1_000_000
  {
  }

  /** An unforced refresh of a found artifact that creates a job creates it at
      least `min_interval_s` whole seconds after every earlier job of its key,
      although both times are cut to seconds; the rest of the run changes neither. */
  lemma RefreshesAreSpaced(c: Config, s0: State, before: seq<Action>, a: Action, after: seq<Action>, earlier: JobId)
    requires c.single && Initial(s0) && Run(c, s0, before)
    requires a.Refresh? && Enabled(c, After(c, s0, before), a)
    requires Run(c, Apply(c, After(c, s0, before), a), after)
    requires a.id in Apply(c, After(c, s0, before), a).jobs
    requires earlier in After(c, s0, before).jobs && After(c, s0, before).jobs[earlier].key == a.key
    ensures var jobs := After(c, Apply(c, After(c, s0, before), a), after).jobs;
      && a.id in jobs && earlier in jobs && jobs[a.id].key == a.key
      && jobs[a.id].createdAt >= jobs[earlier].createdAt + c.minInterval
  {
    var s := After(c, s0, before);
    var s' := Apply(c, s, a);
    RunKeepsInv(c, s0, before);
    StepKeepsInv(c, s, a);
    JobFollows(c, s, a, earlier);
    RunFollows(c, s', after, earlier);
    RunFollows(c, s', after, a.id);
    assert a.checked - s.jobs[earlier].createdAt * 1_000_000 >= c.minInterval * 1_000_000;
  }

  /** With several nodes a submission can land between a worker's failed claim and
      its `_wake.clear()`: the worker parks although a job is queued. */
  lemma ClusterCanMissWakeUp(c: Config, s: State, w: WorkerId, id: JobId, key: CacheKey)
    returns (acts: seq<Action>, s': State)
    requires !c.single && Inv(c, s) && w in s.workers && s.workers[w].Idle?
    requires id !in s.jobs && !HasActive(s.jobs, key)
    ensures acts == [ClaimNothing(w), Submit(w.node, id, key, Auto, "", s.now), Park(w)]
    ensures Run(c, s, acts) && s' == After(c, s, acts)
    ensures id in s'.jobs && s'.jobs[id].status.Queued? && w in s'.workers && s'.workers[w].Parked?
  {
    var none, submit, park := ClaimNothing(w), Submit(w.node, id, key, Auto, "", s.now), Park(w);
    acts := [none, submit, park];
    var s2 := Apply(c, Apply(c, s, none), submit);
    assert s2.jobs == s.jobs[id := NewJob(key, Auto, "", Sec(s.now))];
    RunOfThree(c, s, none, submit, park);
    s' := Apply(c, s2, park);
  }

  predicate TriesClaim(a: Action, w: WorkerId) {
    (a.Claim? || a.ClaimNothing?) && a.w == w
  }

  /** When the next step of a parked or idle worker is due: a parked worker resumes
      when its timer runs out, an idle one claims at once. */
  predicate DueAt(c: Config, s: State, w: WorkerId, due: int) {
    && w in s.workers
    && (s.workers[w].Parked? ==> due == s.workers[w].since + c.idlePoll)
    && (s.workers[w].Idle? ==> due <= s.now)
  }

  ghost function NextDue(c: Config, s: State, a: Action, w: WorkerId, due: int): int
    requires Enabled(c, s, a)
  {
    var s' := Apply(c, s, a);
    if w in s.workers && w in s'.workers && s.workers[w] == s'.workers[w] then due
    else if w in s'.workers && s'.workers[w].Parked? then s'.workers[w].since + c.idlePoll
    else s'.now
  }

  /** The event loop takes a step of `w` within `delay` microseconds of its being
      due: until it is taken the clock does not advance further than that. */
  ghost predicate Prompt(c: Config, s: State, acts: seq<Action>, w: WorkerId, due: int, delay: nat)
    requires Run(c, s, acts)
    decreases |acts|
  {
    acts != [] ==>
      && (acts[0].Tick? && w in s.workers && (s.workers[w].Parked? || s.workers[w].Idle?) ==>
            acts[0].to <= due + delay)
      && Prompt(c, Apply(c, s, acts[0]), acts[1..], w, NextDue(c, s, acts[0], w, due), delay)
  }

  /** A parked or idle worker stays where it is, or comes back to its loop head, or
      claims. */
  lemma WaitingStep(c: Config, s: State, a: Action, w: WorkerId)
    requires Enabled(c, s, a) && a != Crash(w.node) && !TriesClaim(a, w)
    requires w in s.workers && (s.workers[w].Parked? || s.workers[w].Idle?)
    ensures w in Apply(c, s, a).workers
    ensures
      || Apply(c, s, a).workers[w] == s.workers[w]
      || (s.workers[w].Parked? && Apply(c, s, a).workers[w].Idle? && Apply(c, s, a).now == s.now)
    ensures Apply(c, s, a).now == if a.Tick? then a.to else s.now
  {
  }

  lemma {:induction false} ClaimsByDeadline(c: Config, s: State, acts: seq<Action>, w: WorkerId,
                                            due: int, delay: nat, deadline: int)
    returns (k: nat)
    requires Run(c, s, acts) && Prompt(c, s, acts, w, due, delay)
    requires DueAt(c, s, w, due) && (s.workers[w].Parked? || s.workers[w].Idle?) && s.now <= due + delay
    requires due + (if s.workers[w].Parked? then 2 * delay else delay) <= deadline
    requires After(c, s, acts).now > deadline
    requires forall j :: 0 <= j < |acts| ==> acts[j] != Crash(w.node)
    ensures k < |acts| && TriesClaim(acts[k], w) && StateAt(c, s, acts, k).now <= deadline
    decreases |acts|
  {
    if TriesClaim(acts[0], w) {
      k := 0;
    } else {
      WaitingStep(c, s, acts[0], w);
      k := ClaimsByDeadline(c, Apply(c, s, acts[0]), acts[1..], w, NextDue(c, s, acts[0], w, due), delay, deadline);
      k := k + 1;
    }
  }

  /** A missed wake-up costs at most one idle poll: a worker that parks, and whose
      node stays up for that long, claims again no later than `idle_poll_s` after it
      parked, plus twice the event loop's delay (once to resume, once to claim). */
  lemma ParkedClaimsAgain(c: Config, s: State, acts: seq<Action>, w: WorkerId, delay: nat)
    returns (k: nat)
    requires Run(c, s, acts) && acts != [] && acts[0] == Park(w)
    requires Prompt(c, s, acts, w, s.now, delay)
    requires After(c, s, acts).now > s.now + c.idlePoll + 2 * delay
    requires forall j :: 0 <= j < |acts| ==> acts[j] != Crash(w.node)
    ensures 0 < k < |acts| && TriesClaim(acts[k], w)
    ensures StateAt(c, s, acts, k).now <= s.now + c.idlePoll + 2 * delay
  {
    var s1 := Apply(c, s, acts[0]);
    k := ClaimsByDeadline(c, s1, acts[1..], w, s1.now + c.idlePoll, delay, s1.now + c.idlePoll + 2 * delay);
    k := k + 1;
  }
}
