/** What `PgStore.submit_job` answers when the active job it conflicted with is no
    longer active at its first select: the newest row of the key at its second.
    The source takes that row for the winner, finished with a fresh artifact. */
module Coalescing {
  import opened Options
  import opened Blobs
  import opened JobTable
  import opened Text
  import opened Protocol
  import opened Invariant
  import opened Lifecycle
  import opened Traces

  /** The insert conflicts with `winner` in `s`, the first select runs after `m`
      actions of the cluster and finds nothing active, and the second select reads
      `answer` after all of them. */
  ghost predicate FallsBack(c: Config, s: State, acts: seq<Action>, m: nat,
                            key: CacheKey, winner: JobId, answer: JobId)
  {
    && !c.single && Run(c, s, acts) && m <= |acts|
    && ActiveFor(s.jobs, key, winner)
    && !HasActive(StateAt(c, s, acts, m).jobs, key)
    && IsNewest(After(c, s, acts).jobs, key, answer)
  }

  /** The action inserts a job of the key that is listed before `winner`. */
  ghost predicate Supersedes(s: State, a: Action, key: CacheKey, winner: JobId)
    requires winner in s.jobs
  {
    && a.Submit? && a.key == key && !HasActive(s.jobs, key)
    && (Sec(a.stamp) > s.jobs[winner].createdAt || (Sec(a.stamp) == s.jobs[winner].createdAt && Less(winner, a.id)))
  }

  ghost predicate SupersededAt(c: Config, s: State, acts: seq<Action>, k: nat, key: CacheKey, winner: JobId)
    requires Run(c, s, acts)
  {
    && k < |acts| && winner in StateAt(c, s, acts, k).jobs
    && Supersedes(StateAt(c, s, acts, k), acts[k], key, winner)
  }

  lemma NewerIsNotOlder(jobs: Table, i: JobId, j: JobId)
    requires i in jobs && j in jobs && i != j
    ensures Newer(jobs, i, j) <==> !Newer(jobs, j, i)
  {
    LessTotal(i, j);
    if Less(i, j) && Less(j, i) {
      LessTransitive(i, j, i);
      LessIrreflexive(i);
    }
  }

  /** One action leaves the winner the newest row exactly when it was and the
      action does not supersede it. */
  lemma NewestAfter(c: Config, s: State, a: Action, key: CacheKey, winner: JobId)
    requires !c.single && Owned(s) && Enabled(c, s, a) && winner in s.jobs && s.jobs[winner].key == key
    ensures IsNewest(Apply(c, s, a).jobs, key, winner)
      <==> IsNewest(s.jobs, key, winner) && !Supersedes(s, a, key, winner)
  {
    var jobs' := Apply(c, s, a).jobs;
    JobFollows(c, s, a, winner);
    forall i | i in s.jobs && s.jobs[i].key == key && i != winner
      ensures i in jobs' && jobs'[i].key == key && (Newer(jobs', winner, i) <==> Newer(s.jobs, winner, i))
    {
      JobFollows(c, s, a, i);
    }
    forall i | i in jobs' && jobs'[i].key == key && i != winner
      ensures i in s.jobs ==> s.jobs[i].key == key
      ensures i !in s.jobs ==> (Newer(jobs', winner, i) <==> !Supersedes(s, a, key, winner))
    {
      if i in s.jobs {
        JobFollows(c, s, a, i);
      } else {
        NewJobQueued(c, s, a, i);
        NewerIsNotOlder(jobs', winner, i);
      }
    }
    if Supersedes(s, a, key, winner) {
      assert a.id in jobs' && a.id !in s.jobs && jobs'[a.id].key == key;
    }
  }

  lemma {:induction false} WinnerStays(c: Config, s: State, acts: seq<Action>, n: nat, winner: JobId)
    requires Inv(c, s) && Run(c, s, acts) && n <= |acts| && winner in s.jobs
    ensures winner in StateAt(c, s, acts, n).jobs
    ensures StateAt(c, s, acts, n).jobs[winner].key == s.jobs[winner].key
    decreases n
  {
    if n > 0 {
      JobFollows(c, s, acts[0], winner);
      StepKeepsInv(c, s, acts[0]);
      WinnerStays(c, Apply(c, s, acts[0]), acts[1..], n - 1, winner);
    }
  }

  lemma {:induction false} NewestAt(c: Config, s: State, acts: seq<Action>, n: nat, key: CacheKey, winner: JobId)
    requires !c.single && Inv(c, s) && Run(c, s, acts) && n <= |acts|
    requires winner in s.jobs && s.jobs[winner].key == key
    ensures IsNewest(StateAt(c, s, acts, n).jobs, key, winner)
      <==> IsNewest(s.jobs, key, winner) && forall k: nat :: k < n ==> !SupersededAt(c, s, acts, k, key, winner)
    decreases n
  {
    if n > 0 {
      var t := StateAt(c, s, acts, n - 1);
      NewestAt(c, s, acts, n - 1, key, winner);
      StateAtNext(c, s, acts, n - 1);
      StateAtKeepsInv(c, s, acts, n - 1);
      WinnerStays(c, s, acts, n - 1, winner);
      NewestAfter(c, t, acts[n - 1], key, winner);
      assert SupersededAt(c, s, acts, n - 1, key, winner) <==> Supersedes(t, acts[n - 1], key, winner);
    }
  }

  /** The row answered is a done job exactly when it was done at the conflict or
      its own worker has recorded a success since. */
  lemma AnswerIsDone(c: Config, s: State, acts: seq<Action>, m: nat, key: CacheKey, winner: JobId, answer: JobId)
    requires Inv(c, s) && FallsBack(c, s, acts, m, key, winner, answer)
    ensures IsDone(After(c, s, acts), answer)
      <==> IsDone(s, answer) || exists k: nat, w :: FinishesAt(c, s, acts, k, w, answer, true)
  {
    DoneIffFinishedOk(c, s, acts, answer);
  }

  /** When the source's claim holds: the answer is the winner, and done, exactly if
      the winner was the newest row of its key at the conflict, no later insert was
      listed before it, and its worker recorded a success. */
  lemma AnswerIsFinishedWinner(c: Config, s: State, acts: seq<Action>, m: nat,
                               key: CacheKey, winner: JobId, answer: JobId)
    requires Inv(c, s) && FallsBack(c, s, acts, m, key, winner, answer)
    ensures answer == winner && IsDone(After(c, s, acts), answer) <==>
      && IsNewest(s.jobs, key, winner)
      && (forall k: nat :: k < |acts| ==> !SupersededAt(c, s, acts, k, key, winner))
      && exists k: nat, w :: FinishesAt(c, s, acts, k, w, winner, true)
  {
    StateAtEnd(c, s, acts);
    NewestAt(c, s, acts, |acts|, key, winner);
    if IsNewest(After(c, s, acts).jobs, key, winner) {
      NewestIsUnique(After(c, s, acts).jobs, key, winner, answer);
    }
    DoneIffFinishedOk(c, s, acts, winner);
  }
}
