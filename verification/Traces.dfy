/** The order of events within one run: which claim, which row and which finish
    made a job done. */
module Traces {
  import opened Options
  import opened Blobs
  import opened JobTable
  import opened Protocol
  import opened Invariant

  /** The state after the first `n` actions. */
  ghost function StateAt(c: Config, s: State, acts: seq<Action>, n: nat): State
    requires Run(c, s, acts) && n <= |acts|
    decreases n
  {
    if n == 0 then s else StateAt(c, Apply(c, s, acts[0]), acts[1..], n - 1)
  }

  lemma {:induction false} StateAtNext(c: Config, s: State, acts: seq<Action>, n: nat)
    requires Run(c, s, acts) && n < |acts|
    ensures Enabled(c, StateAt(c, s, acts, n), acts[n])
    ensures StateAt(c, s, acts, n + 1) == Apply(c, StateAt(c, s, acts, n), acts[n])
    decreases n
  {
    if n > 0 {
      StateAtNext(c, Apply(c, s, acts[0]), acts[1..], n - 1);
    } else {
      assert StateAt(c, s, acts, 1) == StateAt(c, Apply(c, s, acts[0]), acts[1..], 0);
    }
  }

  lemma {:induction false} StateAtEnd(c: Config, s: State, acts: seq<Action>)
    requires Run(c, s, acts)
    ensures StateAt(c, s, acts, |acts|) == After(c, s, acts)
    decreases |acts|
  {
    if acts != [] {
      StateAtEnd(c, Apply(c, s, acts[0]), acts[1..]);
    }
  }

  lemma {:induction false} StateAtKeepsInv(c: Config, s: State, acts: seq<Action>, n: nat)
    requires Inv(c, s) && Run(c, s, acts) && n <= |acts|
    ensures Inv(c, StateAt(c, s, acts, n))
    decreases n
  {
    if n > 0 {
      StepKeepsInv(c, s, acts[0]);
      StateAtKeepsInv(c, Apply(c, s, acts[0]), acts[1..], n - 1);
    }
  }

  /** The `i`-th action is the claim of `id` by `w`. */
  predicate ClaimsAt(acts: seq<Action>, i: nat, w: WorkerId, id: JobId) {
    i < |acts| && acts[i].Claim? && acts[i].w == w && acts[i].id == id
  }

  /** The `j`-th action is `w` writing the renders row of `id`. */
  ghost predicate PutsRowAt(c: Config, s: State, acts: seq<Action>, j: nat, w: WorkerId, id: JobId)
    requires Run(c, s, acts)
  {
    j < |acts| && acts[j] == PutRow(w) && Executes(StateAt(c, s, acts, j), w, id)
  }

  /** The `k`-th action is `w` recording the outcome of `id`. */
  ghost predicate FinishesAt(c: Config, s: State, acts: seq<Action>, k: nat, w: WorkerId, id: JobId, ok: bool)
    requires Run(c, s, acts)
  {
    && k < |acts| && acts[k].FinishJob? && acts[k].w == w
    && FinishingWith(StateAt(c, s, acts, k), w, id, ok)
  }

  predicate FinishingWith(s: State, w: WorkerId, id: JobId, ok: bool) {
    w in s.workers && s.workers[w].Finishing? && s.workers[w].id == id && s.workers[w].ok == ok
  }

  ghost predicate IsDone(s: State, id: JobId) {
    id in s.jobs && s.jobs[id].status.Done?
  }

  /** `w` has `id` in hand in every state from `from` to `upto`. */
  ghost predicate Holds(c: Config, s: State, acts: seq<Action>, w: WorkerId, id: JobId, from: nat, upto: nat)
    requires Run(c, s, acts) && upto <= |acts|
  {
    forall n: nat :: from <= n <= upto ==> Executes(StateAt(c, s, acts, n), w, id)
  }

  // One step back.

  lemma BecameDone(c: Config, s: State, a: Action, id: JobId)
    requires Enabled(c, s, a) && IsDone(Apply(c, s, a), id)
    ensures IsDone(s, id) || (a.FinishJob? && FinishingWith(s, a.w, id, true))
  {
    if id in s.jobs { DoneWasFinished(c, s, a, id); } else { NewJobQueued(c, s, a, id); }
  }

  lemma BecameFinishing(c: Config, s: State, a: Action, w: WorkerId, id: JobId)
    requires Enabled(c, s, a) && FinishingWith(Apply(c, s, a), w, id, true)
    ensures FinishingWith(s, w, id, true) || (a == PutRow(w) && Executes(s, w, id))
  {
  }

  lemma BecameExecuting(c: Config, s: State, a: Action, w: WorkerId, id: JobId)
    requires Owned(s) && Enabled(c, s, a) && Executes(Apply(c, s, a), w, id)
    ensures Executes(s, w, id) || (a.Claim? && a.w == w && a.id == id)
  {
    WasWorking(c, s, a, w);
  }

  // Back to the event.

  lemma {:induction false} FinishFound(c: Config, s: State, acts: seq<Action>, n: nat, id: JobId)
    returns (k: nat, w: WorkerId)
    requires Run(c, s, acts) && n <= |acts|
    requires !IsDone(s, id) && IsDone(StateAt(c, s, acts, n), id)
    ensures k < n && FinishesAt(c, s, acts, k, w, id, true)
    decreases n
  {
    StateAtNext(c, s, acts, n - 1);
    BecameDone(c, StateAt(c, s, acts, n - 1), acts[n - 1], id);
    if IsDone(StateAt(c, s, acts, n - 1), id) {
      k, w := FinishFound(c, s, acts, n - 1, id);
    } else {
      k, w := n - 1, acts[n - 1].w;
    }
  }

  lemma {:induction false} RowFound(c: Config, s: State, acts: seq<Action>, n: nat, w: WorkerId, id: JobId)
    returns (j: nat)
    requires Run(c, s, acts) && n <= |acts|
    requires !FinishingWith(s, w, id, true) && FinishingWith(StateAt(c, s, acts, n), w, id, true)
    ensures j < n && PutsRowAt(c, s, acts, j, w, id) && Holds(c, s, acts, w, id, j, n)
    decreases n
  {
    StateAtNext(c, s, acts, n - 1);
    BecameFinishing(c, StateAt(c, s, acts, n - 1), acts[n - 1], w, id);
    if FinishingWith(StateAt(c, s, acts, n - 1), w, id, true) {
      j := RowFound(c, s, acts, n - 1, w, id);
    } else {
      j := n - 1;
    }
  }

  lemma {:induction false} ClaimFound(c: Config, s: State, acts: seq<Action>, n: nat, w: WorkerId, id: JobId)
    returns (i: nat)
    requires Inv(c, s) && Run(c, s, acts) && n <= |acts|
    requires !Executes(s, w, id) && Executes(StateAt(c, s, acts, n), w, id)
    ensures i < n && ClaimsAt(acts, i, w, id) && Holds(c, s, acts, w, id, i + 1, n)
    decreases n
  {
    StateAtNext(c, s, acts, n - 1);
    StateAtKeepsInv(c, s, acts, n - 1);
    BecameExecuting(c, StateAt(c, s, acts, n - 1), acts[n - 1], w, id);
    if Executes(StateAt(c, s, acts, n - 1), w, id) {
      i := ClaimFound(c, s, acts, n - 1, w, id);
    } else {
      i := n - 1;
    }
  }

  /** Done means published, in order: some worker claimed the job, later wrote its
      row, later recorded the outcome, and had the job in hand all the while. */
  lemma DoneWasPublished(c: Config, s0: State, acts: seq<Action>, id: JobId)
    returns (w: WorkerId, i: nat, j: nat, k: nat)
    requires Initial(s0) && Run(c, s0, acts) && IsDone(After(c, s0, acts), id)
    ensures i < j < k < |acts|
    ensures ClaimsAt(acts, i, w, id)
    ensures PutsRowAt(c, s0, acts, j, w, id)
    ensures FinishesAt(c, s0, acts, k, w, id, true)
    ensures forall n: nat :: i < n <= k ==> Executes(StateAt(c, s0, acts, n), w, id)
  {
    StateAtEnd(c, s0, acts);
    k, w := FinishFound(c, s0, acts, |acts|, id);
    j := RowFound(c, s0, acts, k, w, id);
    i := ClaimFound(c, s0, acts, j, w, id);
  }

  lemma {:induction false} DoneStays(c: Config, s: State, acts: seq<Action>, m: nat, n: nat, id: JobId)
    requires Inv(c, s) && Run(c, s, acts) && m <= n <= |acts| && IsDone(StateAt(c, s, acts, m), id)
    ensures IsDone(StateAt(c, s, acts, n), id)
    decreases n - m
  {
    if m < n {
      StateAtNext(c, s, acts, m);
      StateAtKeepsInv(c, s, acts, m);
      JobFollows(c, StateAt(c, s, acts, m), acts[m], id);
      DoneStays(c, s, acts, m + 1, n, id);
    }
  }

  lemma SuccessIsDone(c: Config, s: State, a: Action, id: JobId)
    requires Owned(s) && Enabled(c, s, a) && a.FinishJob? && FinishingWith(s, a.w, id, true)
    ensures IsDone(Apply(c, s, a), id)
  {
    assert Owns(s, a.w);
  }

  lemma FinishMakesDone(c: Config, s: State, acts: seq<Action>, k: nat, w: WorkerId, id: JobId)
    requires Inv(c, s) && Run(c, s, acts) && FinishesAt(c, s, acts, k, w, id, true)
    ensures IsDone(StateAt(c, s, acts, |acts|), id)
  {
    StateAtNext(c, s, acts, k);
    StateAtKeepsInv(c, s, acts, k);
    SuccessIsDone(c, StateAt(c, s, acts, k), acts[k], id);
    DoneStays(c, s, acts, k + 1, |acts|, id);
  }

  /** A job is done at the end of a run exactly when it was done before or the run
      records a success for it. */
  lemma DoneIffFinishedOk(c: Config, s: State, acts: seq<Action>, id: JobId)
    requires Inv(c, s) && Run(c, s, acts)
    ensures IsDone(After(c, s, acts), id)
      <==> IsDone(s, id) || exists k: nat, w :: FinishesAt(c, s, acts, k, w, id, true)
  {
    StateAtEnd(c, s, acts);
    if IsDone(s, id) {
      DoneStays(c, s, acts, 0, |acts|, id);
    } else if k: nat, w :| FinishesAt(c, s, acts, k, w, id, true) {
      FinishMakesDone(c, s, acts, k, w, id);
    } else if IsDone(After(c, s, acts), id) {
      var k, w := FinishFound(c, s, acts, |acts|, id);
    }
  }
}
