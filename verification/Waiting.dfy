/** The done-events of `RenderQueue.wait` (`queue.py`): any number of waiters,
    their polls, timeouts and cancellations, and the finishing worker, in any
    interleaving of the store reads and the dictionary accesses between them. */
module Waiting {
  import opened JobTable

  type WaiterId = nat

  /** An `asyncio.Event` object; the serial number is its identity. */
  datatype Event = Event(job: JobId, serial: nat)

  /** `First`: in the `get_job` before the `try`.
      `Polling`: in a later `get_job`; `woken` when the event, not the poll, ended the sleep.
      `Deciding`: at the loop test, having read whether the job is terminal.
      `registered`: this waiter has called `setdefault` at least once. */
  datatype Pc =
    | First(job: JobId)
    | Polling(job: JobId, woken: bool)
    | Deciding(job: JobId, terminal: bool, registered: bool)
    | Sleeping(event: Event)

  /** `finished`: jobs with a terminal row.  `owed`: jobs whose finishing worker
      has written that row and has yet to pop the event. */
  datatype State = State(
    done: map<JobId, Event>,
    fired: set<Event>,
    next: nat,
    waiters: map<WaiterId, Pc>,
    finished: set<JobId>,
    owed: set<JobId>)

  datatype Action =
    | Enter(u: WaiterId, job: JobId)
    | Read(u: WaiterId)
    | Register(u: WaiterId)
    | Wake(u: WaiterId)
    | PollTimeout(u: WaiterId)
    | Leave(u: WaiterId)
    | Cancel(u: WaiterId)
    | FinishRow(job: JobId, here: bool)
    | Fire(job: JobId)

  function JobOf(pc: Pc): JobId {
    match pc
    case First(job) => job
    case Polling(job, _) => job
    case Deciding(job, _, _) => job
    case Sleeping(event) => event.job
  }

  predicate Registered(pc: Pc) {
    pc.Polling? || pc.Sleeping? || (pc.Deciding? && pc.registered)
  }

  predicate Enabled(s: State, a: Action) {
    match a
    case Enter(u, job) => u !in s.waiters
    case Read(u) => u in s.waiters && (s.waiters[u].First? || s.waiters[u].Polling?)
    case Register(u) => u in s.waiters && s.waiters[u].Deciding? && !s.waiters[u].terminal
    case Wake(u) => u in s.waiters && s.waiters[u].Sleeping? && s.waiters[u].event in s.fired
    case PollTimeout(u) => u in s.waiters && s.waiters[u].Sleeping?
    case Leave(u) => u in s.waiters && s.waiters[u].Deciding?  // terminal, or the deadline has passed
    case Cancel(u) => u in s.waiters
    case FinishRow(job, here) => true
    case Fire(job) => job in s.owed
  }

  /** The `finally` block pops the job's entry, whoever created it. */
  function Apply(s: State, a: Action): State
    requires Enabled(s, a)
  {
    match a
    case Enter(u, job) => s.(waiters := s.waiters[u := First(job)])
    case Read(u) =>
      var pc := s.waiters[u];
      s.(waiters := s.waiters[u := Deciding(JobOf(pc), JobOf(pc) in s.finished, pc.Polling?)])
    case Register(u) =>
      var job := s.waiters[u].job;
      if job in s.done then s.(waiters := s.waiters[u := Sleeping(s.done[job])])
      else
        var event := Event(job, s.next);
        s.(done := s.done[job := event], next := s.next + 1, waiters := s.waiters[u := Sleeping(event)])
    case Wake(u) => s.(waiters := s.waiters[u := Polling(s.waiters[u].event.job, true)])
    case PollTimeout(u) => s.(waiters := s.waiters[u := Polling(s.waiters[u].event.job, false)])
    case Leave(u) => s.(done := s.done - {s.waiters[u].job}, waiters := s.waiters - {u})
    case Cancel(u) =>
      if s.waiters[u].First? then s.(waiters := s.waiters - {u})
      else s.(done := s.done - {JobOf(s.waiters[u])}, waiters := s.waiters - {u})
    case FinishRow(job, here) =>
      s.(finished := s.finished + {job}, owed := if here then s.owed + {job} else s.owed)
    case Fire(job) =>
      s.(owed := s.owed - {job}, done := s.done - {job},
         fired := if job in s.done then s.fired + {s.done[job]} else s.fired)
  }

  predicate Initial(s: State) {
    s == State(map[], {}, 0, map[], {}, {})
  }

  predicate Run(s: State, acts: seq<Action>)
    decreases |acts|
  {
    acts == [] || (Enabled(s, acts[0]) && Run(Apply(s, acts[0]), acts[1..]))
  }

  function After(s: State, acts: seq<Action>): State
    requires Run(s, acts)
    decreases |acts|
  {
    if acts == [] then s else After(Apply(s, acts[0]), acts[1..])
  }

  ghost predicate Waits(s: State, u: WaiterId, job: JobId) {
    u in s.waiters && Registered(s.waiters[u]) && JobOf(s.waiters[u]) == job
  }

  ghost predicate EntriesHaveWaiters(s: State) {
    forall job :: job in s.done ==> exists u :: Waits(s, u, job)
  }

  ghost predicate Inv(s: State) {
    && EntriesHaveWaiters(s)
    && (forall job :: job in s.done ==>
          s.done[job].job == job && s.done[job] !in s.fired && s.done[job].serial < s.next)
    && (forall e :: e in s.fired ==> e.job in s.finished && e.serial < s.next)
    && s.owed <= s.finished
    && (forall u :: u in s.waiters && s.waiters[u].Polling? && s.waiters[u].woken ==> s.waiters[u].job in s.finished)
  }

  lemma KeepsEntriesHaveWaiters(s: State, a: Action)
    requires Inv(s) && Enabled(s, a)
    ensures EntriesHaveWaiters(Apply(s, a))
  {
    var s' := Apply(s, a);
    forall job | job in s'.done
      ensures exists u :: Waits(s', u, job)
    {
      if a.Register? && job !in s.done {
        assert Waits(s', a.u, job);
      } else {
        var u :| Waits(s, u, job);
        assert Waits(s', u, job);
      }
    }
  }

  lemma {:induction false} RunKeepsInv(s: State, acts: seq<Action>)
    requires Inv(s) && Run(s, acts)
    ensures Inv(After(s, acts))
    decreases |acts|
  {
    if acts != [] {
      KeepsEntriesHaveWaiters(s, acts[0]);
      RunKeepsInv(Apply(s, acts[0]), acts[1..]);
    }
  }

  /** Nothing leaks: every `_done` entry belongs to a waiter still inside `wait`;
      with no waiter left the dictionary is empty. */
  lemma EntriesBelongToWaiters(s: State, acts: seq<Action>)
    requires Initial(s) && Run(s, acts)
    ensures var s' := After(s, acts);
      && (forall job :: job in s'.done ==> exists u :: Waits(s', u, job))
      && (s'.waiters == map[] ==> s'.done == map[])
  {
    RunKeepsInv(s, acts);
    var s' := After(s, acts);
    if job :| job in s'.done {
      var u :| Waits(s', u, job);
    }
  }

  /** The `i`-th action is a finish of the job by a local worker, and no fire follows it. */
  predicate FinishedLast(acts: seq<Action>, i: int, job: JobId) {
    0 <= i < |acts| && acts[i] == FinishRow(job, true) && forall j :: i < j < |acts| ==> acts[j] != Fire(job)
  }

  /** Some worker of this process has written the job's row and has not fired since. */
  ghost predicate OwesFire(acts: seq<Action>, job: JobId) {
    exists i :: FinishedLast(acts, i, job)
  }

  lemma OwedNext(acts: seq<Action>, a: Action, job: JobId)
    ensures OwesFire(acts + [a], job) <==> a == FinishRow(job, true) || (OwesFire(acts, job) && a != Fire(job))
  {
    var all := acts + [a];
    if a == FinishRow(job, true) {
      assert FinishedLast(all, |acts|, job);
    } else if OwesFire(acts, job) && a != Fire(job) {
      var i :| FinishedLast(acts, i, job);
      assert FinishedLast(all, i, job);
    }
    if OwesFire(all, job) && a != FinishRow(job, true) {
      var i :| FinishedLast(all, i, job);
      assert all[|acts|] == a;
      assert forall j :: i < j < |acts| ==> all[j] == acts[j];
      assert FinishedLast(acts, i, job);
    }
  }

  lemma {:induction false} OwedUnderway(s: State, before: seq<Action>, acts: seq<Action>, job: JobId)
    requires Run(s, acts) && (job in s.owed <==> OwesFire(before, job))
    ensures Enabled(After(s, acts), Fire(job)) <==> OwesFire(before + acts, job)
    decreases |acts|
  {
    if acts == [] {
      assert before + acts == before;
    } else {
      OwedNext(before, acts[0], job);
      OwedUnderway(Apply(s, acts[0]), before + [acts[0]], acts[1..], job);
      assert before + acts == before + [acts[0]] + acts[1..];
    }
  }

  /** In every run the job's event is about to be fired exactly when a worker of this
      process has written its terminal row and has not fired since: no fire is lost,
      repeated, or ahead of the row. */
  lemma FiresFollowFinishes(s: State, acts: seq<Action>, job: JobId)
    requires Initial(s) && Run(s, acts)
    ensures Enabled(After(s, acts), Fire(job)) <==> OwesFire(acts, job)
    ensures OwesFire(acts, job) ==> job in After(s, acts).finished
  {
    OwedUnderway(s, [], acts, job);
    assert [] + acts == acts;
    RunKeepsInv(s, acts);
  }

  /** A waiter woken by its event finds a terminal row on its next read, so no
      wait sleeps again after its event fired. */
  lemma EventMeansTerminal(s: State, acts: seq<Action>, u: WaiterId)
    requires Initial(s) && Run(s, acts)
    requires u in After(s, acts).waiters && After(s, acts).waiters[u].Polling? && After(s, acts).waiters[u].woken
    ensures var s' := Apply(After(s, acts), Read(u));
      s'.waiters[u].terminal && !Enabled(s', Register(u)) && Enabled(s', Leave(u))
  {
    RunKeepsInv(s, acts);
  }

  /** Firing reaches every waiter that sleeps on the current entry.  A waiter whose
      entry another waiter's departure has popped is not reached; its poll is. */
  lemma FireReachesCurrentSleepers(s: State, acts: seq<Action>, u: WaiterId, job: JobId)
    requires Initial(s) && Run(s, acts) && job in After(s, acts).owed
    requires u in After(s, acts).waiters && After(s, acts).waiters[u].Sleeping?
    requires After(s, acts).waiters[u].event.job == job
    ensures var s1 := After(s, acts); var s2 := Apply(s1, Fire(job));
      && (Enabled(s2, Wake(u)) <==>
            s1.waiters[u].event in s1.fired || (job in s1.done && s1.done[job] == s1.waiters[u].event))
      && Enabled(s2, PollTimeout(u)) && job in s2.finished && job !in s2.done
  {
    RunKeepsInv(s, acts);
  }
}
