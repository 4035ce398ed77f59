/** The clustered limiter (`PgRateLimiter` in `store_pg.py`): transactions that
    delete old hits, count and insert, on any number of connections, interleaved
    statement by statement under READ COMMITTED. */
module PgRateLimiter {
  import opened FiniteSets

  /** `now() - interval '60 seconds'`, in microseconds. */
  const WINDOW: int := 60_000_000

  type TxId = nat

  /** `ts` defaults to `now()`, which in Postgres is the transaction's start. */
  datatype Row = Row(identity: string, ts: int)

  /** `admitted`: the count was below the limit and the row is inserted, visible
      to others only after the commit.  `doomed`: rows this transaction deletes. */
  datatype Tx = Tx(identity: string, start: int, doomed: set<TxId>, admitted: bool)

  /** `rows`: the committed hits, each named after the transaction that made it.
      `accepted`: every hit ever committed (history). */
  datatype State = State(rows: map<TxId, Row>, txs: map<TxId, Tx>, accepted: map<TxId, Row>, now: int)

  datatype Action =
    | Tick(to: int)
    | Begin(x: TxId, identity: string)
    | DeleteOld(x: TxId)
    | CountAndInsert(x: TxId)
    | CountAndRefuse(x: TxId)
    | Commit(x: TxId)
    | Abort(x: TxId)
    | Prune

  /** Committed hits of the identity stamped after `from`. */
  ghost function Hits(rows: map<TxId, Row>, identity: string, from: int): set<TxId> {
    set x | x in rows && rows[x].identity == identity && rows[x].ts > from
  }

  /** Admitted but uncommitted hits of the identity stamped after `from`. */
  ghost function Pending(txs: map<TxId, Tx>, identity: string, from: int): set<TxId> {
    set x | x in txs && txs[x].identity == identity && txs[x].admitted && txs[x].start > from
  }

  ghost function OldHits(rows: map<TxId, Row>, identity: string, start: int): set<TxId> {
    set x | x in rows && rows[x].identity == identity && rows[x].ts < start - WINDOW
  }

  /** What the transaction's `SELECT COUNT(*)` returns. */
  ghost function Counted(s: State, x: TxId): nat
    requires x in s.txs
  {
    |set y | y in s.rows && y !in s.txs[x].doomed
       && s.rows[y].identity == s.txs[x].identity && s.rows[y].ts > s.txs[x].start - 60_000_000|
  }

  /** `n`: connections the cluster's pools can have in a transaction at once. */
  ghost predicate Enabled(limit: nat, n: nat, s: State, a: Action) {
    match a
    case Tick(to) => s.now <= to
    case Begin(x, identity) => x !in s.txs && x !in s.accepted && |s.txs| < n
    case DeleteOld(x) => x in s.txs && !s.txs[x].admitted
    case CountAndInsert(x) => x in s.txs && !s.txs[x].admitted && Counted(s, x) < limit
    case CountAndRefuse(x) => x in s.txs && !s.txs[x].admitted && Counted(s, x) >= limit
    case Commit(x) => x in s.txs
    case Abort(x) => x in s.txs
    case Prune => true
  }

  ghost function Apply(s: State, a: Action): State
    requires a.DeleteOld? || a.CountAndInsert? || a.Commit? ==> a.x in s.txs
  {
    match a
    case Tick(to) => s.(now := to)
    case Begin(x, identity) => s.(txs := s.txs[x := Tx(identity, s.now, {}, false)])
    case DeleteOld(x) =>
      var tx := s.txs[x];
      s.(txs := s.txs[x := tx.(doomed := tx.doomed + OldHits(s.rows, tx.identity, tx.start))])
    case CountAndInsert(x) => s.(txs := s.txs[x := s.txs[x].(admitted := true)])
    case CountAndRefuse(x) => s
    case Commit(x) =>
      var tx := s.txs[x];
      var row := Row(tx.identity, tx.start);
      var kept := s.rows - tx.doomed;
      s.(txs := s.txs - {x},
         rows := if tx.admitted then kept[x := row] else kept,
         accepted := if tx.admitted then s.accepted[x := row] else s.accepted)
    case Abort(x) => s.(txs := s.txs - {x})
    case Prune => s.(rows := s.rows - set x | x in s.rows && s.rows[x].ts < s.now - WINDOW)
  }

  predicate Initial(s: State) {
    s.rows == map[] && s.txs == map[] && s.accepted == map[]
  }

  ghost predicate Run(limit: nat, n: nat, s: State, acts: seq<Action>)
    decreases |acts|
  {
    acts == [] || (Enabled(limit, n, s, acts[0]) && Run(limit, n, Apply(s, acts[0]), acts[1..]))
  }

  ghost function After(limit: nat, n: nat, s: State, acts: seq<Action>): State
    requires Run(limit, n, s, acts)
    decreases |acts|
  {
    if acts == [] then s else After(limit, n, Apply(s, acts[0]), acts[1..])
  }

  /** Committed plus admitted hits of an identity after `from`. */
  ghost function Load(s: State, identity: string, from: int): nat {
    |Hits(s.rows, identity, from)| + |Pending(s.txs, identity, from)|
  }

  ghost predicate InFlight(n: nat, s: State) {
    |s.txs| <= n && forall x :: x in s.txs ==> x !in s.accepted && s.txs[x].start <= s.now
  }

  ghost predicate RowsAccepted(s: State) {
    forall x :: x in s.rows ==> x in s.accepted && s.accepted[x] == s.rows[x]
  }

  /** Only hits that have left the window are ever deleted. */
  ghost predicate DoomedAreOld(s: State) {
    forall x, y :: x in s.txs && y in s.txs[x].doomed ==> y in s.accepted && s.accepted[y].ts < s.now - WINDOW
  }

  ghost predicate RecentKept(s: State) {
    forall x :: x in s.accepted && s.accepted[x].ts >= s.now - WINDOW ==> x in s.rows
  }

  ghost predicate WellFormed(n: nat, s: State) {
    InFlight(n, s) && RowsAccepted(s) && DoomedAreOld(s) && RecentKept(s)
  }

  ghost predicate Bounded(limit: nat, n: nat, s: State) {
    forall identity, from :: from >= s.now - WINDOW ==> Load(s, identity, from) <= limit + n - 1
  }

  /** The count as a set of the transaction's own view. */
  lemma CountedIsSeen(s: State, x: TxId)
    requires x in s.txs
    ensures Counted(s, x) == |Hits(s.rows - s.txs[x].doomed, s.txs[x].identity, s.txs[x].start - WINDOW)|
  {
    assert Hits(s.rows - s.txs[x].doomed, s.txs[x].identity, s.txs[x].start - WINDOW) ==
      set y | y in s.rows && y !in s.txs[x].doomed
        && s.rows[y].identity == s.txs[x].identity && s.rows[y].ts > s.txs[x].start - 60_000_000;
  }

  /** Of the rows it saw, a transaction that deletes and commits removes exactly its
      identity's hits from more than 60 seconds before its start. */
  lemma DeletesOwnOldHits(limit: nat, n: nat, s: State, x: TxId, y: TxId)
    requires x in s.txs && !s.txs[x].admitted && s.txs[x].doomed == {} && y in s.rows
    ensures Enabled(limit, n, s, DeleteOld(x)) && Enabled(limit, n, Apply(s, DeleteOld(x)), Commit(x))
    ensures var s' := Apply(Apply(s, DeleteOld(x)), Commit(x));
      y in s'.rows <==> !(s.rows[y].identity == s.txs[x].identity && s.rows[y].ts < s.txs[x].start - 60_000_000)
  {
  }

  /** A rollback is always possible and leaves nothing of the transaction. */
  lemma RollbackLeavesNothing(limit: nat, n: nat, s: State, x: TxId)
    requires x in s.txs
    ensures Enabled(limit, n, s, Abort(x)) && Apply(s, Abort(x)) == s.(txs := s.txs - {x})
  {
  }

  lemma KeepsInFlight(limit: nat, n: nat, s: State, a: Action)
    requires InFlight(n, s) && Enabled(limit, n, s, a)
    ensures InFlight(n, Apply(s, a))
  {
  }

  lemma KeepsDoomedAreOld(limit: nat, n: nat, s: State, a: Action)
    requires InFlight(n, s) && RowsAccepted(s) && DoomedAreOld(s) && Enabled(limit, n, s, a)
    ensures DoomedAreOld(Apply(s, a))
  {
  }

  lemma KeepsRecent(limit: nat, n: nat, s: State, a: Action)
    requires RowsAccepted(s) && DoomedAreOld(s) && RecentKept(s) && Enabled(limit, n, s, a)
    ensures RecentKept(Apply(s, a)) && RowsAccepted(Apply(s, a))
  {
  }

  lemma KeepsWellFormed(limit: nat, n: nat, s: State, a: Action)
    requires WellFormed(n, s) && Enabled(limit, n, s, a)
    ensures WellFormed(n, Apply(s, a))
  {
    KeepsInFlight(limit, n, s, a);
    KeepsDoomedAreOld(limit, n, s, a);
    KeepsRecent(limit, n, s, a);
  }

  /** The heart of the bound: the transaction that counts below the limit sees
      every committed hit of the window, and at most `n` others are under way. */
  lemma AdmissionIsBounded(limit: nat, n: nat, s: State, x: TxId, identity: string, from: int)
    requires WellFormed(n, s) && Enabled(limit, n, s, CountAndInsert(x)) && from >= s.now - WINDOW
    requires identity == s.txs[x].identity && from < s.txs[x].start
    ensures Load(Apply(s, CountAndInsert(x)), identity, from) <= limit + n - 1
  {
    var tx, s' := s.txs[x], Apply(s, CountAndInsert(x));
    CountedIsSeen(s, x);
    SubsetSize(Hits(s.rows, identity, from), Hits(s.rows - tx.doomed, identity, tx.start - WINDOW));
    SubsetSize(Pending(s'.txs, identity, from), s'.txs.Keys);
    assert s'.txs.Keys == s.txs.Keys;
  }

  /** A commit moves its hit from the pending ones to the committed ones. */
  lemma CommitKeepsLoad(s: State, x: TxId, identity: string, from: int)
    requires x in s.txs
    ensures Load(Apply(s, Commit(x)), identity, from) <= Load(s, identity, from)
  {
    var s' := Apply(s, Commit(x));
    var hits, pending := Hits(s.rows, identity, from), Pending(s.txs, identity, from);
    assert Pending(s'.txs, identity, from) == pending - {x};
    if x in pending {
      SubsetSize(Hits(s'.rows, identity, from), hits + {x});
    } else {
      SubsetSize(Hits(s'.rows, identity, from), hits);
    }
  }

  lemma OthersKeepLoad(limit: nat, n: nat, s: State, a: Action, identity: string, from: int)
    requires Enabled(limit, n, s, a) && !a.Commit?
    requires a.CountAndInsert? ==> !(identity == s.txs[a.x].identity && from < s.txs[a.x].start)
    ensures Load(Apply(s, a), identity, from) <= Load(s, identity, from)
  {
    var s' := Apply(s, a);
    SubsetSize(Hits(s'.rows, identity, from), Hits(s.rows, identity, from));
    SubsetSize(Pending(s'.txs, identity, from), Pending(s.txs, identity, from));
  }

  lemma KeepsBounded(limit: nat, n: nat, s: State, a: Action)
    requires WellFormed(n, s) && Bounded(limit, n, s) && Enabled(limit, n, s, a)
    ensures Bounded(limit, n, Apply(s, a))
  {
    var s' := Apply(s, a);
    forall identity, from | from >= s'.now - WINDOW
      ensures Load(s', identity, from) <= limit + n - 1
    {
      assert Load(s, identity, from) <= limit + n - 1;
      if a.CountAndInsert? && identity == s.txs[a.x].identity && from < s.txs[a.x].start {
        AdmissionIsBounded(limit, n, s, a.x, identity, from);
      } else if a.Commit? {
        CommitKeepsLoad(s, a.x, identity, from);
      } else {
        OthersKeepLoad(limit, n, s, a, identity, from);
      }
    }
  }

  lemma {:induction false} RunKeepsBounded(limit: nat, n: nat, s: State, acts: seq<Action>)
    requires WellFormed(n, s) && Bounded(limit, n, s) && Run(limit, n, s, acts)
    ensures WellFormed(n, After(limit, n, s, acts)) && Bounded(limit, n, After(limit, n, s, acts))
    decreases |acts|
  {
    if acts != [] {
      KeepsWellFormed(limit, n, s, acts[0]);
      KeepsBounded(limit, n, s, acts[0]);
      RunKeepsBounded(limit, n, Apply(s, acts[0]), acts[1..]);
    }
  }

  /** With at most `n` transactions in flight the hits ever accepted for an
      identity in the 60 seconds ending now never exceed `limit + n - 1`. */
  lemma OvershootBound(limit: nat, n: nat, s: State, acts: seq<Action>, identity: string)
    requires 1 <= limit && 1 <= n && Initial(s) && Run(limit, n, s, acts)
    ensures var s' := After(limit, n, s, acts);
      |set x | x in s'.accepted && s'.accepted[x].identity == identity && s'.accepted[x].ts > s'.now - 60_000_000|
        <= limit + n - 1
  {
    StartsBounded(limit, n, s);
    RunKeepsBounded(limit, n, s, acts);
    var s' := After(limit, n, s, acts);
    RecentAreCommitted(n, s', identity);
    assert Hits(s'.accepted, identity, s'.now - WINDOW) ==
      set x | x in s'.accepted && s'.accepted[x].identity == identity && s'.accepted[x].ts > s'.now - 60_000_000;
  }

  lemma StartsBounded(limit: nat, n: nat, s: State)
    requires 1 <= limit && Initial(s)
    ensures WellFormed(n, s) && Bounded(limit, n, s)
  {
  }

  lemma RecentAreCommitted(n: nat, s: State, identity: string)
    requires WellFormed(n, s)
    ensures Hits(s.accepted, identity, s.now - WINDOW) == Hits(s.rows, identity, s.now - WINDOW)
    ensures |Hits(s.accepted, identity, s.now - WINDOW)| <= Load(s, identity, s.now - WINDOW)
  {
  }

  // Any 60 seconds, not only the last.

  predicate InInterval(ts: int, from: int) {
    from <= ts < from + WINDOW
  }

  /** Hits of the identity accepted with a stamp in the 60 seconds from `from`. */
  ghost function Within(accepted: map<TxId, Row>, identity: string, from: int): set<TxId> {
    set x | x in accepted && accepted[x].identity == identity && InInterval(accepted[x].ts, from)
  }

  /** Those that transactions under way may still add. */
  ghost function Open(txs: map<TxId, Tx>, identity: string, from: int): set<TxId> {
    set x | x in txs && txs[x].identity == identity && InInterval(txs[x].start, from)
  }

  ghost function Potential(s: State, identity: string, from: int): set<TxId> {
    Within(s.accepted, identity, from) + Open(s.txs, identity, from)
  }

  /** Before the interval is over it lies in the last 60 seconds, up to the hits of
      at most `n` open transactions. */
  lemma EarlyIsBounded(limit: nat, n: nat, s: State, identity: string, from: int)
    requires WellFormed(n, s) && Bounded(limit, n, s) && s.now < from + WINDOW
    ensures |Potential(s, identity, from)| <= limit + 2 * n - 1
  {
    SubsetSize(Within(s.accepted, identity, from), Hits(s.rows, identity, from - 1));
    assert Load(s, identity, from - 1) <= limit + n - 1;
    SubsetSize(Open(s.txs, identity, from), s.txs.Keys);
    assert |s.txs.Keys| == |s.txs|;
  }

  /** Once it is over, no transaction begins in it any more. */
  lemma LateShrinks(limit: nat, n: nat, s: State, a: Action, identity: string, from: int)
    requires Enabled(limit, n, s, a) && Apply(s, a).now >= from + WINDOW
    ensures Potential(Apply(s, a), identity, from) <= Potential(s, identity, from)
  {
  }

  lemma {:induction false} RunKeepsPotential(limit: nat, n: nat, s: State, acts: seq<Action>,
                                             identity: string, from: int)
    requires WellFormed(n, s) && Bounded(limit, n, s) && Run(limit, n, s, acts)
    requires |Potential(s, identity, from)| <= limit + 2 * n - 1
    ensures |Potential(After(limit, n, s, acts), identity, from)| <= limit + 2 * n - 1
    decreases |acts|
  {
    if acts != [] {
      var s' := Apply(s, acts[0]);
      KeepsWellFormed(limit, n, s, acts[0]);
      KeepsBounded(limit, n, s, acts[0]);
      if s'.now < from + WINDOW {
        EarlyIsBounded(limit, n, s', identity, from);
      } else {
        LateShrinks(limit, n, s, acts[0], identity, from);
        SubsetSize(Potential(s', identity, from), Potential(s, identity, from));
      }
      RunKeepsPotential(limit, n, s', acts[1..], identity, from);
    }
  }

  /** No half-open interval of 60 seconds ever holds more than `limit + 2 * n - 1`
      accepted hits of an identity. */
  lemma IntervalBound(limit: nat, n: nat, s: State, acts: seq<Action>, identity: string, from: int)
    requires 1 <= limit && 1 <= n && Initial(s) && Run(limit, n, s, acts)
    ensures var accepted := After(limit, n, s, acts).accepted;
      |set x | x in accepted && accepted[x].identity == identity && from <= accepted[x].ts < from + 60_000_000|
        <= limit + 2 * n - 1
  {
    StartsBounded(limit, n, s);
    assert Potential(s, identity, from) == {};
    RunKeepsPotential(limit, n, s, acts, identity, from);
    var s' := After(limit, n, s, acts);
    SubsetSize(Within(s'.accepted, identity, from), Potential(s', identity, from));
    assert Within(s'.accepted, identity, from) == set x |
      x in s'.accepted && s'.accepted[x].identity == identity && from <= s'.accepted[x].ts < from + 60_000_000;
  }

  // What a count sees.

  /** The hits a transaction counts. */
  ghost function Seen(s: State, x: TxId): set<TxId>
    requires x in s.txs
  {
    Hits(s.rows - s.txs[x].doomed, s.txs[x].identity, s.txs[x].start - WINDOW)
  }

  /** Hits the transaction still counts although they have left the last 60 seconds. */
  ghost function Lingering(s: State, x: TxId): set<TxId>
    requires x in s.txs
  {
    Seen(s, x) - Hits(s.accepted, s.txs[x].identity, s.now - WINDOW)
  }

  /** Hits of the 60 seconds before its start that it no longer counts: deleted meanwhile. */
  ghost function Lost(s: State, x: TxId): set<TxId>
    requires x in s.txs
  {
    Hits(s.accepted, s.txs[x].identity, s.txs[x].start - WINDOW) - Seen(s, x)
  }

  /** The two windows a count lies between differ: some hit was stamped less than 60
      seconds before the transaction began and at least 60 seconds ago. */
  ghost predicate HitBetween(s: State, x: TxId, y: TxId)
    requires x in s.txs
  {
    && y in s.accepted && s.accepted[y].identity == s.txs[x].identity
    && s.txs[x].start - WINDOW < s.accepted[y].ts <= s.now - WINDOW
  }

  /** They include every accepted hit of the last 60 seconds, and only hits of the 60
      seconds before the transaction began. */
  ghost predicate SeenLiesBetween(s: State, x: TxId)
    requires x in s.txs
  {
    && Hits(s.accepted, s.txs[x].identity, s.now - WINDOW) <= Seen(s, x)
    && Seen(s, x) <= Hits(s.accepted, s.txs[x].identity, s.txs[x].start - WINDOW)
  }

  lemma SeenIsBetween(n: nat, s: State, x: TxId)
    requires WellFormed(n, s) && x in s.txs
    ensures SeenLiesBetween(s, x)
  {
  }

  lemma Nested(live: set<TxId>, seen: set<TxId>, before: set<TxId>)
    requires live <= seen <= before
    ensures |seen| == |live| + |seen - live| && |seen| + |before - seen| == |before|
  {
    DifferenceSize(seen, live);
    DifferenceSize(before, seen);
  }

  lemma CountDecomposes(s: State, x: TxId)
    requires x in s.txs && SeenLiesBetween(s, x)
    ensures Counted(s, x) == |Hits(s.accepted, s.txs[x].identity, s.now - WINDOW)| + |Lingering(s, x)|
    ensures Counted(s, x) + |Lost(s, x)| == |Hits(s.accepted, s.txs[x].identity, s.txs[x].start - WINDOW)|
  {
    CountedIsSeen(s, x);
    Nested(Hits(s.accepted, s.txs[x].identity, s.now - WINDOW), Seen(s, x),
           Hits(s.accepted, s.txs[x].identity, s.txs[x].start - WINDOW));
  }

  /** Any number of connections: what a transaction counts lies between the accepted
      hits of the last 60 seconds and those of the 60 seconds before it began.  It is
      the former exactly if no hit lingers, the latter exactly if none was lost. */
  lemma CountIsBetween(limit: nat, n: nat, s: State, acts: seq<Action>, s': State, x: TxId)
    requires 1 <= limit && Initial(s) && Run(limit, n, s, acts) && s' == After(limit, n, s, acts)
    requires x in s'.txs
    ensures var id, start := s'.txs[x].identity, s'.txs[x].start;
      && |Hits(s'.accepted, id, s'.now - WINDOW)| <= Counted(s', x) <= |Hits(s'.accepted, id, start - WINDOW)|
      && (Counted(s', x) == |Hits(s'.accepted, id, s'.now - WINDOW)| <==> Lingering(s', x) == {})
      && (Counted(s', x) == |Hits(s'.accepted, id, start - WINDOW)| <==> Lost(s', x) == {})
  {
    StartsBounded(limit, n, s);
    RunKeepsBounded(limit, n, s, acts);
    SeenIsBetween(n, s', x);
    CountDecomposes(s', x);
  }

  /** One transaction at a time admits only while the last 60 seconds hold fewer than
      `limit` accepted hits, and refuses only if the 60 seconds before it began hold
      `limit`.  When no hit lies between the two windows, in particular when it counts
      at the instant it began, it is the exact sliding window. */
  lemma SerialIsExact(limit: nat, s: State, acts: seq<Action>, s': State, x: TxId)
    requires 1 <= limit && Initial(s) && Run(limit, 1, s, acts) && s' == After(limit, 1, s, acts)
    requires x in s'.txs && !s'.txs[x].admitted
    ensures
      var live := |Hits(s'.accepted, s'.txs[x].identity, s'.now - WINDOW)|;
      && (Enabled(limit, 1, s', CountAndInsert(x)) ==> live < limit)
      && (Enabled(limit, 1, s', CountAndRefuse(x)) ==>
            |Hits(s'.accepted, s'.txs[x].identity, s'.txs[x].start - WINDOW)| >= limit)
      && ((forall y :: y in s'.accepted && s'.accepted[y].identity == s'.txs[x].identity ==>
             !(s'.txs[x].start - 60_000_000 < s'.accepted[y].ts <= s'.now - 60_000_000)) ==>
            && (Enabled(limit, 1, s', CountAndInsert(x)) <==> live < limit)
            && (Enabled(limit, 1, s', CountAndRefuse(x)) <==> live >= limit))
      && live <= limit
  {
    StartsBounded(limit, 1, s);
    RunKeepsBounded(limit, 1, s, acts);
    SeenIsBetween(1, s', x);
    LiveIsBounded(limit, s', s'.txs[x].identity);
    Decides(limit, s', x);
  }

  lemma Decides(limit: nat, s: State, x: TxId)
    requires x in s.txs && SeenLiesBetween(s, x)
    ensures Counted(s, x) < limit ==> |Hits(s.accepted, s.txs[x].identity, s.now - WINDOW)| < limit
    ensures Counted(s, x) >= limit ==> |Hits(s.accepted, s.txs[x].identity, s.txs[x].start - WINDOW)| >= limit
    ensures
      (forall y :: y in s.accepted && s.accepted[y].identity == s.txs[x].identity ==>
         !(s.txs[x].start - 60_000_000 < s.accepted[y].ts <= s.now - 60_000_000)) ==>
      Counted(s, x) == |Hits(s.accepted, s.txs[x].identity, s.now - WINDOW)|
  {
    CountDecomposes(s, x);
    if forall y :: y in s.accepted && s.accepted[y].identity == s.txs[x].identity ==>
         !(s.txs[x].start - 60_000_000 < s.accepted[y].ts <= s.now - 60_000_000) {
      NothingLingers(s, x);
    }
  }

  lemma LiveIsBounded(limit: nat, s: State, identity: string)
    requires WellFormed(1, s) && Bounded(limit, 1, s)
    ensures |Hits(s.accepted, identity, s.now - WINDOW)| <= limit
  {
    RecentAreCommitted(1, s, identity);
    assert Load(s, identity, s.now - WINDOW) <= limit;
  }

  lemma NothingLingers(s: State, x: TxId)
    requires x in s.txs && SeenLiesBetween(s, x) && forall y :: !HitBetween(s, x, y)
    ensures Lingering(s, x) == {}
  {
    if y :| y in Lingering(s, x) {
      assert HitBetween(s, x, y);
    }
  }

  // Runs that attain the bounds.

  ghost predicate Reaches(limit: nat, n: nat, s: State, s': State) {
    exists acts :: Run(limit, n, s, acts) && After(limit, n, s, acts) == s'
  }

  lemma {:induction false} Append(limit: nat, n: nat, s: State, first: seq<Action>, second: seq<Action>)
    requires Run(limit, n, s, first) && Run(limit, n, After(limit, n, s, first), second)
    ensures Run(limit, n, s, first + second)
    ensures After(limit, n, s, first + second) == After(limit, n, After(limit, n, s, first), second)
    decreases |first|
  {
    if first == [] {
      assert first + second == second;
    } else {
      Append(limit, n, Apply(s, first[0]), first[1..], second);
      assert (first + second)[1..] == first[1..] + second;
    }
  }

  lemma RunOfOne(limit: nat, n: nat, s: State, a: Action)
    requires Enabled(limit, n, s, a)
    ensures Run(limit, n, s, [a]) && After(limit, n, s, [a]) == Apply(s, a)
  {
  }

  lemma ThenStep(limit: nat, n: nat, s0: State, s: State, a: Action)
    requires Reaches(limit, n, s0, s) && Enabled(limit, n, s, a)
    ensures Reaches(limit, n, s0, Apply(s, a))
  {
    var acts :| Run(limit, n, s0, acts) && After(limit, n, s0, acts) == s;
    RunOfOne(limit, n, s, a);
    Append(limit, n, s0, acts, [a]);
  }

  predicate AtLeast(x: TxId, c: nat) {
    c <= x
  }

  /** The transactions `c, ..., b - 1`. */
  ghost function Ids(c: nat, b: nat): set<TxId> {
    set x: TxId | x < b && AtLeast(x, c)
  }

  lemma {:induction false} IdsSize(c: nat, b: nat)
    requires c <= b
    ensures |Ids(c, b)| == b - c
    decreases b
  {
    if c == b {
      assert Ids(c, b) == {};
    } else {
      IdsSize(c, b - 1);
      assert AtLeast(b - 1, c);
      assert Ids(c, b) == Ids(c, b - 1) + {b - 1};
    }
  }

  /** A stage of the runs below: transactions below `first` were stamped 0, the later
      ones `stamp`; the rows below `pruned` are gone; the clock shows `now`. */
  datatype Stage = Stage(first: nat, pruned: nat, stamp: int, now: int)

  /** Transactions 0, 1, ... of one identity: those below `c` have committed, those
      below `a` are admitted, those below `b` begun. */
  ghost predicate Burst(s: State, identity: string, g: Stage, c: nat, a: nat, b: nat) {
    && s.now == g.now && 0 <= g.stamp < WINDOW && g.pruned <= c
    && s.accepted.Keys == Ids(0, c) && s.rows.Keys == Ids(g.pruned, c)
    && RowsAccepted(s)
    && (forall x :: x in s.accepted ==> s.accepted[x] == Row(identity, if x < g.first then 0 else g.stamp))
    && s.txs.Keys == Ids(c, b) && (forall x :: x in s.txs ==> s.txs[x] == Tx(identity, g.stamp, {}, x < a))
  }

  ghost predicate BurstReached(limit: nat, n: nat, s0: State, identity: string, g: Stage, c: nat, a: nat, b: nat) {
    exists s :: Reaches(limit, n, s0, s) && Burst(s, identity, g, c, a, b)
  }

  lemma BurstBegins(limit: nat, n: nat, s: State, identity: string, g: Stage, c: nat, a: nat, b: nat)
    requires Burst(s, identity, g, c, a, b) && c <= a <= b < c + n && g.stamp == g.now
    ensures Enabled(limit, n, s, Begin(b, identity))
    ensures Burst(Apply(s, Begin(b, identity)), identity, g, c, a, b + 1)
  {
    IdsSize(c, b);
    assert |s.txs| == |s.txs.Keys|;
    assert AtLeast(b, c);
    assert Apply(s, Begin(b, identity)).txs.Keys == Ids(c, b + 1);
  }

  lemma BeginNext(limit: nat, n: nat, s0: State, identity: string, g: Stage, c: nat, a: nat, b: nat)
    requires BurstReached(limit, n, s0, identity, g, c, a, b) && c <= a <= b < c + n && g.stamp == g.now
    ensures BurstReached(limit, n, s0, identity, g, c, a, b + 1)
  {
    var s :| Reaches(limit, n, s0, s) && Burst(s, identity, g, c, a, b);
    BurstBegins(limit, n, s, identity, g, c, a, b);
    ThenStep(limit, n, s0, s, Begin(b, identity));
  }

  lemma BurstCount(s: State, identity: string, g: Stage, c: nat, a: nat, b: nat, x: TxId)
    requires Burst(s, identity, g, c, a, b) && x in s.txs
    ensures Counted(s, x) == c - g.pruned
  {
    IdsSize(g.pruned, c);
    CountedIsSeen(s, x);
    assert s.rows - {} == s.rows;
    assert Hits(s.rows, identity, g.stamp - WINDOW) == Ids(g.pruned, c);
  }

  lemma BurstHits(s: State, identity: string, g: Stage, c: nat, a: nat, b: nat)
    requires Burst(s, identity, g, c, a, b)
    ensures |Hits(s.accepted, identity, g.stamp - WINDOW)| == |Within(s.accepted, identity, 0)| == c
  {
    IdsSize(0, c);
    assert Hits(s.accepted, identity, g.stamp - WINDOW) == Ids(0, c);
    assert Within(s.accepted, identity, 0) == Ids(0, c);
  }

  lemma AdmitNext(limit: nat, n: nat, s0: State, identity: string, g: Stage, c: nat, a: nat, b: nat)
    requires BurstReached(limit, n, s0, identity, g, c, a, b) && c <= a < b && c - g.pruned < limit
    ensures BurstReached(limit, n, s0, identity, g, c, a + 1, b)
  {
    var s :| Reaches(limit, n, s0, s) && Burst(s, identity, g, c, a, b);
    assert AtLeast(a, c);
    BurstCount(s, identity, g, c, a, b, a);
    ThenStep(limit, n, s0, s, CountAndInsert(a));
    assert Burst(Apply(s, CountAndInsert(a)), identity, g, c, a + 1, b);
  }

  lemma BurstCommits(s: State, identity: string, g: Stage, c: nat, a: nat, b: nat)
    requires Burst(s, identity, g, c, a, b) && g.first <= c < a <= b
    ensures c in s.txs && Burst(Apply(s, Commit(c)), identity, g, c + 1, a, b)
  {
    assert AtLeast(c, c) && AtLeast(c, 0) && AtLeast(c, g.pruned);
    var s' := Apply(s, Commit(c));
    assert s.rows - {} == s.rows;
    assert s'.accepted.Keys == Ids(0, c + 1) && s'.rows.Keys == Ids(g.pruned, c + 1) && s'.txs.Keys == Ids(c + 1, b);
  }

  lemma CommitNext(limit: nat, n: nat, s0: State, identity: string, g: Stage, c: nat, a: nat, b: nat)
    requires BurstReached(limit, n, s0, identity, g, c, a, b) && g.first <= c < a <= b
    ensures BurstReached(limit, n, s0, identity, g, c + 1, a, b)
  {
    var s :| Reaches(limit, n, s0, s) && Burst(s, identity, g, c, a, b);
    BurstCommits(s, identity, g, c, a, b);
    ThenStep(limit, n, s0, s, Commit(c));
  }

  lemma BurstStarts(limit: nat, n: nat, s0: State, identity: string, g: Stage)
    requires Initial(s0) && s0.now == 0 && AtZero(g)
    ensures BurstReached(limit, n, s0, identity, g, 0, 0, 0)
  {
    assert Run(limit, n, s0, []) && After(limit, n, s0, []) == s0;
    assert Burst(s0, identity, g, 0, 0, 0);
  }

  predicate AtZero(g: Stage) {
    g.first == 0 && g.pruned == 0 && g.stamp == 0 && g.now == 0
  }

  lemma SerialRound(limit: nat, n: nat, s0: State, identity: string, g: Stage, c: nat)
    requires BurstReached(limit, n, s0, identity, g, c, c, c) && AtZero(g) && 1 <= n && c < limit
    ensures BurstReached(limit, n, s0, identity, g, c + 1, c + 1, c + 1)
  {
    BeginNext(limit, n, s0, identity, g, c, c, c);
    AdmitNext(limit, n, s0, identity, g, c, c, c + 1);
    CommitNext(limit, n, s0, identity, g, c, c + 1, c + 1);
  }

  /** One transaction at a time fills the window up to the limit. */
  lemma {:induction false} SerialBurst(limit: nat, n: nat, s0: State, identity: string, g: Stage, k: nat)
    requires 1 <= n && k <= limit && Initial(s0) && s0.now == 0 && AtZero(g)
    ensures BurstReached(limit, n, s0, identity, g, k, k, k)
  {
    if k == 0 {
      BurstStarts(limit, n, s0, identity, g);
    } else {
      SerialBurst(limit, n, s0, identity, g, k - 1);
      SerialRound(limit, n, s0, identity, g, k - 1);
    }
  }

  /** Transactions begin, or count while nothing commits, or commit, up to the given one. */
  lemma {:induction false} BeginAll(limit: nat, n: nat, s0: State, identity: string, g: Stage,
                                    c: nat, b: nat, upto: nat)
    requires BurstReached(limit, n, s0, identity, g, c, c, b) && c <= b <= upto <= c + n && g.stamp == g.now
    ensures BurstReached(limit, n, s0, identity, g, c, c, upto)
    decreases upto - b
  {
    if b < upto {
      BeginNext(limit, n, s0, identity, g, c, c, b);
      BeginAll(limit, n, s0, identity, g, c, b + 1, upto);
    }
  }

  lemma {:induction false} AdmitAll(limit: nat, n: nat, s0: State, identity: string, g: Stage, c: nat, a: nat, b: nat)
    requires BurstReached(limit, n, s0, identity, g, c, a, b) && c <= a <= b && g.pruned <= c < g.pruned + limit
    ensures BurstReached(limit, n, s0, identity, g, c, b, b)
    decreases b - a
  {
    if a < b {
      AdmitNext(limit, n, s0, identity, g, c, a, b);
      AdmitAll(limit, n, s0, identity, g, c, a + 1, b);
    }
  }

  lemma {:induction false} CommitAll(limit: nat, n: nat, s0: State, identity: string, g: Stage, c: nat, b: nat)
    requires BurstReached(limit, n, s0, identity, g, c, b, b) && g.first <= c <= b
    ensures BurstReached(limit, n, s0, identity, g, b, b, b)
    decreases b - c
  {
    if c < b {
      CommitNext(limit, n, s0, identity, g, c, b, b);
      CommitAll(limit, n, s0, identity, g, c + 1, b);
    }
  }

  /** From one below the limit `n` transactions slip in together. */
  lemma ConcurrentBurst(limit: nat, n: nat, s0: State, identity: string, g: Stage, c: nat, b: nat)
    requires 1 <= limit && 1 <= n && Initial(s0) && s0.now == 0 && AtZero(g) && c == limit - 1 && b == c + n
    ensures BurstReached(limit, n, s0, identity, g, b, b, b)
  {
    SerialBurst(limit, n, s0, identity, g, c);
    BeginAll(limit, n, s0, identity, g, c, c, b);
    AdmitAll(limit, n, s0, identity, g, c, c, b);
    CommitAll(limit, n, s0, identity, g, c, b);
  }

  /** The bound on the last 60 seconds is attained for every limit and every number
      of connections. */
  lemma OvershootAttained(limit: nat, n: nat, s0: State, identity: string)
    requires 1 <= limit && 1 <= n && Initial(s0) && s0.now == 0
    ensures exists acts ::
      && Run(limit, n, s0, acts)
      && |Hits(After(limit, n, s0, acts).accepted, identity, After(limit, n, s0, acts).now - WINDOW)| == limit + n - 1
  {
    var g := Stage(0, 0, 0, 0);
    var k := limit + n - 1;
    ConcurrentBurst(limit, n, s0, identity, g, limit - 1, k);
    var s' :| Reaches(limit, n, s0, s') && Burst(s', identity, g, k, k, k);
    var acts :| Run(limit, n, s0, acts) && After(limit, n, s0, acts) == s';
    BurstHits(s', identity, g, k, k, k);
  }

  const HALF: int := 30_000_000
  const LATE: int := 61_000_000

  /** `k` hits stamped 0; at 30 seconds `n` more transactions have begun and wait. */
  lemma Waiting(limit: nat, n: nat, s0: State, identity: string, k: nat, b: nat)
    requires 1 <= limit && 1 <= n && Initial(s0) && s0.now == 0 && k == limit + n - 1 && b == k + n
    ensures BurstReached(limit, n, s0, identity, Stage(k, 0, HALF, LATE), k, k, b)
  {
    var zero := Stage(0, 0, 0, 0);
    ConcurrentBurst(limit, n, s0, identity, zero, limit - 1, k);
    var s :| Reaches(limit, n, s0, s) && Burst(s, identity, zero, k, k, k);
    ThenStep(limit, n, s0, s, Tick(HALF));
    var g := Stage(k, 0, HALF, HALF);
    assert Burst(Apply(s, Tick(HALF)), identity, g, k, k, k);
    BeginAll(limit, n, s0, identity, g, k, k, b);
    var s1 :| Reaches(limit, n, s0, s1) && Burst(s1, identity, g, k, k, b);
    ThenStep(limit, n, s0, s1, Tick(LATE));
    assert Burst(Apply(s1, Tick(LATE)), identity, Stage(k, 0, HALF, LATE), k, k, b);
  }

  /** At 61 seconds the first hits are pruned; the waiting transactions began before. */
  lemma Pruned(limit: nat, n: nat, s0: State, identity: string, k: nat, b: nat)
    requires 1 <= limit && 1 <= n && Initial(s0) && s0.now == 0 && k == limit + n - 1 && b == k + n
    ensures BurstReached(limit, n, s0, identity, Stage(k, k, HALF, LATE), k, k, b)
  {
    Waiting(limit, n, s0, identity, k, b);
    var s :| Reaches(limit, n, s0, s) && Burst(s, identity, Stage(k, 0, HALF, LATE), k, k, b);
    ThenStep(limit, n, s0, s, Prune);
    assert Apply(s, Prune).rows.Keys == Ids(k, k);
    assert Burst(Apply(s, Prune), identity, Stage(k, k, HALF, LATE), k, k, b);
  }

  /** The bound on any 60 seconds is attained as well: for every limit and number of
      connections some run stamps `limit + 2 * n - 1` accepted hits within 30 seconds. */
  lemma IntervalAttained(limit: nat, n: nat, s0: State, identity: string)
    requires 1 <= limit && 1 <= n && Initial(s0) && s0.now == 0
    ensures exists acts ::
      Run(limit, n, s0, acts) && |Within(After(limit, n, s0, acts).accepted, identity, 0)| == limit + 2 * n - 1
  {
    var k, b := limit + n - 1, limit + 2 * n - 1;
    var g := Stage(k, k, HALF, LATE);
    Pruned(limit, n, s0, identity, k, b);
    AdmitAll(limit, n, s0, identity, g, k, k, b);
    CommitAll(limit, n, s0, identity, g, k, b);
    var s' :| Reaches(limit, n, s0, s') && Burst(s', identity, g, b, b, b);
    var acts :| Run(limit, n, s0, acts) && After(limit, n, s0, acts) == s';
    BurstHits(s', identity, g, b, b, b);
  }

  lemma WaiterCounts(s: State, identity: string, g: Stage, k: nat, b: nat)
    requires Burst(s, identity, g, k, k, b) && k < b
    ensures k in s.txs && s.txs[k] == Tx(identity, g.stamp, {}, false) && Counted(s, k) == k - g.pruned
    ensures |Hits(s.accepted, identity, g.stamp - WINDOW)| == k
  {
    assert AtLeast(k, k);
    BurstCount(s, identity, g, k, k, b, k);
    BurstHits(s, identity, g, k, k, b);
  }

  /** Even one transaction at a time can refuse a hit when the last 60 seconds hold
      none: its window is that of its start. */
  lemma SerialCanRefuseEmpty(limit: nat, s0: State, identity: string) returns (s: State, x: TxId)
    requires 1 <= limit && Initial(s0) && s0.now == 0
    ensures Reaches(limit, 1, s0, s) && Enabled(limit, 1, s, CountAndRefuse(x)) && s.txs[x].identity == identity
    ensures Hits(s.accepted, identity, s.now - WINDOW) == {}
  {
    var g, b := Stage(limit, 0, HALF, LATE), limit + 1;
    Waiting(limit, 1, s0, identity, limit, b);
    s :| Reaches(limit, 1, s0, s) && Burst(s, identity, g, limit, limit, b);
    x := limit;
    WaiterCounts(s, identity, g, limit, b);
  }

  /** And it can admit one although the 60 seconds before its start hold `limit`:
      they have been pruned before it counts. */
  lemma SerialCanAdmitFull(limit: nat, s0: State, identity: string) returns (s: State, x: TxId)
    requires 1 <= limit && Initial(s0) && s0.now == 0
    ensures Reaches(limit, 1, s0, s) && Enabled(limit, 1, s, CountAndInsert(x)) && s.txs[x].identity == identity
    ensures |Hits(s.accepted, identity, s.txs[x].start - WINDOW)| == limit
  {
    var g, b := Stage(limit, limit, HALF, LATE), limit + 1;
    Pruned(limit, 1, s0, identity, limit, b);
    s :| Reaches(limit, 1, s0, s) && Burst(s, identity, g, limit, limit, b);
    x := limit;
    WaiterCounts(s, identity, g, limit, b);
  }
}
