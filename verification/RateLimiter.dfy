/** The in-memory limiter (`ratelimit.py`): per-identity windows that are trimmed
    from the front, dropped when empty and, past 10,000 identities, dropped in
    bulk.  It must answer as a limiter that remembers every accepted hit. */
module RateLimiter {
  import opened FiniteSets

  const WINDOW_S: real := 60.0
  const MAX_WINDOWS: nat := 10_000

  datatype Hit = Hit(key: string, time: real)

  /** Times of the key's accepted hits, oldest first. */
  function TimesOf(log: seq<Hit>, key: string): seq<real> {
    if log == [] then []
    else
      var front := TimesOf(log[..|log| - 1], key);
      var last := log[|log| - 1];
      if last.key == key then front + [last.time] else front
  }

  /** How many of `times` lie in the half-open interval `[from, from + 60)`. */
  function CountIn(times: seq<real>, from: real): nat {
    if times == [] then 0
    else
      CountIn(times[..|times| - 1], from)
      + (if from <= times[|times| - 1] < from + WINDOW_S then 1 else 0)
  }

  /** How many of `times` the window still counts at `now`. */
  function Live(times: seq<real>, now: real): nat {
    if times == [] then 0
    else Live(times[..|times| - 1], now) + (if now - times[|times| - 1] < WINDOW_S then 1 else 0)
  }

  /** The answer of a limiter that forgets nothing. */
  predicate Accepts(limit: int, log: seq<Hit>, key: string, now: real) {
    limit <= 0 || Live(TimesOf(log, key), now) < limit
  }

  function Record(limit: int, log: seq<Hit>, key: string, now: real): seq<Hit> {
    if limit > 0 && Accepts(limit, log, key, now) then log + [Hit(key, now)] else log
  }

  /** Accepted hits of the key that are less than 60 seconds old. */
  ghost function Recent(log: seq<Hit>, key: string, now: real): set<int> {
    set i | 0 <= i < |log| && log[i].key == key && now - log[i].time < 60.0
  }

  /** Accepted hits of the key in the half-open interval of 60 seconds from `from`. */
  ghost function Between(log: seq<Hit>, key: string, from: real): set<int> {
    set i | 0 <= i < |log| && log[i].key == key && from <= log[i].time < from + 60.0
  }

  /** The recursive counts are counts of log entries. */
  lemma {:induction false} LiveIsSize(log: seq<Hit>, key: string, now: real)
    ensures Live(TimesOf(log, key), now) == |Recent(log, key, now)|
    decreases |log|
  {
    if log != [] {
      var front, n := log[..|log| - 1], |log| - 1;
      LiveIsSize(front, key, now);
      assert Recent(log, key, now) ==
        Recent(front, key, now) + if log[n].key == key && now - log[n].time < 60.0 then {n} else {};
      var times := TimesOf(front, key);
      assert (times + [log[n].time])[..|times|] == times;
    }
  }

  lemma {:induction false} CountInIsSize(log: seq<Hit>, key: string, from: real)
    ensures CountIn(TimesOf(log, key), from) == |Between(log, key, from)|
    decreases |log|
  {
    if log != [] {
      var front, n := log[..|log| - 1], |log| - 1;
      CountInIsSize(front, key, from);
      assert Between(log, key, from) ==
        Between(front, key, from) + if log[n].key == key && from <= log[n].time < from + 60.0 then {n} else {};
      var times := TimesOf(front, key);
      assert (times + [log[n].time])[..|times|] == times;
    }
  }

  predicate Sorted(times: seq<real>) {
    forall i, j :: 0 <= i < j < |times| ==> times[i] <= times[j]
  }

  /** `window` is what is left of `full` after dropping hits that are too old to
      count at `clock` or ever after. */
  predicate TrimmedFrom(window: seq<real>, full: seq<real>, clock: real) {
    && |window| <= |full| && window == full[|full| - |window|..]
    && forall i :: 0 <= i < |full| - |window| ==> clock - full[i] >= WINDOW_S
  }

  lemma {:induction false} LiveOfTrimmed(window: seq<real>, full: seq<real>, now: real)
    requires TrimmedFrom(window, full, now)
    requires forall t :: t in window ==> now - t < WINDOW_S
    ensures Live(full, now) == |window|
    decreases |full|
  {
    if full != [] {
      var front := full[..|full| - 1];
      if window == [] {
        assert now - full[|full| - 1] >= WINDOW_S;
        LiveOfTrimmed([], front, now);
      } else {
        var rest := window[..|window| - 1];
        assert window[|window| - 1] == full[|full| - 1] && window[|window| - 1] in window;
        assert forall t :: t in rest ==> t in window;
        assert rest == front[|front| - |rest|..];
        LiveOfTrimmed(rest, front, now);
      }
    }
  }

  lemma {:induction false} TimesOfAppend(log: seq<Hit>, hit: Hit, key: string)
    ensures TimesOf(log + [hit], key) == if hit.key == key then TimesOf(log, key) + [hit.time] else TimesOf(log, key)
  {
  }

  type Windows = map<string, seq<real>>

  function Window(hits: Windows, key: string): seq<real> {
    if key in hits then hits[key] else []
  }

  /** What the dictionary must keep of the full log. */
  ghost predicate Faithful(hits: Windows, log: seq<Hit>, key: string, clock: real) {
    && Sorted(TimesOf(log, key))
    && TrimmedFrom(Window(hits, key), TimesOf(log, key), clock)
    && forall t :: t in TimesOf(log, key) ==> t <= clock
  }

  ghost predicate Sound(limit: int, hits: Windows, log: seq<Hit>, clock: real) {
    && (forall key :: key in hits ==> hits[key] != [] && |hits[key]| <= limit)
    && (forall key :: Faithful(hits, log, key, clock))
  }

  /** `h[-1] > cutoff` */
  function Evicted(hits: Windows, now: real): Windows {
    map k | k in hits && hits[k] != [] && hits[k][|hits[k]| - 1] > now - WINDOW_S :: hits[k]
  }

  ghost predicate AllActive(hits: Windows, now: real) {
    forall k :: k in hits ==> hits[k] != [] && now - hits[k][|hits[k]| - 1] < WINDOW_S
  }

  lemma EvictionShrinks(hits: Windows, now: real)
    ensures AllActive(Evicted(hits, now), now) && |Evicted(hits, now)| <= |hits|
  {
    var kept := Evicted(hits, now);
    SubsetSize(kept.Keys, hits.Keys);
    assert |kept| == |kept.Keys| && |hits| == |hits.Keys|;
  }

  lemma InsertGrowsByOne(hits: Windows, key: string, window: seq<real>)
    ensures |hits[key := window]| == if key in hits then |hits| else |hits| + 1
    ensures |hits - {key}| == if key in hits then |hits| - 1 else |hits|
  {
    var with, without := hits[key := window], hits - {key};
    assert with.Keys == hits.Keys + {key} && without.Keys == hits.Keys - {key};
    assert |with| == |with.Keys| && |hits| == |hits.Keys| && |without| == |without.Keys|;
  }

  lemma EvictionIsSound(limit: int, hits: Windows, log: seq<Hit>, now: real)
    requires Sound(limit, hits, log, now)
    ensures Sound(limit, Evicted(hits, now), log, now)
  {
    forall key
      ensures Faithful(Evicted(hits, now), log, key, now)
    {
      assert Faithful(hits, log, key, now);
      var full := TimesOf(log, key);
      if key in hits && key !in Evicted(hits, now) {
        assert hits[key][|hits[key]| - 1] == full[|full| - 1];
      }
    }
  }

  /** Replacing one window by a faithful one keeps the others. */
  lemma ReplaceIsSound(limit: int, hits: Windows, log: seq<Hit>, now: real, key: string, window: seq<real>)
    requires Sound(limit, hits, log, now) && |window| <= limit && TrimmedFrom(window, TimesOf(log, key), now)
    ensures Sound(limit, if window == [] then hits - {key} else hits[key := window], log, now)
  {
    var hits' := if window == [] then hits - {key} else hits[key := window];
    forall k
      ensures Faithful(hits', log, k, now)
    {
      assert Faithful(hits, log, k, now);
    }
  }

  lemma AppendIsSound(limit: int, hits: Windows, log: seq<Hit>, now: real, key: string)
    requires Sound(limit, hits, log, now) && |Window(hits, key)| < limit
    ensures Sound(limit, hits[key := Window(hits, key) + [now]], log + [Hit(key, now)], now)
  {
    var hits', log' := hits[key := Window(hits, key) + [now]], log + [Hit(key, now)];
    forall k
      ensures Faithful(hits', log', k, now)
    {
      assert Faithful(hits, log, k, now);
      AppendIsFaithful(hits, log, now, key, k);
    }
  }

  lemma AppendIsFaithful(hits: Windows, log: seq<Hit>, now: real, key: string, k: string)
    requires Faithful(hits, log, k, now)
    ensures Faithful(hits[key := Window(hits, key) + [now]], log + [Hit(key, now)], k, now)
  {
    var hits', log' := hits[key := Window(hits, key) + [now]], log + [Hit(key, now)];
    TimesOfAppend(log, Hit(key, now), k);
    if k != key {
      assert Window(hits', k) == Window(hits, k) && TimesOf(log', k) == TimesOf(log, k);
    } else {
      assert Window(hits', k) == Window(hits, k) + [now] && TimesOf(log', k) == TimesOf(log, k) + [now];
      TrimmedAppend(Window(hits, k), TimesOf(log, k), now);
    }
  }

  lemma TrimmedAppend(window: seq<real>, full: seq<real>, now: real)
    requires Sorted(full) && TrimmedFrom(window, full, now)
    requires forall t :: t in full ==> t <= now
    ensures Sorted(full + [now]) && TrimmedFrom(window + [now], full + [now], now)
    ensures forall t :: t in full + [now] ==> t <= now
  {
    var cut := |full| - |window|;
    assert (full + [now])[cut..] == full[cut..] + [now];
    assert forall i :: 0 <= i < |full| ==> full[i] in full;
  }

  lemma PopKeepsTrimmed(window: seq<real>, full: seq<real>, now: real)
    requires TrimmedFrom(window, full, now) && window != [] && now - window[0] >= WINDOW_S
    ensures TrimmedFrom(window[1..], full, now)
  {
  }

  /** Hits are in order of time: when the oldest one counts, all do. */
  lemma FrontDecides(window: seq<real>, full: seq<real>, now: real)
    requires Sorted(full) && TrimmedFrom(window, full, now)
    requires window != [] ==> now - window[0] < WINDOW_S
    ensures forall t :: t in window ==> now - t < WINDOW_S
  {
  }

  lemma ClockMayAdvance(limit: int, hits: Windows, log: seq<Hit>, clock: real, now: real)
    requires Sound(limit, hits, log, clock) && clock <= now
    ensures Sound(limit, hits, log, now)
  {
    forall key
      ensures Faithful(hits, log, key, now)
    {
      assert Faithful(hits, log, key, clock);
    }
  }

  /** `while hits and now - hits[0] >= WINDOW_S: hits.popleft()` */
  method Trim(hits: seq<real>, ghost full: seq<real>, now: real) returns (window: seq<real>)
    requires Sorted(full) && TrimmedFrom(hits, full, now)
    ensures TrimmedFrom(window, full, now) && |window| <= |hits|
    ensures forall t :: t in window ==> now - t < WINDOW_S
  {
    window := hits;
    while window != [] && now - window[0] >= WINDOW_S
      invariant TrimmedFrom(window, full, now) && |window| <= |hits|
    {
      PopKeepsTrimmed(window, full, now);
      window := window[1..];
    }
    FrontDecides(window, full, now);
  }

  class RateLimiter {
    const limit: int
    var hits: Windows

    // Every accepted hit since the process started, and the latest clock reading.
    ghost var log: seq<Hit>
    ghost var clock: real

    ghost predicate Valid()
      reads this
    {
      Sound(limit, hits, log, clock)
    }

    constructor (limit: int)
      ensures Valid() && this.limit == limit && hits == map[] && log == []
    {
      this.limit := limit;
      hits, log, clock := map[], [], 0.0;
    }

    /** `now` is `time.monotonic()`. */
    method Allow(key: string, now: real) returns (ok: bool)
      requires Valid() && clock <= now
      modifies this
      ensures Valid() && clock == now
      ensures ok == Accepts(limit, old(log), key, now)
      ensures log == Record(limit, old(log), key, now)
      // The same in terms of the log: fewer than `limit` hits in the last 60 seconds.
      ensures ok <==>
        || limit <= 0
        || |set i | 0 <= i < |old(log)| && old(log)[i].key == key && now - old(log)[i].time < 60.0| < limit
      ensures log == if ok && limit > 0 then old(log) + [Hit(key, now)] else old(log)
      // The dictionary grows beyond the bound only with windows hit within the
      // last 60 seconds.
      ensures
        || |hits| <= |old(hits)|
        || |hits| <= 10_000
        || forall k :: k in hits ==> hits[k] != [] && now - hits[k][|hits[k]| - 1] < 60.0
    {
      LiveIsSize(log, key, now);
      assert Recent(log, key, now) ==
        set i | 0 <= i < |log| && log[i].key == key && now - log[i].time < 60.0;
      ClockMayAdvance(limit, hits, log, clock, now);
      clock := now;
      if limit <= 0 {
        return true;
      }
      if key in hits {
        Expire(key, now);
      }
      if key !in hits {
        MakeRoom(now);
      }
      ok := Accept(key, now);
    }

    /** Records the hit if the trimmed window has room. */
    method Accept(key: string, now: real) returns (ok: bool)
      requires Valid() && clock == now && limit > 0
      requires forall t :: t in Window(hits, key) ==> now - t < WINDOW_S
      modifies this`hits, this`log
      ensures Valid()
      ensures ok == Accepts(limit, old(log), key, now)
      ensures log == Record(limit, old(log), key, now)
      ensures |hits| <= |old(hits)| + 1 && (key in old(hits) ==> |hits| == |old(hits)|)
      ensures AllActive(old(hits), now) ==> AllActive(hits, now)
    {
      var window := Window(hits, key);
      assert Faithful(hits, log, key, now);
      LiveOfTrimmed(window, TimesOf(log, key), now);
      if |window| >= limit {
        return false;
      }
      AppendIsSound(limit, hits, log, now, key);
      InsertGrowsByOne(hits, key, window + [now]);
      hits := hits[key := window + [now]];
      log := log + [Hit(key, now)];
      ok := true;
    }

    /** Past the bound, drops every window not hit within the last 60 seconds. */
    method MakeRoom(now: real)
      requires Valid() && clock == now
      modifies this`hits
      ensures Valid()
      ensures hits.Keys <= old(hits.Keys) && |hits| <= |old(hits)|
      ensures |hits| < MAX_WINDOWS || AllActive(hits, now)
    {
      if |hits| >= MAX_WINDOWS {
        EvictionIsSound(limit, hits, log, now);
        EvictionShrinks(hits, now);
        hits := Evicted(hits, now);
      }
    }

    /** Pops the hits that are too old and drops an emptied window. */
    method Expire(key: string, now: real)
      requires Valid() && clock == now && key in hits
      modifies this`hits
      ensures Valid()
      ensures forall t :: t in Window(hits, key) ==> now - t < WINDOW_S
      ensures hits - {key} == old(hits) - {key}
      ensures |hits| == if key in hits then |old(hits)| else |old(hits)| - 1
    {
      assert Faithful(hits, log, key, now);
      var window := Trim(hits[key], TimesOf(log, key), now);
      ReplaceIsSound(limit, hits, log, now, key, window);
      InsertGrowsByOne(hits, key, window);
      hits := if window == [] then hits - {key} else hits[key := window];
    }
  }

  datatype Call = Call(key: string, now: real)

  /** The accepted hits of a run of calls. */
  function Replay(limit: int, calls: seq<Call>): seq<Hit> {
    if calls == [] then []
    else
      var last := calls[|calls| - 1];
      Record(limit, Replay(limit, calls[..|calls| - 1]), last.key, last.now)
  }

  lemma {:induction false} InIntervalIsLive(times: seq<real>, from: real, now: real)
    requires now < from + WINDOW_S
    ensures CountIn(times, from) <= Live(times, now)
  {
    if times != [] {
      InIntervalIsLive(times[..|times| - 1], from, now);
    }
  }

  /** Any half-open 60-second interval of any run holds at most `limit` accepted
      hits of an identity. */
  lemma WindowsHoldAtMostLimit(limit: int, calls: seq<Call>, key: string, from: real)
    requires limit > 0
    ensures |set i | 0 <= i < |Replay(limit, calls)| && Replay(limit, calls)[i].key == key
              && from <= Replay(limit, calls)[i].time < from + 60.0| <= limit
  {
    CountInIsSize(Replay(limit, calls), key, from);
    ReplayFitsWindow(limit, calls, key, from);
    assert Between(Replay(limit, calls), key, from) ==
      set i | 0 <= i < |Replay(limit, calls)| && Replay(limit, calls)[i].key == key
        && from <= Replay(limit, calls)[i].time < from + 60.0;
  }

  lemma {:induction false} ReplayFitsWindow(limit: int, calls: seq<Call>, key: string, from: real)
    requires limit > 0
    ensures CountIn(TimesOf(Replay(limit, calls), key), from) <= limit
    decreases |calls|
  {
    if calls != [] {
      var before := calls[..|calls| - 1];
      var last := calls[|calls| - 1];
      var log := Replay(limit, before);
      ReplayFitsWindow(limit, before, key, from);
      if last.key == key && Accepts(limit, log, key, last.now) {
        TimesOfAppend(log, Hit(key, last.now), key);
        var times := TimesOf(log, key);
        assert (times + [last.now])[..|times|] == times;
        if from <= last.now < from + WINDOW_S {
          InIntervalIsLive(times, from, last.now);
        }
      } else if Accepts(limit, log, last.key, last.now) {
        TimesOfAppend(log, Hit(last.key, last.now), key);
      }
    }
  }
}
