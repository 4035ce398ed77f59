/** What happens to rows and files while a sweep runs: its own deletes, and the
    renders that other coroutines publish in between. */
module SweepTrace {
  import opened Options
  import opened Blobs
  import opened Store

  /** A finished render: its row and its bytes. */
  datatype Publication = Publication(record: RenderRecord, bytes: Bytes)

  datatype Event = Published(p: Publication) | Pruned(key: CacheKey)

  datatype Tables = Tables(renders: Renders, files: map<string, Bytes>)

  function Happen(t: Tables, e: Event): Tables {
    match e
    case Published(p) =>
      Tables(t.renders[p.record.key := p.record], t.files[p.record.artifactPath := p.bytes])
    case Pruned(key) =>
      if key in t.renders then Tables(t.renders - {key}, t.files - {t.renders[key].artifactPath}) else t
  }

  function Replay(t: Tables, trace: seq<Event>): Tables {
    if trace == [] then t else Happen(Replay(t, trace[..|trace| - 1]), trace[|trace| - 1])
  }

  /** The keys the sweep has deleted. */
  ghost function Targets(trace: seq<Event>): set<CacheKey> {
    set i | 0 <= i < |trace| && trace[i].Pruned? :: trace[i].key
  }

  lemma PrunedAreTargets(trace: seq<Event>, key: CacheKey)
    ensures Pruned(key) in trace <==> key in Targets(trace)
  {
  }

  /** It deletes no key twice. */
  ghost predicate Once(trace: seq<Event>) {
    forall i, j :: 0 <= i < j < |trace| && trace[i].Pruned? && trace[j].Pruned? ==> trace[i].key != trace[j].key
  }

  /** Every publication is one of those `others` brings. */
  ghost predicate From(trace: seq<Event>, others: nat -> seq<Publication>) {
    forall i :: 0 <= i < |trace| && trace[i].Published? ==> exists k: nat :: trace[i].p in others(k)
  }

  /** The tables `t0` have become these, and the sweep has deleted exactly `gone`. */
  ghost predicate Traced(t0: Tables, trace: seq<Event>, others: nat -> seq<Publication>, gone: set<CacheKey>,
                         renders: Renders, files: map<string, Bytes>)
  {
    && Tables(renders, files) == Replay(t0, trace)
    && Targets(trace) == gone && Once(trace) && From(trace, others)
  }

  lemma ReplayNext(t: Tables, trace: seq<Event>, e: Event)
    ensures Replay(t, trace + [e]) == Happen(Replay(t, trace), e)
  {
    assert (trace + [e])[..|trace|] == trace;
  }

  lemma PublishNext(t0: Tables, trace: seq<Event>, others: nat -> seq<Publication>, gone: set<CacheKey>,
                    t: Tables, k: nat, p: Publication)
    requires Traced(t0, trace, others, gone, t.renders, t.files) && p in others(k)
    ensures var t' := Happen(t, Published(p));
      Traced(t0, trace + [Published(p)], others, gone, t'.renders, t'.files)
  {
    var trace' := trace + [Published(p)];
    ReplayNext(t0, trace, Published(p));
    assert forall i :: 0 <= i < |trace| ==> trace'[i] == trace[i];
    assert Targets(trace') == Targets(trace);
  }

  lemma PruneNext(t0: Tables, trace: seq<Event>, others: nat -> seq<Publication>, gone: set<CacheKey>,
                  t: Tables, key: CacheKey)
    requires Traced(t0, trace, others, gone, t.renders, t.files) && key !in gone
    ensures var t' := Happen(t, Pruned(key));
      Traced(t0, trace + [Pruned(key)], others, gone + {key}, t'.renders, t'.files)
  {
    var trace' := trace + [Pruned(key)];
    ReplayNext(t0, trace, Pruned(key));
    assert forall i :: 0 <= i < |trace| ==> trace'[i] == trace[i];
    assert trace'[|trace|] == Pruned(key);
    forall i | 0 <= i < |trace| && trace[i].Pruned?
      ensures trace[i].key != key
    {
      assert trace[i].key in Targets(trace);
    }
    assert Targets(trace') == Targets(trace) + {key};
  }

  // What the deletes take.

  /** The key was published again before the `n`-th event. */
  ghost predicate Republished(trace: seq<Event>, n: nat, key: CacheKey)
    requires n <= |trace|
  {
    exists i :: 0 <= i < n && trace[i].Published? && trace[i].p.record.key == key
  }

  /** A render published during the sweep is not the very record that was listed. */
  ghost predicate FreshRecords(t0: Tables, trace: seq<Event>) {
    forall i :: 0 <= i < |trace| && trace[i].Published? ==>
      var record := trace[i].p.record;
      record.key in t0.renders ==> record != t0.renders[record.key]
  }

  /** Until the sweep deletes a key its row stays, the listed one exactly as long as
      the key has not been published again. */
  lemma {:induction false} RowUntilPruned(t0: Tables, trace: seq<Event>, n: nat, key: CacheKey)
    requires n <= |trace| && FreshRecords(t0, trace) && Keyed(t0.renders)
    requires forall i :: 0 <= i < n ==> trace[i] != Pruned(key)
    ensures key in Replay(t0, trace[..n]).renders <==> key in t0.renders || Republished(trace, n, key)
    ensures key in t0.renders ==>
      (Replay(t0, trace[..n]).renders[key] == t0.renders[key] <==> !Republished(trace, n, key))
    decreases n
  {
    if n > 0 {
      RowUntilPruned(t0, trace, n - 1, key);
      assert trace[..n] == trace[..n - 1] + [trace[n - 1]];
      ReplayNext(t0, trace[..n - 1], trace[n - 1]);
      if trace[n - 1].Published? && trace[n - 1].p.record.key == key {
        assert Republished(trace, n, key);
      } else {
        assert Republished(trace, n, key) <==> Republished(trace, n - 1, key);
      }
    }
  }

  /** A key the sweep does not delete keeps its row, or has the one published since. */
  lemma SparesOthers(t0: Tables, trace: seq<Event>, key: CacheKey)
    requires FreshRecords(t0, trace) && Keyed(t0.renders) && key in t0.renders && key !in Targets(trace)
    ensures key in Replay(t0, trace).renders
    ensures Replay(t0, trace).renders[key] == t0.renders[key] <==> !Republished(trace, |trace|, key)
  {
    assert trace[..|trace|] == trace;
    RowUntilPruned(t0, trace, |trace|, key);
  }

  /** Rows written by `execute_render`. */
  ghost predicate Located(renders: Renders) {
    forall key :: key in renders ==> Renderable(key) && renders[key].artifactPath == Locator(key)
  }

  ghost predicate LocatedRecord(record: RenderRecord) {
    Renderable(record.key) && record.artifactPath == Locator(record.key)
  }

  lemma HappenKeepsBlobs(t: Tables, e: Event)
    requires Located(t.renders) && RowsHaveBlobs(t.renders, t.files)
    requires e.Published? ==> LocatedRecord(e.p.record)
    ensures Located(Happen(t, e).renders) && RowsHaveBlobs(Happen(t, e).renders, Happen(t, e).files)
  {
    var t' := Happen(t, e);
    forall key | key in t'.renders
      ensures t'.renders[key].artifactPath in t'.files
    {
      if e.Pruned? && e.key in t.renders { LocatorInjective(key, e.key); }
    }
  }

  /** A sweep deletes no blob that a remaining row names, whatever is published while
      it runs. */
  lemma {:induction false} SweepKeepsBlobs(t0: Tables, trace: seq<Event>)
    requires Located(t0.renders) && RowsHaveBlobs(t0.renders, t0.files)
    requires forall i :: 0 <= i < |trace| && trace[i].Published? ==> LocatedRecord(trace[i].p.record)
    ensures Located(Replay(t0, trace).renders)
    ensures RowsHaveBlobs(Replay(t0, trace).renders, Replay(t0, trace).files)
    decreases |trace|
  {
    if trace != [] {
      SweepKeepsBlobs(t0, trace[..|trace| - 1]);
      HappenKeepsBlobs(Replay(t0, trace[..|trace| - 1]), trace[|trace| - 1]);
    }
  }
}
