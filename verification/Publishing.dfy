/** A renders row implies its blob.

    Publishing writes the blob and then the row; deleting removes the row and
    then the blob.  `Overlap` is the state in which one coroutine is between its two
    publishing writes while another is between its two deletes of the same
    artifact.  Runs that never visit it keep the implication; a run that does
    visit it and lets both finish breaks it.  A single node never visits
    it. */
module Publishing {
  import opened Options
  import opened Blobs
  import opened JobTable
  import opened Protocol
  import opened Invariant

  ghost predicate Publishes(s: State, w: WorkerId, locator: string) {
    && w in s.workers && s.workers[w].Publishing?
    && s.workers[w].id in s.jobs
    && Renderable(s.jobs[s.workers[w].id].key)
    && Locator(s.jobs[s.workers[w].id].key) == locator
  }

  ghost predicate Overlaps(s: State, w: WorkerId, node: NodeId) {
    node in s.disk.sweeps && Publishes(s, w, s.disk.sweeps[node])
  }

  ghost predicate Overlap(s: State) {
    exists w, node :: Overlaps(s, w, node)
  }

  ghost predicate NeverOverlaps(c: Config, s: State, acts: seq<Action>)
    requires Run(c, s, acts)
    decreases |acts|
  {
    !Overlap(s) && (acts != [] ==> NeverOverlaps(c, Apply(c, s, acts[0]), acts[1..]))
  }

  ghost predicate RowImpliesBlob(disk: Artifacts) {
    forall key :: key in disk.rows ==> disk.rows[key] in disk.blobs
  }

  ghost predicate RowsLocated(disk: Artifacts) {
    forall key :: key in disk.rows ==> Renderable(key) && disk.rows[key] == Locator(key)
  }

  /** A blob between its two publishing writes is there already. */
  ghost predicate PublishingHasBlob(s: State) {
    forall w :: w in s.workers && s.workers[w].Publishing? ==>
      exists locator :: Publishes(s, w, locator) && locator in s.disk.blobs
  }

  /** A blob about to be deleted has no row. */
  ghost predicate SweptHasNoRow(disk: Artifacts) {
    forall node, key :: node in disk.sweeps && key in disk.rows ==> disk.rows[key] != disk.sweeps[node]
  }

  ghost predicate DiskInv(s: State) {
    RowImpliesBlob(s.disk) && RowsLocated(s.disk) && PublishingHasBlob(s) && SweptHasNoRow(s.disk)
  }

  /** A publishing worker stays between its two writes until it writes the row or dies. */
  lemma KeepsPublishing(c: Config, s: State, a: Action, w: WorkerId, locator: string)
    requires Placed(c, s) && Owned(s) && Enabled(c, s, a) && Publishes(s, w, locator)
    ensures Publishes(Apply(c, s, a), w, locator) || (a.PutRow? && a.w == w) || (a.Crash? && a.node == w.node)
  {
    var id := s.workers[w].id;
    assert Owns(s, w);
    JobFollows(c, s, a, id);
  }

  lemma WasPublishing(c: Config, s: State, a: Action, w: WorkerId)
    requires Enabled(c, s, a) && w in Apply(c, s, a).workers && Apply(c, s, a).workers[w].Publishing?
    ensures (a.PutBlob? && a.w == w) || (w in s.workers && s.workers[w].Publishing? && !(a.PutRow? && a.w == w))
    ensures !(a.Crash? && a.node == w.node)
  {
  }

  lemma KeepsPublishingHasBlob(c: Config, s: State, a: Action)
    requires Inv(c, s) && DiskInv(s) && Enabled(c, s, a) && !Overlap(s)
    ensures PublishingHasBlob(Apply(c, s, a))
  {
    var s' := Apply(c, s, a);
    forall w | w in s'.workers && s'.workers[w].Publishing?
      ensures exists locator :: Publishes(s', w, locator) && locator in s'.disk.blobs
    {
      WasPublishing(c, s, a, w);
      if a.PutBlob? && a.w == w {
        assert Publishes(s', w, Locator(s.jobs[s.workers[w].id].key));
      } else {
        var locator :| Publishes(s, w, locator) && locator in s.disk.blobs;
        KeepsPublishing(c, s, a, w, locator);
        if a.DeleteBlob? { assert !Overlaps(s, w, a.node); }
        KeepsBlob(c, s, a, locator);
      }
    }
  }

  lemma KeepsBlob(c: Config, s: State, a: Action, locator: string)
    requires Enabled(c, s, a) && locator in s.disk.blobs
    ensures locator in Apply(c, s, a).disk.blobs || (a.DeleteBlob? && s.disk.sweeps[a.node] == locator)
  {
  }

  lemma KeepsRows(c: Config, s: State, a: Action)
    requires Inv(c, s) && DiskInv(s) && Enabled(c, s, a) && !Overlap(s)
    ensures RowImpliesBlob(Apply(c, s, a).disk)
    ensures RowsLocated(Apply(c, s, a).disk)
  {
    if a.PutRow? {
      var locator :| Publishes(s, a.w, locator) && locator in s.disk.blobs;
    }
  }

  lemma KeepsSweptHasNoRow(c: Config, s: State, a: Action)
    requires Inv(c, s) && DiskInv(s) && Enabled(c, s, a) && !Overlap(s)
    ensures SweptHasNoRow(Apply(c, s, a).disk)
  {
    var disk' := Apply(c, s, a).disk;
    forall node, key | node in disk'.sweeps && key in disk'.rows
      ensures disk'.rows[key] != disk'.sweeps[node]
    {
      if a.PutRow? {
        assert !Overlaps(s, a.w, node);
      } else if a.DeleteRow? && a.key in s.disk.rows {
        LocatorInjective(a.key, key);
      }
    }
  }

  lemma {:induction false} RunKeepsDiskInv(c: Config, s: State, acts: seq<Action>)
    requires Inv(c, s) && DiskInv(s) && Run(c, s, acts) && NeverOverlaps(c, s, acts)
    ensures DiskInv(After(c, s, acts))
    decreases |acts|
  {
    if acts != [] {
      var a := acts[0];
      KeepsPublishingHasBlob(c, s, a);
      KeepsRows(c, s, a);
      KeepsSweptHasNoRow(c, s, a);
      StepKeepsInv(c, s, a);
      RunKeepsDiskInv(c, Apply(c, s, a), acts[1..]);
    }
  }

  /** Any number of nodes, crashes anywhere: a run that never overlaps a publish
      with a delete of the same artifact keeps every row's blob. */
  lemma RowImpliesBlobWithoutOverlap(c: Config, s: State, acts: seq<Action>)
    requires Initial(s) && Run(c, s, acts) && NeverOverlaps(c, s, acts)
    ensures RowImpliesBlob(After(c, s, acts).disk)
  {
    RunKeepsDiskInv(c, s, acts);
  }

  /** The condition is exact: whatever the order in which the two overlapping
      finish, the artifact ends with a row and no blob. */
  lemma OverlapLosesBlob(c: Config, s: State, w: WorkerId, node: NodeId)
    requires !c.single && Overlaps(s, w, node)
    ensures var key := s.jobs[s.workers[w].id].key;
      forall acts :: acts == [PutRow(w), DeleteBlob(node)] || acts == [DeleteBlob(node), PutRow(w)] ==>
        && Run(c, s, acts)
        && key in After(c, s, acts).disk.rows
        && After(c, s, acts).disk.rows[key] !in After(c, s, acts).disk.blobs
  {
    RunOfTwo(c, s, PutRow(w), DeleteBlob(node));
    RunOfTwo(c, s, DeleteBlob(node), PutRow(w));
  }

  ghost predicate RowWithoutBlob(disk: Artifacts, key: CacheKey) {
    key in disk.rows && disk.rows[key] !in disk.blobs
  }

  /** The two orders in which a publish and a delete do not overlap. */
  function PublishFirst(w: WorkerId, node: NodeId, key: CacheKey): seq<Action> {
    [PutBlob(w), PutRow(w), DeleteRow(node, key), DeleteBlob(node)]
  }

  function DeleteFirst(w: WorkerId, node: NodeId, key: CacheKey): seq<Action> {
    [DeleteRow(node, key), DeleteBlob(node), PutBlob(w), PutRow(w)]
  }

  /** Both sides are in the middle after two steps, in the other four. */
  function Crossed(w: WorkerId, node: NodeId, key: CacheKey, blobFirst: bool, rowFirst: bool): seq<Action> {
    (if blobFirst then [PutBlob(w), DeleteRow(node, key)] else [DeleteRow(node, key), PutBlob(w)])
    + (if rowFirst then [PutRow(w), DeleteBlob(node)] else [DeleteBlob(node), PutRow(w)])
  }

  /** A worker re-rendering a stored artifact while a sweeper deletes it: whichever
      of the four crossed orders is taken, the row ends without its blob. */
  lemma CrossedLosesBlob(c: Config, s: State, w: WorkerId, node: NodeId, key: CacheKey, blobFirst: bool, rowFirst: bool)
    requires Refreshes(c, s, w, node, key)
    ensures Run(c, s, Crossed(w, node, key, blobFirst, rowFirst))
    ensures RowWithoutBlob(After(c, s, Crossed(w, node, key, blobFirst, rowFirst)).disk, key)
  {
    var a1 := if blobFirst then PutBlob(w) else DeleteRow(node, key);
    var a2 := if blobFirst then DeleteRow(node, key) else PutBlob(w);
    var a3 := if rowFirst then PutRow(w) else DeleteBlob(node);
    var a4 := if rowFirst then DeleteBlob(node) else PutRow(w);
    var s2 := Apply(c, Apply(c, s, a1), a2);
    assert Overlaps(s2, w, node);
    OverlapLosesBlob(c, s2, w, node);
    RunOfFour(c, s, a1, a2, a3, a4);
    assert Crossed(w, node, key, blobFirst, rowFirst) == [a1, a2, a3, a4];
  }

  /** In the two serial orders it does not. */
  lemma SerialKeepsBlob(c: Config, s: State, w: WorkerId, node: NodeId, key: CacheKey, publishFirst: bool)
    requires Refreshes(c, s, w, node, key)
    ensures var order := if publishFirst then PublishFirst(w, node, key) else DeleteFirst(w, node, key);
      Run(c, s, order) && !RowWithoutBlob(After(c, s, order).disk, key)
  {
    var b1, b2, d1, d2 := PutBlob(w), PutRow(w), DeleteRow(node, key), DeleteBlob(node);
    if publishFirst {
      RunOfTwo(c, Apply(c, Apply(c, s, b1), b2), d1, d2);
      RunOfFour(c, s, b1, b2, d1, d2);
    } else {
      RunOfTwo(c, Apply(c, Apply(c, s, d1), d2), b1, b2);
      RunOfFour(c, s, d1, d2, b1, b2);
    }
  }

  /** A live worker is about to publish a stored artifact's key, and the node's
      sweeper is about to delete it. */
  ghost predicate Refreshes(c: Config, s: State, w: WorkerId, node: NodeId, key: CacheKey) {
    && !c.single && w in s.workers && s.workers[w].Executing?
    && s.workers[w].id in s.jobs && s.jobs[s.workers[w].id].key == key && Renderable(key)
    && key in s.disk.rows && s.disk.rows[key] == Locator(key)
    && node in s.up && node !in s.disk.sweeps
  }

  /** On a single node publishing and deleting exclude each other. */
  ghost predicate OneSegment(s: State) {
    s.disk.sweeps == map[] || forall w :: w in s.workers ==> !MidSegment(s.workers[w])
  }

  lemma {:induction false} SingleNodeNeverOverlaps(c: Config, s: State, acts: seq<Action>)
    requires c.single && OneSegment(s) && Run(c, s, acts)
    ensures NeverOverlaps(c, s, acts)
    decreases |acts|
  {
    if acts != [] {
      SingleNodeNeverOverlaps(c, Apply(c, s, acts[0]), acts[1..]);
    }
  }

  /** On a single node the implication holds in every reachable state, at every
      scheduling point and at every point where the process may crash. */
  lemma SingleNodeRowImpliesBlob(c: Config, s: State, acts: seq<Action>)
    requires c.single && Initial(s) && Run(c, s, acts)
    ensures RowImpliesBlob(After(c, s, acts).disk)
  {
    SingleNodeNeverOverlaps(c, s, acts);
    RowImpliesBlobWithoutOverlap(c, s, acts);
  }

  ghost predicate CrashFree(acts: seq<Action>) {
    forall i :: 0 <= i < |acts| ==> !acts[i].Crash?
  }

  /** Every blob is named by a row, or some coroutine still has the second half of its
      publish or delete to do. */
  ghost predicate Accounted(s: State, locator: string) {
    || (exists key :: key in s.disk.rows && s.disk.rows[key] == locator)
    || (exists w :: Publishes(s, w, locator))
    || (exists node :: node in s.disk.sweeps && s.disk.sweeps[node] == locator)
  }

  ghost predicate NoOrphans(s: State) {
    forall locator :: locator in s.disk.blobs ==> Accounted(s, locator)
  }

  lemma KeepsAccounted(c: Config, s: State, a: Action, locator: string)
    requires Placed(c, s) && Owned(s) && RowsLocated(s.disk) && Enabled(c, s, a) && !a.Crash?
    requires locator in s.disk.blobs ==> Accounted(s, locator)
    requires locator in Apply(c, s, a).disk.blobs
    ensures Accounted(Apply(c, s, a), locator)
  {
    var s' := Apply(c, s, a);
    if locator !in s.disk.blobs {
      assert a.PutBlob? && Publishes(s', a.w, locator);
    } else if key :| key in s.disk.rows && s.disk.rows[key] == locator {
      KeepsRowOrSweep(c, s, a, key);
    } else if w :| Publishes(s, w, locator) {
      KeepsPublisher(c, s, a, w, locator);
    } else {
      var node :| node in s.disk.sweeps && s.disk.sweeps[node] == locator;
      KeepsSweep(c, s, a, node);
    }
  }

  lemma KeepsPublisher(c: Config, s: State, a: Action, w: WorkerId, locator: string)
    requires Placed(c, s) && Owned(s) && Enabled(c, s, a) && !a.Crash? && Publishes(s, w, locator)
    ensures Accounted(Apply(c, s, a), locator)
  {
    KeepsPublishing(c, s, a, w, locator);
    if a.PutRow? && a.w == w {
      var key := s.jobs[s.workers[w].id].key;
      assert key in Apply(c, s, a).disk.rows && Apply(c, s, a).disk.rows[key] == locator;
    }
  }

  lemma KeepsRowOrSweep(c: Config, s: State, a: Action, key: CacheKey)
    requires RowsLocated(s.disk) && Enabled(c, s, a) && key in s.disk.rows
    ensures var disk' := Apply(c, s, a).disk;
      || (key in disk'.rows && disk'.rows[key] == s.disk.rows[key])
      || (a.DeleteRow? && a.node in disk'.sweeps && disk'.sweeps[a.node] == s.disk.rows[key])
  {
  }

  lemma KeepsSweep(c: Config, s: State, a: Action, node: NodeId)
    requires Enabled(c, s, a) && !a.Crash? && node in s.disk.sweeps
    requires s.disk.sweeps[node] in Apply(c, s, a).disk.blobs
    ensures node in Apply(c, s, a).disk.sweeps && Apply(c, s, a).disk.sweeps[node] == s.disk.sweeps[node]
  {
  }

  lemma {:induction false} RunKeepsNoOrphans(c: Config, s: State, acts: seq<Action>)
    requires Inv(c, s) && DiskInv(s) && NoOrphans(s) && Run(c, s, acts) && NeverOverlaps(c, s, acts) && CrashFree(acts)
    ensures NoOrphans(After(c, s, acts))
    decreases |acts|
  {
    if acts != [] {
      var a := acts[0];
      KeepsPublishingHasBlob(c, s, a);
      KeepsRows(c, s, a);
      KeepsSweptHasNoRow(c, s, a);
      StepKeepsInv(c, s, a);
      forall locator | locator in Apply(c, s, a).disk.blobs
        ensures Accounted(Apply(c, s, a), locator)
      {
        KeepsAccounted(c, s, a, locator);
      }
      RunKeepsNoOrphans(c, Apply(c, s, a), acts[1..]);
    }
  }

  /** In a crash-free single-node run the published blobs are exactly the rows'
      blobs whenever no publish or delete is half done. */
  lemma BlobsAreRows(c: Config, s: State, acts: seq<Action>)
    requires c.single && Initial(s) && Run(c, s, acts) && CrashFree(acts)
    requires Quiet(After(c, s, acts))
    ensures After(c, s, acts).disk.blobs.Keys == After(c, s, acts).disk.rows.Values
  {
    SingleNodeNeverOverlaps(c, s, acts);
    RunKeepsDiskInv(c, s, acts);
    RunKeepsNoOrphans(c, s, acts);
    var s' := After(c, s, acts);
    forall locator | locator in s'.disk.blobs
      ensures locator in s'.disk.rows.Values
    {
      assert Accounted(s', locator);
    }
  }

  /** The bytes behind a locator were rendered by a job of exactly that key. */
  ghost predicate OwnBytes(s: State) {
    forall locator :: locator in s.disk.blobs ==>
      var id := s.disk.blobs[locator];
      id in s.jobs && Renderable(s.jobs[id].key) && Locator(s.jobs[id].key) == locator
  }

  lemma KeepsOwnBytes(c: Config, s: State, a: Action)
    requires Owned(s) && OwnBytes(s) && Enabled(c, s, a)
    ensures OwnBytes(Apply(c, s, a))
  {
    var s' := Apply(c, s, a);
    forall locator | locator in s'.disk.blobs
      ensures var id := s'.disk.blobs[locator];
        id in s'.jobs && Renderable(s'.jobs[id].key) && Locator(s'.jobs[id].key) == locator
    {
      BytesOrigin(c, s, a, locator);
      JobFollows(c, s, a, s'.disk.blobs[locator]);
    }
  }

  /** Bytes found after an action were there before, or have just been published
      for their own key. */
  lemma BytesOrigin(c: Config, s: State, a: Action, locator: string)
    requires Enabled(c, s, a) && locator in Apply(c, s, a).disk.blobs
    ensures var id := Apply(c, s, a).disk.blobs[locator];
      || (locator in s.disk.blobs && s.disk.blobs[locator] == id)
      || (a.PutBlob? && id in s.jobs && Renderable(s.jobs[id].key) && Locator(s.jobs[id].key) == locator)
  {
  }

  lemma {:induction false} RunKeepsOwnBytes(c: Config, s: State, acts: seq<Action>)
    requires Inv(c, s) && OwnBytes(s) && Run(c, s, acts)
    ensures OwnBytes(After(c, s, acts))
    decreases |acts|
  {
    if acts != [] {
      var s' := Apply(c, s, acts[0]);
      KeepsOwnBytes(c, s, acts[0]);
      StepKeepsInv(c, s, acts[0]);
      RunKeepsOwnBytes(c, s', acts[1..]);
    }
  }

  /** Whatever overlaps, a row keeps naming its own key's locator. */
  lemma {:induction false} RunKeepsRowsLocated(c: Config, s: State, acts: seq<Action>)
    requires RowsLocated(s.disk) && Run(c, s, acts)
    ensures RowsLocated(After(c, s, acts).disk)
    decreases |acts|
  {
    if acts != [] {
      RunKeepsRowsLocated(c, Apply(c, s, acts[0]), acts[1..]);
    }
  }

  /** In every run: the bytes found at a row's locator are that key's own render.  No
      other key's publish can have replaced them, whatever overlaps. */
  lemma ServedBytesAreOwn(c: Config, s: State, acts: seq<Action>, key: CacheKey)
    requires Initial(s) && Run(c, s, acts)
    requires key in After(c, s, acts).disk.rows
    ensures var s' := After(c, s, acts);
      s'.disk.rows[key] in s'.disk.blobs ==>
        && s'.disk.blobs[s'.disk.rows[key]] in s'.jobs
        && s'.jobs[s'.disk.blobs[s'.disk.rows[key]]].key == key
  {
    RunKeepsRowsLocated(c, s, acts);
    RunKeepsOwnBytes(c, s, acts);
    var s' := After(c, s, acts);
    if s'.disk.rows[key] in s'.disk.blobs {
      LocatorInjective(key, s'.jobs[s'.disk.blobs[s'.disk.rows[key]]].key);
    }
  }
}
