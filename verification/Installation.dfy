/** Which states of the protocol the stored tables stand for, and which actions the
    artifact operations are on them. */
module Installation {
  import opened Options
  import opened Blobs
  import opened JobTable
  import opened Store
  import opened Protocol

  /** The same rows with the same locators, and a blob wherever a file is. */
  ghost predicate Represents(disk: Artifacts, renders: Renders, files: map<string, Bytes>) {
    && disk.rows.Keys == renders.Keys
    && (forall key :: key in renders ==> disk.rows[key] == renders[key].artifactPath)
    && disk.blobs.Keys == files.Keys
  }

  /** The actions can be taken in `s` and leave these tables; nothing else changes
      but the positions of workers. */
  ghost predicate Performs(c: Config, s: State, acts: seq<Action>, renders: Renders, files: map<string, Bytes>) {
    && Run(c, s, acts)
    && Represents(After(c, s, acts).disk, renders, files)
    && After(c, s, acts) == s.(workers := After(c, s, acts).workers, disk := After(c, s, acts).disk)
  }

  /** A worker has claimed a job of the key, and the tables are those of `s`. */
  ghost predicate AboutToRender(c: Config, s: State, w: WorkerId, key: CacheKey,
                                renders: Renders, files: map<string, Bytes>)
  {
    && Represents(s.disk, renders, files) && (c.single ==> Quiet(s))
    && w in s.workers && s.workers[w].Executing?
    && s.workers[w].id in s.jobs && s.jobs[s.workers[w].id].key == key
  }

  lemma PublishIsRun(c: Config, s: State, w: WorkerId, key: CacheKey, renders: Renders, files: map<string, Bytes>,
                     record: RenderRecord, bytes: Bytes)
    requires AboutToRender(c, s, w, key, renders, files) && Renderable(key) && record.artifactPath == Locator(key)
    ensures Performs(c, s, [PutBlob(w), PutRow(w)], renders[key := record], files[Locator(key) := bytes])
  {
    RunOfTwo(c, s, PutBlob(w), PutRow(w));
  }

  lemma FailureIsRun(c: Config, s: State, w: WorkerId, key: CacheKey, renders: Renders, files: map<string, Bytes>)
    requires AboutToRender(c, s, w, key, renders, files)
    ensures Performs(c, s, [RenderFails(w)], renders, files)
  {
    RunOfOne(c, s, RenderFails(w));
  }

  /** A live node between two deletes, and the tables are those of `s`. */
  ghost predicate AboutToDelete(c: Config, s: State, node: NodeId, renders: Renders, files: map<string, Bytes>) {
    Represents(s.disk, renders, files) && (c.single ==> Quiet(s)) && node in s.up && node !in s.disk.sweeps
  }

  function Deletion(renders: Renders, node: NodeId, key: CacheKey): seq<Action> {
    if key in renders then [DeleteRow(node, key), DeleteBlob(node)] else [DeleteRow(node, key)]
  }

  lemma DeletionIsRun(c: Config, s: State, node: NodeId, key: CacheKey, renders: Renders, files: map<string, Bytes>,
                      renders': Renders, files': map<string, Bytes>)
    requires AboutToDelete(c, s, node, renders, files)
    requires renders' == renders - {key}
    requires files' == if key in renders then files - {renders[key].artifactPath} else files
    ensures Performs(c, s, Deletion(renders, node, key), renders', files')
    ensures AboutToDelete(c, After(c, s, Deletion(renders, node, key)), node, renders', files')
  {
    if key in renders {
      RunOfTwo(c, s, DeleteRow(node, key), DeleteBlob(node));
    } else {
      RunOfOne(c, s, DeleteRow(node, key));
      assert renders' == renders;
    }
  }
}
