/** `RetentionSweeper.sweep_once` (`gc.py`): two loops over a snapshot, newest
    first, against a declarative keep-set. */
module Retention {
  import opened Options
  import opened Blobs
  import opened Store
  import opened FiniteSets
  import opened JobTable
  import opened Protocol
  import opened Installation
  import opened SweepTrace
  import Policy = CachePolicy

  /** What `_keeps` finds out about a record. */
  datatype Verdict = BoardGone | Classified(frozen: Option<bool>)

  /** Frozen or undecidable records are exempt; a record whose board is gone is not. */
  predicate Keeps(v: Verdict) {
    v.Classified? && v.frozen != Some(false)
  }

  /** One sweep: the classification it meets, its clock in microseconds, its limits. */
  datatype Rules = Rules(classify: RenderRecord -> Verdict, now: int, maxAgeDays: int, maxPerBoard: nat)

  predicate TooOld(rules: Rules, record: RenderRecord) {
    record.renderedAt * 1_000_000 < rules.now - rules.maxAgeDays * 86_400_000_000
  }

  predicate Exempt(rules: Rules, record: RenderRecord) {
    Keeps(rules.classify(record))
  }

  /** Neither exempt nor too old: competes for its board's places. */
  predicate Candidate(rules: Rules, record: RenderRecord) {
    !Exempt(rules, record) && !TooOld(rules, record)
  }

  /** The board's candidates, in listing order. */
  function Candidates(rules: Rules, rows: seq<RenderRecord>, board: string): seq<RenderRecord> {
    if rows == [] then []
    else
      var last := rows[|rows| - 1];
      var front := Candidates(rules, rows[..|rows| - 1], board);
      if Candidate(rules, last) && last.key.board == board then front + [last] else front
  }

  /** How many candidates of its board are listed before row `i`. */
  function Rank(rules: Rules, rows: seq<RenderRecord>, i: nat): nat
    requires i < |rows|
  {
    |Candidates(rules, rows[..i], rows[i].key.board)|
  }

  /** The declarative keep-set. */
  predicate Survives(rules: Rules, rows: seq<RenderRecord>, i: nat)
    requires i < |rows|
  {
    Exempt(rules, rows[i]) || (!TooOld(rules, rows[i]) && Rank(rules, rows, i) < rules.maxPerBoard)
  }

  ghost function Removed(rules: Rules, rows: seq<RenderRecord>): set<CacheKey> {
    set i | 0 <= i < |rows| && !Survives(rules, rows, i) :: rows[i].key
  }

  /** A candidate stands in its board's list at its rank. */
  lemma {:induction false} RankLookup(rules: Rules, rows: seq<RenderRecord>, i: nat)
    requires i < |rows| && Candidate(rules, rows[i])
    ensures var list := Candidates(rules, rows, rows[i].key.board);
      Rank(rules, rows, i) < |list| && list[Rank(rules, rows, i)] == rows[i]
    decreases |rows|
  {
    var front := rows[..|rows| - 1];
    if i == |rows| - 1 {
      assert rows[..i] == front;
    } else {
      RankLookup(rules, front, i);
      assert front[..i] == rows[..i];
    }
  }

  /** Every entry of a board's list is a row of that rank. */
  lemma {:induction false} RowOfRank(rules: Rules, rows: seq<RenderRecord>, board: string, k: nat) returns (i: nat)
    requires k < |Candidates(rules, rows, board)|
    ensures i < |rows| && rows[i] == Candidates(rules, rows, board)[k]
    ensures Candidate(rules, rows[i]) && rows[i].key.board == board && Rank(rules, rows, i) == k
    decreases |rows|
  {
    var front := rows[..|rows| - 1];
    if k < |Candidates(rules, front, board)| {
      i := RowOfRank(rules, front, board, k);
      assert front[..i] == rows[..i];
    } else {
      i := |rows| - 1;
      assert rows[..i] == front;
    }
  }

  ghost predicate DistinctKeys(rows: seq<RenderRecord>) {
    forall i, j :: 0 <= i < j < |rows| ==> rows[i].key != rows[j].key
  }

  ghost function KeysOf(rows: seq<RenderRecord>): set<CacheKey> {
    set i | 0 <= i < |rows| :: rows[i].key
  }

  lemma {:induction false} KeysOfSize(rows: seq<RenderRecord>)
    ensures |KeysOf(rows)| <= |rows|
    ensures DistinctKeys(rows) ==> |KeysOf(rows)| == |rows|
  {
    if rows != [] {
      var front, last := rows[..|rows| - 1], rows[|rows| - 1];
      KeysOfSize(front);
      assert KeysOf(rows) == KeysOf(front) + {last.key};
      if DistinctKeys(rows) {
        assert last.key !in KeysOf(front);
      }
    }
  }

  /** Keys of the first `n` rows. */
  ghost function KeysUpto(rows: seq<RenderRecord>, n: nat): set<CacheKey>
    requires n <= |rows|
  {
    set i | 0 <= i < n :: rows[i].key
  }

  lemma KeysUptoNext(rows: seq<RenderRecord>, gone: set<CacheKey>, k: nat)
    requires k < |rows| && DistinctKeys(rows) && KeysOf(rows) !! gone
    ensures gone + KeysUpto(rows, k + 1) == gone + KeysUpto(rows, k) + {rows[k].key}
    ensures rows[k].key !in gone + KeysUpto(rows, k)
  {
    assert rows[k].key in KeysOf(rows);
  }

  lemma CandidatesDistinct(rules: Rules, rows: seq<RenderRecord>, board: string)
    requires DistinctKeys(rows)
    ensures DistinctKeys(Candidates(rules, rows, board))
  {
    var list := Candidates(rules, rows, board);
    forall k, m | 0 <= k < m < |list|
      ensures list[k].key != list[m].key
    {
      var i := RowOfRank(rules, rows, board, k);
      var j := RowOfRank(rules, rows, board, m);
      assert i != j;
    }
  }

  /** A record removed by the count limit leaves behind `max_per_board` candidates
      of its board that are at least as new. */
  lemma CountLimitKeepsNewest(rules: Rules, renders: Renders, rows: seq<RenderRecord>, i: nat, k: nat)
    requires IsSnapshot(renders, rows) && i < |rows| && Candidate(rules, rows[i]) && !Survives(rules, rows, i)
    requires k < rules.maxPerBoard
    ensures var list := Candidates(rules, rows, rows[i].key.board);
      && k < |list| && list[k].renderedAt >= rows[i].renderedAt
      && list[k].key in renders && list[k].key !in Removed(rules, rows)
  {
    RankLookup(rules, rows, i);
    var board := rows[i].key.board;
    var j := RowOfRank(rules, rows, board, k);
    if i < j { RankGrows(rules, rows, board, i, j); }
    forall m | 0 <= m < |rows| && rows[m].key == rows[j].key
      ensures Survives(rules, rows, m)
    {
      assert m == j;
    }
  }

  lemma {:induction false} RankGrows(rules: Rules, rows: seq<RenderRecord>, board: string, i: nat, j: nat)
    requires i <= j <= |rows|
    ensures |Candidates(rules, rows[..i], board)| <= |Candidates(rules, rows[..j], board)|
    decreases j
  {
    if i < j {
      RankGrows(rules, rows, board, i, j - 1);
      assert rows[..j][..j - 1] == rows[..j - 1];
    }
  }

  /** A second sweep with the same clock and classification removes nothing,
      however ties are listed. */
  lemma SecondSweepRemovesNothing(rules: Rules, renders: Renders, rows: seq<RenderRecord>, rows': seq<RenderRecord>)
    requires IsSnapshot(renders, rows) && IsSnapshot(renders - Removed(rules, rows), rows')
    ensures Removed(rules, rows') == {}
  {
    forall i | 0 <= i < |rows'|
      ensures Survives(rules, rows', i)
    {
      var record := rows'[i];
      var n := SnapshotIndex(rules, renders, rows, record);
      if !Exempt(rules, record) {
        BoardFits(rules, renders, rows, rows', record.key.board);
        RankLookup(rules, rows', i);
      }
    }
  }

  /** A record left by the first sweep was listed and survived. */
  lemma SnapshotIndex(rules: Rules, renders: Renders, rows: seq<RenderRecord>, record: RenderRecord) returns (n: nat)
    requires IsSnapshot(renders, rows) && record.ok
    requires record.key in renders - Removed(rules, rows) && renders[record.key] == record
    ensures n < |rows| && rows[n] == record && Survives(rules, rows, n)
  {
    assert renders[record.key] in rows;
    n :| 0 <= n < |rows| && rows[n] == record;
  }

  lemma BoardFits(rules: Rules, renders: Renders, rows: seq<RenderRecord>, rows': seq<RenderRecord>, board: string)
    requires IsSnapshot(renders, rows) && IsSnapshot(renders - Removed(rules, rows), rows')
    ensures |Candidates(rules, rows', board)| <= rules.maxPerBoard
  {
    var list, list' := Candidates(rules, rows, board), Candidates(rules, rows', board);
    var kept := if |list| <= rules.maxPerBoard then list else list[..rules.maxPerBoard];
    forall key | key in KeysOf(list')
      ensures key in KeysOf(kept)
    {
      var k :| 0 <= k < |list'| && list'[k].key == key;
      var j := RowOfRank(rules, rows', board, k);
      var n := SnapshotIndex(rules, renders, rows, rows'[j]);
      RankLookup(rules, rows, n);
      assert kept[Rank(rules, rows, n)].key == key;
    }
    CandidatesDistinct(rules, rows', board);
    KeysOfSize(list');
    KeysOfSize(kept);
    SubsetSize(KeysOf(list'), KeysOf(kept));
  }

  /** Locators of the given rows. */
  ghost function Locators(renders: Renders, keys: set<CacheKey>): set<string>
    requires keys <= renders.Keys
  {
    set key | key in keys :: renders[key].artifactPath
  }

  /** The rows are distinct stored ones. */
  ghost predicate Lists(renders: Renders, rows: seq<RenderRecord>) {
    DistinctKeys(rows) && KeysOf(rows) <= renders.Keys
  }

  lemma SnapshotLists(renders: Renders, rows: seq<RenderRecord>)
    requires IsSnapshot(renders, rows)
    ensures Lists(renders, rows)
  {
  }

  lemma RowListed(renders: Renders, rows: seq<RenderRecord>, i: nat)
    requires Lists(renders, rows) && i < |rows|
    ensures rows[i].key in renders
  {
  }

  /** Only records that are known to be non-frozen, or whose board is gone, are ever
      removed; of those every too old one is. */
  lemma OnlyDecidedAreRemoved(rules: Rules, rows: seq<RenderRecord>, i: nat)
    requires DistinctKeys(rows) && i < |rows|
    ensures rows[i].key in Removed(rules, rows) ==> rules.classify(rows[i]) in {BoardGone, Classified(Some(false))}
    ensures TooOld(rules, rows[i]) ==>
      (rows[i].key in Removed(rules, rows) <==> rules.classify(rows[i]) in {BoardGone, Classified(Some(false))})
  {
    if rows[i].key in Removed(rules, rows) {
      var j :| 0 <= j < |rows| && !Survives(rules, rows, j) && rows[j].key == rows[i].key;
      assert j == i;
    }
  }

  /** Earlier listed rows of the board that are known non-frozen, or whose board is
      gone, and not too old. */
  ghost function Rivals(rules: Rules, rows: seq<RenderRecord>, board: string, n: nat): set<int> {
    set j | 0 <= j < |rows| && j < n && rows[j].key.board == board
      && rules.classify(rows[j]) in {BoardGone, Classified(Some(false))}
      && rules.now - rows[j].renderedAt * 1_000_000 <= rules.maxAgeDays * 86_400_000_000
  }

  lemma {:induction false} RankIsRivals(rules: Rules, rows: seq<RenderRecord>, board: string, n: nat)
    requires n <= |rows|
    ensures |Candidates(rules, rows[..n], board)| == |Rivals(rules, rows, board, n)|
    decreases n
  {
    if n > 0 {
      RankIsRivals(rules, rows, board, n - 1);
      assert rows[..n][..n - 1] == rows[..n - 1];
      var before, with := Rivals(rules, rows, board, n - 1), Rivals(rules, rows, board, n);
      if Candidate(rules, rows[n - 1]) && rows[n - 1].key.board == board {
        assert n - 1 in with;
        assert with == before + {n - 1};
      } else {
        assert n - 1 !in with;
        assert with == before;
      }
    } else {
      assert Rivals(rules, rows, board, 0) == {};
    }
  }

  /** What a sweep removes, in days and counts: of the listed rows the known non-frozen
      ones, and those whose board is gone, that are more than `max_age_days` days old
      or have `max_per_board` rows of their board like them, but not too old, listed
      before them. */
  lemma RemovedMeans(rules: Rules, rows: seq<RenderRecord>, i: nat)
    requires DistinctKeys(rows) && i < |rows|
    ensures rows[i].key in Removed(rules, rows) <==>
      && rules.classify(rows[i]) in {BoardGone, Classified(Some(false))}
      && (|| rules.now - rows[i].renderedAt * 1_000_000 > rules.maxAgeDays * 86_400_000_000
          || |Rivals(rules, rows, rows[i].key.board, i)| >= rules.maxPerBoard)
  {
    RankIsRivals(rules, rows, rows[i].key.board, i);
    assert rows[i].key in Removed(rules, rows) <==> !Survives(rules, rows, i) by {
      if j :| 0 <= j < |rows| && !Survives(rules, rows, j) && rows[j].key == rows[i].key {
        assert j == i;
      }
    }
  }

  /** A record no older than the limit on a board with at most `max_per_board` listed
      rows stays, whatever it is classified as. */
  lemma YoungOfFewStay(rules: Rules, rows: seq<RenderRecord>, i: nat)
    requires DistinctKeys(rows) && i < |rows|
    requires rules.now - rows[i].renderedAt * 1_000_000 <= rules.maxAgeDays * 86_400_000_000
    requires |set j | 0 <= j < |rows| && rows[j].key.board == rows[i].key.board| <= rules.maxPerBoard
    ensures rows[i].key !in Removed(rules, rows)
  {
    RemovedMeans(rules, rows, i);
    var all := set j | 0 <= j < |rows| && rows[j].key.board == rows[i].key.board;
    assert i in all;
    SubsetSize(Rivals(rules, rows, rows[i].key.board, i), all - {i});
  }

  // What the loops have removed part-way.

  /** By age, among the first `n` rows. */
  ghost function AgedOut(rules: Rules, rows: seq<RenderRecord>, n: nat): set<CacheKey> {
    set i | 0 <= i < |rows| && i < n && !Exempt(rules, rows[i]) && TooOld(rules, rows[i]) :: rows[i].key
  }

  predicate Excess(rules: Rules, rows: seq<RenderRecord>, i: nat)
    requires i < |rows|
  {
    Candidate(rules, rows[i]) && Rank(rules, rows, i) >= rules.maxPerBoard
  }

  /** By count, on boards outside `left`. */
  ghost function CountedOut(rules: Rules, rows: seq<RenderRecord>, left: set<string>): set<CacheKey> {
    set i | 0 <= i < |rows| && Excess(rules, rows, i) && rows[i].key.board !in left :: rows[i].key
  }

  /** `records[max_per_board:]` */
  function Tail(rows: seq<RenderRecord>, n: nat): seq<RenderRecord> {
    if |rows| <= n then [] else rows[n..]
  }

  lemma AgedOutNext(rules: Rules, rows: seq<RenderRecord>, n: nat)
    requires n < |rows| && DistinctKeys(rows)
    ensures AgedOut(rules, rows, n + 1) == AgedOut(rules, rows, n) +
      if !Exempt(rules, rows[n]) && TooOld(rules, rows[n]) then {rows[n].key} else {}
    ensures rows[n].key !in AgedOut(rules, rows, n)
  {
  }

  /** `survivors[record.board].append(record)` */
  function WithSurvivor(groups: map<string, seq<RenderRecord>>, record: RenderRecord): map<string, seq<RenderRecord>> {
    groups[record.key.board := (if record.key.board in groups then groups[record.key.board] else []) + [record]]
  }

  /** The dictionary the first loop builds. */
  function GroupsOf(rules: Rules, rows: seq<RenderRecord>): map<string, seq<RenderRecord>> {
    if rows == [] then map[]
    else
      var last := rows[|rows| - 1];
      var groups := GroupsOf(rules, rows[..|rows| - 1]);
      if Candidate(rules, last) then WithSurvivor(groups, last) else groups
  }

  lemma GroupsNext(rules: Rules, rows: seq<RenderRecord>, i: nat)
    requires i < |rows|
    ensures GroupsOf(rules, rows[..i + 1])
      == if Candidate(rules, rows[i]) then WithSurvivor(GroupsOf(rules, rows[..i]), rows[i])
         else GroupsOf(rules, rows[..i])
  {
    assert rows[..i + 1][..i] == rows[..i];
  }

  lemma {:induction false} GroupIsCandidates(rules: Rules, rows: seq<RenderRecord>, board: string)
    ensures var groups := GroupsOf(rules, rows);
      Candidates(rules, rows, board) == if board in groups then groups[board] else []
  {
    if rows != [] {
      GroupIsCandidates(rules, rows[..|rows| - 1], board);
    }
  }

  /** The rows beyond the limit on one board are the tail of its list. */
  lemma TailIsCountedOut(rules: Rules, rows: seq<RenderRecord>, left: set<string>, board: string)
    requires board in left
    ensures CountedOut(rules, rows, left - {board})
      == CountedOut(rules, rows, left) + KeysOf(Tail(Candidates(rules, rows, board), rules.maxPerBoard))
  {
    var list := Candidates(rules, rows, board);
    var tail := Tail(list, rules.maxPerBoard);
    forall i | 0 <= i < |rows| && Excess(rules, rows, i) && rows[i].key.board == board
      ensures rows[i].key in KeysOf(tail)
    {
      RankLookup(rules, rows, i);
      assert tail[Rank(rules, rows, i) - rules.maxPerBoard] == rows[i];
    }
    forall key | key in KeysOf(tail)
      ensures key in CountedOut(rules, rows, left - {board})
    {
      var k :| 0 <= k < |tail| && tail[k].key == key;
      var i := RowOfRank(rules, rows, board, rules.maxPerBoard + k);
    }
  }

  lemma TailEntry(rules: Rules, renders0: Renders, rows: seq<RenderRecord>, left: set<string>, board: string, k: nat)
    requires Lists(renders0, rows) && board in left && k < |Tail(Candidates(rules, rows, board), rules.maxPerBoard)|
    ensures var key := Tail(Candidates(rules, rows, board), rules.maxPerBoard)[k].key;
      key in renders0 && key !in AgedOut(rules, rows, |rows|) + CountedOut(rules, rows, left)
  {
    var i := RowOfRank(rules, rows, board, rules.maxPerBoard + k);
    RowListed(renders0, rows, i);
    RowUntouched(rules, rows, left, i);
  }

  /** The tail's rows are stored, distinct and not removed so far. */
  lemma TailIsUntouched(rules: Rules, renders0: Renders, rows: seq<RenderRecord>, left: set<string>, board: string)
    requires Lists(renders0, rows) && board in left
    ensures var tail := Tail(Candidates(rules, rows, board), rules.maxPerBoard);
      && Lists(renders0, tail)
      && KeysOf(tail) !! AgedOut(rules, rows, |rows|) + CountedOut(rules, rows, left)
  {
    CandidatesDistinct(rules, rows, board);
    var list := Candidates(rules, rows, board);
    var tail, gone := Tail(list, rules.maxPerBoard), AgedOut(rules, rows, |rows|) + CountedOut(rules, rows, left);
    assert DistinctKeys(tail);
    forall k | 0 <= k < |tail|
      ensures tail[k].key in renders0 && tail[k].key !in gone
    {
      TailEntry(rules, renders0, rows, left, board, k);
    }
    assert forall key :: key in KeysOf(tail) ==> key in renders0 && key !in gone;
  }

  lemma RowUntouched(rules: Rules, rows: seq<RenderRecord>, left: set<string>, i: nat)
    requires DistinctKeys(rows) && i < |rows| && Candidate(rules, rows[i]) && rows[i].key.board in left
    ensures rows[i].key !in AgedOut(rules, rows, |rows|) + CountedOut(rules, rows, left)
  {
  }

  /** Removed is what the two loops remove. */
  lemma RemovedByAgeOrCount(rules: Rules, rows: seq<RenderRecord>)
    ensures Removed(rules, rows) == GoneBut(rules, rows, {})
  {
  }

  /** The tables after the rows with keys in `gone` and their blobs were deleted. */
  ghost predicate Swept(renders0: Renders, files0: map<string, Bytes>, gone: set<CacheKey>,
                        renders: Renders, files: map<string, Bytes>)
  {
    gone <= renders0.Keys && renders == renders0 - gone && files == files0 - Locators(renders0, gone)
  }

  /** Everything removed once the boards in `left` are still to come. */
  ghost function GoneBut(rules: Rules, rows: seq<RenderRecord>, left: set<string>): set<CacheKey> {
    AgedOut(rules, rows, |rows|) + CountedOut(rules, rows, left)
  }

  lemma BoardStep(rules: Rules, renders0: Renders, rows: seq<RenderRecord>, left: set<string>, board: string,
                  tail: seq<RenderRecord>)
    requires Lists(renders0, rows) && board in left && board in GroupsOf(rules, rows)
    requires tail == Tail(GroupsOf(rules, rows)[board], rules.maxPerBoard)
    ensures Lists(renders0, tail) && KeysOf(tail) !! GoneBut(rules, rows, left)
    ensures GoneBut(rules, rows, left - {board}) == GoneBut(rules, rows, left) + KeysOf(tail)
  {
    GroupIsCandidates(rules, rows, board);
    TailIsCountedOut(rules, rows, left, board);
    TailIsUntouched(rules, renders0, rows, left, board);
  }

  lemma NoneOutside(rules: Rules, rows: seq<RenderRecord>)
    ensures GoneBut(rules, rows, GroupsOf(rules, rows).Keys) == AgedOut(rules, rows, |rows|)
  {
    forall i | 0 <= i < |rows| && Excess(rules, rows, i)
      ensures rows[i].key.board in GroupsOf(rules, rows)
    {
      RankLookup(rules, rows, i);
      GroupIsCandidates(rules, rows, rows[i].key.board);
    }
  }

  /** When nothing was published meanwhile, the sweep has taken the listed rows and
      their blobs and nothing else. */
  lemma {:induction false} UndisturbedIsSwept(t0: Tables, trace: seq<Event>)
    requires (forall i :: 0 <= i < |trace| ==> trace[i].Pruned?) && Once(trace) && Targets(trace) <= t0.renders.Keys
    ensures Swept(t0.renders, t0.files, Targets(trace), Replay(t0, trace).renders, Replay(t0, trace).files)
    decreases |trace|
  {
    if trace == [] {
      assert t0.renders - {} == t0.renders && t0.files - Locators(t0.renders, {}) == t0.files;
    } else {
      var front, key := trace[..|trace| - 1], trace[|trace| - 1].key;
      assert trace[|trace| - 1] == Pruned(key);
      forall i | 0 <= i < |front|
        ensures front[i].key != key
      {
        assert front[i] == trace[i];
      }
      assert Targets(trace) == Targets(front) + {key};
      UndisturbedIsSwept(t0, front);
      OneMoreGone(t0.renders, t0.files, Targets(front), key, Targets(trace));
    }
  }

  /** What an interrupted sweep removes: a record it deletes is a listed one outside
      the keep-set if and only if its key was not rendered again between the listing
      and the delete. */
  lemma SweepRemovesListed(rules: Rules, t0: Tables, rows: seq<RenderRecord>, trace: seq<Event>, i: nat)
    requires Keyed(t0.renders) && IsSnapshot(t0.renders, rows) && FreshRecords(t0, trace)
    requires Targets(trace) == Removed(rules, rows) && Once(trace)
    requires i < |trace| && trace[i].Pruned?
    ensures var before := Replay(t0, trace[..i]);
      && trace[i].key in before.renders
      && ((exists j :: 0 <= j < |rows| && !Survives(rules, rows, j) && before.renders[trace[i].key] == rows[j])
          <==> !Republished(trace, i, trace[i].key))
  {
    var key, before := trace[i].key, Replay(t0, trace[..i]);
    assert key in Targets(trace);
    var j :| 0 <= j < |rows| && !Survives(rules, rows, j) && rows[j].key == key;
    RowUntilPruned(t0, trace, i, key);
    assert t0.renders[key] == rows[j];
    if n :| 0 <= n < |rows| && before.renders[key] == rows[n] {
      ReplayKeepsKeyed(t0, trace[..i]);
      assert rows[n].key == key && n == j;
    }
  }

  lemma {:induction false} ReplayKeepsKeyed(t: Tables, trace: seq<Event>)
    requires Keyed(t.renders)
    ensures Keyed(Replay(t, trace).renders)
    decreases |trace|
  {
    if trace != [] {
      ReplayKeepsKeyed(t, trace[..|trace| - 1]);
    }
  }

  /** The other case does occur: a record listed as too old is rendered again before
      its delete, and the fresh row goes with its bytes, although the next listing
      would keep it. */
  lemma FreshRenderCanGo(rules: Rules, listed: RenderRecord, newer: Publication, bytes: Bytes)
    requires TooOld(rules, listed) && !Exempt(rules, listed) && !TooOld(rules, newer.record) && 1 <= rules.maxPerBoard
    requires listed.ok && newer.record.ok && newer.record.key == listed.key
    requires newer.record.artifactPath == listed.artifactPath
    ensures var t0 := Tables(map[listed.key := listed], map[listed.artifactPath := bytes]);
      var trace := [Published(newer), Pruned(listed.key)];
      && IsSnapshot(t0.renders, [listed]) && Targets(trace) == Removed(rules, [listed]) && Once(trace)
      && Replay(t0, trace) == Tables(map[], map[])
      && Survives(rules, [newer.record], 0)
  {
    var t0 := Tables(map[listed.key := listed], map[listed.artifactPath := bytes]);
    var trace := [Published(newer), Pruned(listed.key)];
    assert trace[1] == Pruned(listed.key) && [listed][0].key == listed.key;
    assert !Survives(rules, [listed], 0);
    assert Targets(trace) == {listed.key} == Removed(rules, [listed]);
    ReplayNext(t0, [], Published(newer));
    ReplayNext(t0, [Published(newer)], Pruned(listed.key));
    assert [] + [Published(newer)] == [Published(newer)] && [Published(newer)] + [Pruned(listed.key)] == trace;
  }

  /** Whatever serving has called FROZEN survives every later sweep while the board
      source stays as it is, whether describe succeeds then or not, and even if a
      failed describe was cached before. */
  lemma ServedFrozenSurvives(rules: Rules, rows: seq<RenderRecord>, i: nat, config: Policy.Config,
                             parse: string -> Option<int>, schema: Policy.Schema, info: seq<Policy.Declaration>,
                             described: Option<seq<Policy.Declaration>>, variables: map<string, string>,
                             now: int, today: int, today': int)
    requires i < |rows| && DistinctKeys(rows)
    requires Policy.CachedFrom(schema, info) && (described.None? || described == Some(info)) && today <= today'
    requires rules.classify(rows[i]) == Classified(Policy.FrozenOf(config, parse, described, variables, today'))
    requires Policy.FreshnessOf(config, parse, schema, variables, Some(rows[i].renderedAt), now, today).Frozen?
    ensures rows[i].key !in Removed(rules, rows)
  {
  }

  predicate OnlyDeletes(acts: seq<Action>, node: NodeId) {
    forall i :: 0 <= i < |acts| ==> (acts[i].DeleteRow? || acts[i].DeleteBlob?) && acts[i].node == node
  }

  lemma OneMoreGone(renders0: Renders, files0: map<string, Bytes>, rest: set<CacheKey>, key: CacheKey,
                    gone: set<CacheKey>)
    requires gone <= renders0.Keys && key in gone && rest == gone - {key}
    ensures key in renders0 - rest && renders0 - gone == (renders0 - rest) - {key}
    ensures files0 - Locators(renders0, gone)
         == files0 - Locators(renders0, rest) - {(renders0 - rest)[key].artifactPath}
  {
    assert Locators(renders0, gone) == Locators(renders0, rest) + {renders0[key].artifactPath};
  }

  /** Deleting a set of rows, one after the other, is a run of the protocol. */
  lemma {:induction false} SweepIsRun(c: Config, s: State, node: NodeId, renders0: Renders, files0: map<string, Bytes>,
                                      gone: set<CacheKey>)
    returns (acts: seq<Action>)
    requires AboutToDelete(c, s, node, renders0, files0) && gone <= renders0.Keys
    ensures OnlyDeletes(acts, node)
    ensures Performs(c, s, acts, renders0 - gone, files0 - Locators(renders0, gone))
    ensures AboutToDelete(c, After(c, s, acts), node, renders0 - gone, files0 - Locators(renders0, gone))
    decreases |gone|
  {
    if gone == {} {
      acts := [];
      assert renders0 - gone == renders0 && files0 - Locators(renders0, gone) == files0;
    } else {
      var key :| key in gone;
      var rest := gone - {key};
      acts := SweepIsRun(c, s, node, renders0, files0, rest);
      var renders, files := renders0 - rest, files0 - Locators(renders0, rest);
      var renders', files' := renders0 - gone, files0 - Locators(renders0, gone);
      OneMoreGone(renders0, files0, rest, key, gone);
      var last := Deletion(renders, node, key);
      DeletionIsRun(c, After(c, s, acts), node, key, renders, files, renders', files');
      RunOfBoth(c, s, acts, last);
      acts := acts + last;
    }
  }

  /** Some run of deletes by the node leads from `s` to these tables. */
  ghost predicate SweepsTo(c: Config, s: State, node: NodeId, renders: Renders, files: map<string, Bytes>) {
    exists acts :: OnlyDeletes(acts, node) && Performs(c, s, acts, renders, files)
  }

  ghost predicate Undisturbed(others: nat -> seq<Publication>) {
    forall k: nat :: others(k) == []
  }

  /** The uninterrupted sweep. */
  lemma UndisturbedSweep(rules: Rules, t0: Tables, rows: seq<RenderRecord>, trace: seq<Event>,
                         others: nat -> seq<Publication>)
    requires Lists(t0.renders, rows) && Undisturbed(others)
    requires Targets(trace) == Removed(rules, rows) && Once(trace) && From(trace, others)
    ensures var t := Replay(t0, trace);
      && Swept(t0.renders, t0.files, Removed(rules, rows), t.renders, t.files)
      && forall c: Config, s: State, node: NodeId :: AboutToDelete(c, s, node, t0.renders, t0.files) ==>
           SweepsTo(c, s, node, t.renders, t.files)
  {
    assert forall i :: 0 <= i < |trace| ==> trace[i].Pruned?;
    UndisturbedIsSwept(t0, trace);
    forall c: Config, s: State, node: NodeId | AboutToDelete(c, s, node, t0.renders, t0.files)
      ensures SweepsTo(c, s, node, Replay(t0, trace).renders, Replay(t0, trace).files)
    {
      var acts := SweepIsRun(c, s, node, t0.renders, t0.files, Removed(rules, rows));
    }
  }

  class RetentionSweeper {
    const store: LocalStore
    const blobs: LocalBlobs

    constructor (store: LocalStore, blobs: LocalBlobs)
      ensures this.store == store && this.blobs == blobs
    {
      this.store, this.blobs := store, blobs;
    }

    /** `_delete`: the row goes first, then the blob it named. */
    method Delete(key: CacheKey)
      modifies store`renders, blobs`files
      ensures store.renders == old(store.renders) - {key}
      ensures blobs.files == if key in old(store.renders)
        then old(blobs.files) - {old(store.renders)[key].artifactPath} else old(blobs.files)
      ensures forall c: Config, s: State, node: NodeId ::
        AboutToDelete(c, s, node, old(store.renders), old(blobs.files)) ==>
          Performs(c, s, Deletion(old(store.renders), node, key), store.renders, blobs.files)
    {
      var locator := store.DeleteRender(key);
      if locator.Some? {
        blobs.Delete(locator.value);
      }
      forall c: Config, s: State, node: NodeId | AboutToDelete(c, s, node, old(store.renders), old(blobs.files))
        ensures Performs(c, s, Deletion(old(store.renders), node, key), store.renders, blobs.files)
      {
        DeletionIsRun(c, s, node, key, old(store.renders), old(blobs.files), store.renders, blobs.files);
      }
    }

    /** Other coroutines publish while the sweep is suspended. */
    method Meanwhile(renders: seq<Publication>, others: nat -> seq<Publication>, ghost k: nat,
                     ghost t0: Tables, ghost before: seq<Event>, ghost gone: set<CacheKey>)
      returns (ghost trace: seq<Event>)
      requires Traced(t0, before, others, gone, store.renders, blobs.files) && renders == others(k)
      modifies store`renders, blobs`files
      ensures Traced(t0, trace, others, gone, store.renders, blobs.files)
      ensures others(k) == [] ==> trace == before
    {
      trace := before;
      var i := 0;
      while i < |renders|
        invariant 0 <= i <= |renders| && (i == 0 ==> trace == before)
        invariant Traced(t0, trace, others, gone, store.renders, blobs.files)
      {
        PublishNext(t0, trace, others, gone, Tables(store.renders, blobs.files), k, renders[i]);
        trace := trace + [Published(renders[i])];
        blobs.files := blobs.files[renders[i].record.artifactPath := renders[i].bytes];
        store.Put(renders[i].record);
        i := i + 1;
      }
    }

    /** The `k`-th deletion of a sweep that began with the tables `t0`. */
    method Prune(key: CacheKey, k: nat, others: nat -> seq<Publication>,
                 ghost t0: Tables, ghost before: seq<Event>, ghost gone: set<CacheKey>)
      returns (ghost trace: seq<Event>)
      requires Traced(t0, before, others, gone, store.renders, blobs.files) && key !in gone
      modifies store`renders, blobs`files
      ensures Traced(t0, trace, others, gone + {key}, store.renders, blobs.files)
      ensures |gone + {key}| == |gone| + 1
    {
      trace := Meanwhile(others(k), others, k, t0, before, gone);
      PruneNext(t0, trace, others, gone, Tables(store.renders, blobs.files), key);
      trace := trace + [Pruned(key)];
      assert key !in store.renders ==> store.renders - {key} == store.renders;
      Delete(key);
    }

    /** The first loop: prunes by age and lists the other candidates per board. */
    method PruneOld(rules: Rules, rows: seq<RenderRecord>, others: nat -> seq<Publication>)
      returns (pruned: nat, survivors: map<string, seq<RenderRecord>>, ghost trace: seq<Event>)
      requires DistinctKeys(rows)
      modifies store`renders, blobs`files
      ensures Traced(old(Tables(store.renders, blobs.files)), trace, others, AgedOut(rules, rows, |rows|),
                     store.renders, blobs.files)
      ensures pruned == |AgedOut(rules, rows, |rows|)|
      ensures survivors == GroupsOf(rules, rows)
    {
      ghost var t0 := Tables(store.renders, blobs.files);
      pruned, survivors, trace := 0, map[], [];
      var i := 0;
      while i < |rows|
        invariant 0 <= i <= |rows|
        invariant Traced(t0, trace, others, AgedOut(rules, rows, i), store.renders, blobs.files)
        invariant pruned == |AgedOut(rules, rows, i)|
        invariant survivors == GroupsOf(rules, rows[..i])
      {
        var record := rows[i];
        AgedOutNext(rules, rows, i);
        GroupsNext(rules, rows, i);
        if !Keeps(rules.classify(record)) {
          if TooOld(rules, record) {
            trace := Prune(record.key, pruned, others, t0, trace, AgedOut(rules, rows, i));
            pruned := pruned + 1;
          } else {
            survivors := WithSurvivor(survivors, record);
          }
        }
        i := i + 1;
      }
      assert rows[..i] == rows;
    }

    /** The second loop on one board: prunes every record of `tail`. */
    method PruneAll(tail: seq<RenderRecord>, from: nat, others: nat -> seq<Publication>,
                    ghost t0: Tables, ghost before: seq<Event>, ghost gone: set<CacheKey>)
      returns (pruned: nat, ghost trace: seq<Event>)
      requires DistinctKeys(tail) && KeysOf(tail) !! gone
      requires Traced(t0, before, others, gone, store.renders, blobs.files)
      modifies store`renders, blobs`files
      ensures Traced(t0, trace, others, gone + KeysOf(tail), store.renders, blobs.files)
      ensures pruned + |gone| == |gone + KeysOf(tail)|
    {
      pruned, trace := 0, before;
      assert gone + KeysUpto(tail, 0) == gone;
      while pruned < |tail|
        invariant 0 <= pruned <= |tail|
        invariant Traced(t0, trace, others, gone + KeysUpto(tail, pruned), store.renders, blobs.files)
        invariant pruned + |gone| == |gone + KeysUpto(tail, pruned)|
      {
        KeysUptoNext(tail, gone, pruned);
        trace := Prune(tail[pruned].key, from + pruned, others, t0, trace, gone + KeysUpto(tail, pruned));
        pruned := pruned + 1;
      }
      assert KeysUpto(tail, |tail|) == KeysOf(tail);
    }

    /** The second loop: board by board. */
    method PruneExcess(rules: Rules, survivors: map<string, seq<RenderRecord>>, from: nat,
                       others: nat -> seq<Publication>, ghost rows: seq<RenderRecord>,
                       ghost t0: Tables, ghost before: seq<Event>)
      returns (pruned: nat, ghost trace: seq<Event>)
      requires Lists(t0.renders, rows) && survivors == GroupsOf(rules, rows)
      requires Traced(t0, before, others, GoneBut(rules, rows, survivors.Keys), store.renders, blobs.files)
      modifies store`renders, blobs`files
      ensures Traced(t0, trace, others, GoneBut(rules, rows, {}), store.renders, blobs.files)
      ensures pruned + |GoneBut(rules, rows, survivors.Keys)| == |GoneBut(rules, rows, {})|
    {
      pruned, trace := 0, before;
      var boards := survivors.Keys;
      while boards != {}
        invariant boards <= survivors.Keys
        invariant Traced(t0, trace, others, GoneBut(rules, rows, boards), store.renders, blobs.files)
        invariant pruned + |GoneBut(rules, rows, survivors.Keys)| == |GoneBut(rules, rows, boards)|
        decreases |boards|
      {
        var board :| board in boards;
        var tail := Tail(survivors[board], rules.maxPerBoard);
        BoardStep(rules, t0.renders, rows, boards, board, tail);
        var n;
        n, trace := PruneAll(tail, from + pruned, others, t0, trace, GoneBut(rules, rows, boards));
        pruned := pruned + n;
        boards := boards - {board};
      }
    }

    /** A sweep, `others(k)` being what other coroutines publish before its `k`-th
        delete.  Whatever that is, it deletes exactly the keys of the rows outside the
        keep-set of its listing, each once, and returns their number.  When nothing is
        published it removes exactly those rows and their blobs, and is a run of
        deletes. */
    method SweepOnce(rules: Rules, others: nat -> seq<Publication>)
      returns (pruned: nat, ghost rows: seq<RenderRecord>, ghost trace: seq<Event>)
      requires Keyed(store.renders)
      modifies store`renders, blobs`files
      ensures IsSnapshot(old(store.renders), rows)
      ensures Traced(old(Tables(store.renders, blobs.files)), trace, others, Removed(rules, rows),
                     store.renders, blobs.files)
      ensures pruned == |Removed(rules, rows)|
      ensures forall i :: 0 <= i < |rows| ==>
        (Pruned(rows[i].key) in trace <==>
          && rules.classify(rows[i]) in {BoardGone, Classified(Some(false))}
          && (|| rules.now - rows[i].renderedAt * 1_000_000 > rules.maxAgeDays * 86_400_000_000
              || |Rivals(rules, rows, rows[i].key.board, i)| >= rules.maxPerBoard))
      ensures Keyed(store.renders)
      ensures Undisturbed(others) ==>
        Swept(old(store.renders), old(blobs.files), Removed(rules, rows), store.renders, blobs.files)
      ensures Undisturbed(others) ==> forall c: Config, s: State, node: NodeId ::
        AboutToDelete(c, s, node, old(store.renders), old(blobs.files)) ==>
          SweepsTo(c, s, node, store.renders, blobs.files)
    {
      ghost var t0 := Tables(store.renders, blobs.files);
      var snapshot := store.AllRenders();
      rows := snapshot;
      SnapshotLists(t0.renders, rows);
      var survivors;
      pruned, survivors, trace := PruneOld(rules, snapshot, others);
      NoneOutside(rules, rows);
      RemovedByAgeOrCount(rules, rows);
      var excess;
      excess, trace := PruneExcess(rules, survivors, pruned, others, rows, t0, trace);
      pruned := pruned + excess;
      ReplayKeepsKeyed(t0, trace);
      forall i | 0 <= i < |rows|
        ensures Pruned(rows[i].key) in trace <==> rows[i].key in Removed(rules, rows)
      {
        PrunedAreTargets(trace, rows[i].key);
      }
      forall i | 0 <= i < |rows| { RemovedMeans(rules, rows, i); }
      if Undisturbed(others) {
        UndisturbedSweep(rules, t0, rows, trace, others);
      }
    }
  }
}
