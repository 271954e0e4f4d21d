/** Every serialised sequence of scans, enrichments, backfills, queue steps and
    library changes. */
module CatalogRuns {
  import opened Ebooks
  import opened Catalog
  import opened Scanner
  import opened ScanTheorems
  import opened ScanOutcome
  import JobQueue

  datatype Op =
    | AddLibrary(lib: int)
    | Scan(lib: int, entries: seq<Entry>, queued: bool, now: int, stuck: set<string>)
    | Enrich(id: string, candidate: Candidate)
    | Backfill(now: int)
    | QueueStep(jobs: JobQueue.Table) // claims and finishers: no new jobs
    | DeleteLibrary(lib: int)

  predicate Possible(db: Db, op: Op) {
    op.QueueStep? ==> op.jobs.Keys <= db.jobs.Keys
  }

  /** Loading a row, matching it and writing it back, as one step. */
  function Enriched(rows: Rows, id: string, c: Candidate): Rows {
    map k | k in rows :: if rows[k].id == id
      then rows[k].(fields := Matched(EbookRow(id, rows[k].format, rows[k].fields), c).fields)
      else rows[k]
  }

  function LiveIds(rows: Rows): set<string> {
    set k | k in rows && !rows[k].deleted :: rows[k].id
  }

  function Do(db: Db, op: Op): Db
    requires Possible(db, op)
  {
    match op
    case AddLibrary(lib) => db.(libraries := db.libraries + {lib})
    case Scan(lib, entries, queued, now, stuck) => ScannedDb(lib, db, entries, queued, now, stuck)
    case Enrich(id, c) => db.(rows := Enriched(db.rows, id, c))
    case Backfill(now) => db.(jobs := JobQueue.Rearmed(db.jobs, now, JobQueue.Stalled(db.jobs, LiveIds(db.rows))))
    case QueueStep(jobs) => db.(jobs := jobs)
    case DeleteLibrary(lib) => if lib in db.libraries then WithoutLibrary(db, lib) else db
  }

  lemma StepKeepsConsistent(db: Db, op: Op)
    requires Consistent(db) && Possible(db, op)
    ensures Consistent(Do(db, op))
  {
    match op
    case AddLibrary(_) =>
    case Scan(lib, entries, queued, now, stuck) => ScanKeepsConsistent(lib, db, entries, queued, now, stuck);
    case Enrich(id, c) => SameIds(db.rows, Enriched(db.rows, id, c));
    case Backfill(_) => assert LiveIds(db.rows) <= Ids(db.rows);
    case QueueStep(_) =>
    case DeleteLibrary(lib) => if lib in db.libraries { DeleteLibraryKeepsConsistent(db, lib); }
  }

  /** What one step can do to a row that survives it. */
  lemma StepKeepsRow(db: Db, op: Op, k: Key)
    requires Consistent(db) && Possible(db, op)
    requires k in db.rows && k in Do(db, op).rows
    ensures Do(db, op).rows[k].id == db.rows[k].id
    ensures Retained(db.rows[k].fields, Do(db, op).rows[k].fields)
    ensures op.Scan? ==> Untouched(db.rows[k].fields, Do(db, op).rows[k].fields)
    ensures op.Enrich? ==> Do(db, op).rows[k].format == db.rows[k].format
    ensures !op.Scan? && !op.Enrich? ==> Do(db, op).rows[k] == db.rows[k]
  {
    match op
    case Scan(lib, entries, queued, now, stuck) =>
      ScanKeepsRows(lib, db, entries, queued, now, stuck, k);
      RetainedChain(db.rows[k].fields, db.rows[k].fields, Do(db, op).rows[k].fields);
    case Enrich(id, c) =>
      MatchRetains(EbookRow(id, db.rows[k].format, db.rows[k].fields), c);
    case _ =>
  }

  /** Rows only disappear with their library. */
  lemma StepKeepsRows(db: Db, op: Op, k: Key)
    requires Consistent(db) && Possible(db, op) && k in db.rows
    ensures k !in Do(db, op).rows <==> op.DeleteLibrary? && op.lib == k.lib
  {
    if op.Scan? {
      ScanKeepsRows(op.lib, db, op.entries, op.queued, op.now, op.stuck, k);
    }
  }

  predicate Linked(states: seq<Db>, ops: seq<Op>, i: nat)
    requires i < |ops| && |states| == |ops| + 1
  {
    Possible(states[i], ops[i]) && states[i + 1] == Do(states[i], ops[i])
  }

  ghost predicate IsRun(states: seq<Db>, ops: seq<Op>) {
    && |states| == |ops| + 1
    && Consistent(states[0])
    && forall i: nat | i < |ops| :: Linked(states, ops, i)
  }

  /** In every reachable state ids are unique, were minted from the row's own
      path, and every cover and job belongs to an ebook. */
  lemma {:induction false} AlwaysConsistent(states: seq<Db>, ops: seq<Op>, n: nat)
    requires IsRun(states, ops) && n <= |ops|
    ensures Consistent(states[n])
  {
    if n > 0 {
      AlwaysConsistent(states, ops, n - 1);
      assert Linked(states, ops, n - 1);
      StepKeepsConsistent(states[n - 1], ops[n - 1]);
    }
  }

  lemma RunStep(states: seq<Db>, ops: seq<Op>, n: nat, k: Key)
    requires IsRun(states, ops) && n < |ops| && k in states[n].rows && k in states[n + 1].rows
    ensures states[n + 1].rows[k].id == states[n].rows[k].id
    ensures Retained(states[n].rows[k].fields, states[n + 1].rows[k].fields)
  {
    AlwaysConsistent(states, ops, n);
    assert Linked(states, ops, n);
    StepKeepsRow(states[n], ops[n], k);
  }

  /** Stable identity: while a (library, path) row exists its id never changes;
      and none of its filled metadata columns ever becomes empty. */
  lemma {:induction false} RowsKeepIdentity(states: seq<Db>, ops: seq<Op>, i: nat, j: nat, k: Key)
    requires IsRun(states, ops) && i <= j <= |ops|
    requires forall n | i <= n <= j :: k in states[n].rows
    ensures states[j].rows[k].id == states[i].rows[k].id
    ensures Retained(states[i].rows[k].fields, states[j].rows[k].fields)
    decreases j
  {
    if i < j {
      RowsKeepIdentity(states, ops, i, j - 1, k);
      RunStep(states, ops, j - 1, k);
      RetainedChain(states[i].rows[k].fields, states[j - 1].rows[k].fields, states[j].rows[k].fields);
    }
  }

  /** An existing row can only be missing later if its library was deleted in between. */
  lemma {:induction false} RowsLeaveWithTheirLibrary(states: seq<Db>, ops: seq<Op>, i: nat, j: nat, k: Key)
    requires IsRun(states, ops) && i <= j <= |ops| && k in states[i].rows
    requires forall n | i <= n < j :: ops[n] != DeleteLibrary(k.lib)
    ensures k in states[j].rows
    decreases j
  {
    if i < j {
      RowsLeaveWithTheirLibrary(states, ops, i, j - 1, k);
      AlwaysConsistent(states, ops, j - 1);
      assert Linked(states, ops, j - 1);
      StepKeepsRows(states[j - 1], ops[j - 1], k);
    }
  }

  lemma VisitWrites(f: Frame, s: Sweep, e: Entry) returns (r: Row)
    requires NeedsIngest(f.refs, e)
    requires !Refuses(f.libraries, s.rows, Key(f.lib, e.path), IngestId(f.refs, e), e.faults.upsert)
    ensures r == RowAfter(s.rows, Key(f.lib, e.path), IngestId(f.refs, e), Contents(e), e.stat.size, e.stat.mtime, Sig(e))
    ensures Visited(f, s, e).rows == s.rows[Key(f.lib, e.path) := r]
  {
    var s1 := if e.path in f.refs then s.(seen := s.seen + {f.refs[e.path].id}) else s;
    r := IngestEffect(f, s1, e);
  }

  /** Soft deletion touches no key, id or metadata. */
  lemma SoftDeletedRow(rows: Rows, ids: set<string>, k: Key)
    requires k in rows
    ensures SoftDeleted(rows, ids).Keys == rows.Keys
    ensures SoftDeleted(rows, ids)[k].id == rows[k].id && SoftDeleted(rows, ids)[k].fields == rows[k].fields
  {
  }

  /** The row a scan of this one file leaves, up to its deleted flag. */
  function RowScanned(lib: int, db: Db, e: Entry): Row
    requires e.File? && e.stat.Regular?
  {
    RowAfter(db.rows, Key(lib, e.path), IngestId(LiveRefs(db.rows, lib), e), Contents(e), e.stat.size, e.stat.mtime, Sig(e))
  }

  lemma SweptOne(f: Frame, s: Sweep, entries: seq<Entry>)
    requires |entries| == 1
    ensures Swept(f, s, entries) == Visited(f, s, entries[0])
  {
    assert entries[..0] == [];
    assert Swept(f, s, entries[..0]) == s;
  }

  lemma ScannedRow(lib: int, db: Db, entries: seq<Entry>, queued: bool, now: int, rows: Rows, k: Key)
    requires rows == Swept(FrameOf(lib, db, queued, now), Start(db), entries).rows && k in rows
    ensures var scanned := ScannedDb(lib, db, entries, queued, now, {}).rows;
      scanned.Keys == rows.Keys && scanned[k].id == rows[k].id && scanned[k].fields == rows[k].fields
  {
    var f := FrameOf(lib, db, queued, now);
    SoftDeletedRow(rows, Gone(f, Swept(f, Start(db), entries), {}), k);
  }

  /** A walk that meets one file and ingests it. */
  lemma SweptOneFile(lib: int, db: Db, entries: seq<Entry>, queued: bool, now: int)
    requires |entries| == 1 && NeedsIngest(LiveRefs(db.rows, lib), entries[0])
    requires !Refuses(db.libraries, db.rows, Key(lib, entries[0].path), IngestId(LiveRefs(db.rows, lib), entries[0]),
                      entries[0].faults.upsert)
    ensures Swept(FrameOf(lib, db, queued, now), Start(db), entries).rows
         == db.rows[Key(lib, entries[0].path) := RowScanned(lib, db, entries[0])]
  {
    SweptOne(FrameOf(lib, db, queued, now), Start(db), entries);
    var r := VisitWrites(FrameOf(lib, db, queued, now), Start(db), entries[0]);
  }

  /** The worker loads and writes in two statements. If a scan runs between
      them and fills a column that was empty, the write empties it again
      exactly if the candidate does not offer that column. */
  lemma UnlockedEnrichLosesColumn(lib: int, db: Db, e: Entry, queued: bool, now: int, c: Candidate, col: Column)
    requires Consistent(db) && NeedsIngest(LiveRefs(db.rows, lib), e) && !e.faults.upsert
    requires Key(lib, e.path) in db.rows
    requires Empty(At(db.rows[Key(lib, e.path)].fields, col)) && !Empty(At(FieldsOf(Contents(e)), col))
    ensures
      var k := Key(lib, e.path);
      var loaded := EbookRow(db.rows[k].id, db.rows[k].format, db.rows[k].fields);
      var scanned := ScannedDb(lib, db, [e], queued, now, {}).rows;
      var written := Rewritten(scanned, Matched(loaded, c));
      && k in scanned && !Empty(At(scanned[k].fields, col))
      && k in written && (Empty(At(written[k].fields, col)) <==> Empty(At(Offered(c), col)))
  {
    var k := Key(lib, e.path);
    SweptOneFile(lib, db, [e], queued, now);
    ScannedRow(lib, db, [e], queued, now, db.rows[k := RowScanned(lib, db, e)], k);
    ScanKeepsRows(lib, db, [e], queued, now, {}, k);
    FillGapsByColumn(db.rows[k].fields, FieldsOf(Contents(e)), col);
    MatchedByColumn(EbookRow(db.rows[k].id, db.rows[k].format, db.rows[k].fields), c, col);
  }

  /** In an empty catalog every file is new, and gets its signature as id. */
  lemma NewFile(lib: int, db: Db, e: Entry)
    requires lib in db.libraries && db.rows == map[]
    requires Delivered(e) && e.stat.Regular? && !e.faults.upsert
    ensures NeedsIngest(LiveRefs(db.rows, lib), e)
    ensures !Refuses(db.libraries, db.rows, Key(lib, e.path), IngestId(LiveRefs(db.rows, lib), e), e.faults.upsert)
    ensures RowScanned(lib, db, e).id == Sig(e)
  {
    assert LiveRefs(db.rows, lib) == map[] && Ids(db.rows) == {};
  }

  /** The id of a file is taken once a library holds it. */
  lemma TakenId(lib: int, db: Db, entries: seq<Entry>, queued: bool, now: int, rows: Rows)
    requires lib in db.libraries && db.rows == map[]
    requires |entries| == 1 && Delivered(entries[0]) && entries[0].stat.Regular? && !entries[0].faults.upsert
    requires rows == ScannedDb(lib, db, entries, queued, now, {}).rows
    ensures rows.Keys == {Key(lib, entries[0].path)} && Sig(entries[0]) in Ids(rows)
  {
    var k, r := Key(lib, entries[0].path), RowScanned(lib, db, entries[0]);
    NewFile(lib, db, entries[0]);
    SweptOneFile(lib, db, entries, queued, now);
    ScannedRow(lib, db, entries, queued, now, db.rows[k := r], k);
    assert rows[k].id == r.id;
  }

  lemma OtherIsRefused(second: int, one: Db, entries: seq<Entry>, queued: bool, now: int, k: Key)
    requires Consistent(one) && one.rows.Keys == {k} && k.lib != second
    requires |entries| == 1 && CleanWalk(entries) && Delivered(entries[0]) && entries[0].stat.Regular?
    requires Sig(entries[0]) in Ids(one.rows)
    ensures k in ScannedDb(second, one, entries, queued, now, {}).rows
    ensures Key(second, entries[0].path) !in ScannedDb(second, one, entries, queued, now, {}).rows
  {
    assert entries[0] in entries;
    ScanKeepsRows(second, one, entries, queued, now, {}, k);
    ClashDiverges(second, one, entries, queued, now, entries[0]);
  }

  /** The only file has a row in the first library, and none in the second. */
  predicate Diverged(first: int, second: int, rows: Rows, entries: seq<Entry>) {
    |entries| == 1 && Key(first, entries[0].path) in rows && Key(second, entries[0].path) !in rows
    && !InSync(rows, second, entries)
  }

  /** Of two libraries that contain the same file, the second to be scanned
      never gets a row for it. */
  lemma SecondIsRefused(first: int, second: int, db: Db, entries: seq<Entry>, queued: bool, now: int, one: Db)
    requires Consistent(db) && first in db.libraries && first != second && db.rows == map[]
    requires |entries| == 1 && CleanWalk(entries) && Delivered(entries[0]) && entries[0].stat.Regular?
    requires one == ScannedDb(first, db, entries, queued, now, {})
    ensures Diverged(first, second, ScannedDb(second, one, entries, queued, now, {}).rows, entries)
  {
    assert entries[0] in entries;
    TakenId(first, db, entries, queued, now, one.rows);
    ScanKeepsConsistent(first, db, entries, queued, now, {});
    OtherIsRefused(second, one, entries, queued, now, Key(first, entries[0].path));
  }

  lemma TwoLibraries() returns (states: seq<Db>, ops: seq<Op>)
    ensures IsRun(states, ops) && ops == [AddLibrary(1), AddLibrary(2)] && states[0] == Db({}, map[], map[], map[])
    ensures states[2] == Db({1, 2}, map[], map[], map[])
  {
    ops := [AddLibrary(1), AddLibrary(2)];
    states := [Db({}, map[], map[], map[]), Db({1}, map[], map[], map[]), Db({1, 2}, map[], map[], map[])];
    assert {} + {1} == {1} && {1} + {2} == {1, 2};
    assert Linked(states, ops, 0) && Linked(states, ops, 1);
  }

  lemma RunOn(states: seq<Db>, ops: seq<Op>, op: Op) returns (states': seq<Db>, ops': seq<Op>)
    requires IsRun(states, ops) && Possible(states[|ops|], op)
    ensures IsRun(states', ops') && ops' == ops + [op] && states' == states + [Do(states[|ops|], op)]
  {
    states', ops' := states + [Do(states[|ops|], op)], ops + [op];
    forall i: nat | i < |ops'| ensures Linked(states', ops', i) {
      if i < |ops| {
        assert Linked(states, ops, i);
      }
    }
  }

  lemma RunTwo(states0: seq<Db>, ops0: seq<Op>, p: Op, q: Op) returns (states: seq<Db>, ops: seq<Op>)
    requires IsRun(states0, ops0) && !p.QueueStep? && !q.QueueStep?
    ensures IsRun(states, ops) && states[0] == states0[0] && ops == ops0 + [p] + [q]
    ensures states[|ops|] == Do(Do(states0[|ops0|], p), q)
  {
    states, ops := RunOn(states0, ops0, p);
    states, ops := RunOn(states, ops, q);
  }

  lemma DivergingRun(states0: seq<Db>, ops0: seq<Op>, entries: seq<Entry>, queued: bool, now: int)
    returns (states: seq<Db>, ops: seq<Op>)
    requires IsRun(states0, ops0) && states0[|ops0|].rows == map[] && 1 in states0[|ops0|].libraries
    requires |entries| == 1 && CleanWalk(entries) && Delivered(entries[0]) && entries[0].stat.Regular?
    ensures IsRun(states, ops) && states[0] == states0[0]
    ensures ops == ops0 + [Scan(1, entries, queued, now, {})] + [Scan(2, entries, queued, now, {})]
    ensures Diverged(1, 2, states[|ops|].rows, entries)
  {
    var db, first, second := states0[|ops0|], Scan(1, entries, queued, now, {}), Scan(2, entries, queued, now, {});
    AlwaysConsistent(states0, ops0, |ops0|);
    SecondIsRefused(1, 2, db, entries, queued, now, Do(db, first));
    states, ops := RunTwo(states0, ops0, first, second);
  }

  /** Convergence does fail in reachable states: two libraries with overlapping
      roots, scanned one after the other. */
  lemma OverlappingRootsDiverge(e: Entry, queued: bool, now: int) returns (states: seq<Db>, ops: seq<Op>)
    requires Delivered(e) && e.stat.Regular? && !e.faults.upsert
    ensures IsRun(states, ops) && states[0] == Db({}, map[], map[], map[]) && CleanWalk([e])
    ensures ops == [AddLibrary(1), AddLibrary(2), Scan(1, [e], queued, now, {}), Scan(2, [e], queued, now, {})]
    ensures Diverged(1, 2, states[4].rows, [e])
  {
    states, ops := TwoLibraries();
    states, ops := DivergingRun(states, ops, [e], queued, now);
  }
}
