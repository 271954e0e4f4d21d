/** What a scan leaves for every file it ingests - row, cover and enrichment job
    - and that it leaves all other covers and jobs alone. */
module ScanAttachments {
  import opened Collections
  import opened Ebooks
  import opened Catalog
  import opened Scanner
  import opened ScanTheorems
  import opened ScanOutcome
  import JobQueue

  predicate Same<V(==)>(a: map<string, V>, b: map<string, V>, id: string) {
    (id in a <==> id in b) && (id in a && id in b ==> a[id] == b[id])
  }

  // ---- what one file should leave ------------------------------------------------------

  /** Row r for file e, over the rows at the start of the walk. Without a parse
      result only the format is known, from the name. */
  predicate RowLeft(rows0: Rows, k: Key, e: Entry, r: Row)
    requires e.File? && e.stat.Regular?
  {
    var before := if k in rows0 then rows0[k].fields else BLANK;
    && !r.deleted && r.size == e.stat.size && r.mtime == e.stat.mtime
    && r.sig == Fingerprint(e.path, e.stat.size, e.stat.mtime)
    && r.id == (if k in rows0 then rows0[k].id else r.sig)
    && (e.parsed.Some? ==> r.format == e.parsed.value.format && GapsFilled(before, e.parsed.value, r.fields))
    && (e.parsed.None? ==> r.format == BareFormat(e.path) && r.fields == before)
  }

  /** The embedded cover if it has bytes, else the sidecar, else no change. */
  predicate CoverLeft(covers0: map<string, Cover>, covers: map<string, Cover>, id: string, e: Entry)
    requires e.File?
  {
    var embedded := e.parsed.Some? && e.parsed.value.cover.Some? && |e.parsed.value.cover.value.bytes| > 0;
    if e.faults.cover || (!embedded && e.sidecar.None?) then Same(covers0, covers, id)
    else
      && id in covers
      && if embedded
         then covers[id] == Cover(e.parsed.value.cover.value.contentType, e.parsed.value.cover.value.bytes, "embedded")
         else covers[id] == Cover(e.sidecar.value.contentType, e.sidecar.value.bytes, "sidecar")
  }

  /** A fresh pending job, if the scan has a queue. */
  predicate JobLeft(jobs0: JobQueue.Table, jobs: JobQueue.Table, id: string, e: Entry, queued: bool, now: int)
    requires e.File?
  {
    if queued && !e.faults.enqueue
    then id in jobs && jobs[id] == JobQueue.Row(JobQueue.Pending, 0, now, "", None)
    else Same(jobs0, jobs, id)
  }

  /** The files a walk ingests, as they can be told before it: new or changed,
      with no failing statement and no id that another row holds. */
  predicate Taken(f: Frame, rows0: Rows, e: Entry) {
    && NeedsIngest(f.refs, e) && f.lib in f.libraries && !e.faults.upsert
    && (Key(f.lib, e.path) in rows0 || Sig(e) !in Ids(rows0))
  }

  /** A tree delivers every path once. */
  predicate OnePathEach(entries: seq<Entry>) {
    forall i, j | 0 <= i < j < |entries| && Delivered(entries[i]) && Delivered(entries[j]) :: entries[i].path != entries[j].path
  }

  // ---- one visit --------------------------------------------------------------------------

  lemma AttachmentsLeft(f: Frame, s: Sweep, e: Entry, id: string)
    requires e.File?
    ensures CoverLeft(s.covers, CoversAfter(s.covers, id, e), id, e)
    ensures JobLeft(s.jobs, JobsAfter(f, s.jobs, id, e), id, e, f.queued, f.now)
    ensures forall x | x != id :: Same(s.covers, CoversAfter(s.covers, id, e), x) && Same(s.jobs, JobsAfter(f, s.jobs, id, e), x)
  {
  }

  lemma ContentsLeft(rows: Rows, k: Key, id: string, e: Entry)
    requires e.File? && e.stat.Regular? && k.path == e.path && (k !in rows ==> id == Sig(e))
    ensures RowLeft(rows, k, e, RowAfter(rows, k, id, Contents(e), e.stat.size, e.stat.mtime, Sig(e)))
  {
    var before := if k in rows then rows[k].fields else BLANK;
    FillGapsFills(before, Contents(e));
    FillGapsLaws(before, BLANK, BLANK);
  }

  /** A visit writes one row with its cover and job, or nothing at all. */
  lemma VisitLeaves(f: Frame, s: Sweep, e: Entry)
    requires RefsIn(f, s.rows)
    ensures var t, k := Visited(f, s, e), Key(f.lib, e.path);
      if NeedsIngest(f.refs, e) && !Refuses(f.libraries, s.rows, k, IngestId(f.refs, e), e.faults.upsert) then
        && k in t.rows && t.rows == s.rows[k := t.rows[k]] && RowLeft(s.rows, k, e, t.rows[k])
        && CoverLeft(s.covers, t.covers, t.rows[k].id, e)
        && JobLeft(s.jobs, t.jobs, t.rows[k].id, e, f.queued, f.now)
        && forall x | x != t.rows[k].id :: Same(s.covers, t.covers, x) && Same(s.jobs, t.jobs, x)
      else
        t.rows == s.rows && t.covers == s.covers && t.jobs == s.jobs
  {
    var k := Key(f.lib, e.path);
    if NeedsIngest(f.refs, e) && !Refuses(f.libraries, s.rows, k, IngestId(f.refs, e), e.faults.upsert) {
      var s1 := if e.path in f.refs then s.(seen := s.seen + {f.refs[e.path].id}) else s;
      var r := IngestEffect(f, s1, e);
      AttachmentsLeft(f, s1, e, r.id);
      ContentsLeft(s.rows, k, IngestId(f.refs, e), e);
    }
  }

  /** Refusal can be told from the rows at the start, for a path not met before. */
  lemma RefusedFromStart(f: Frame, rows0: Rows, rows: Rows, e: Entry)
    requires RowsInv(f, rows0, rows) && NeedsIngest(f.refs, e)
    requires Key(f.lib, e.path) in rows ==> Key(f.lib, e.path) in rows0
    ensures !Refuses(f.libraries, rows, Key(f.lib, e.path), IngestId(f.refs, e), e.faults.upsert) <==> Taken(f, rows0, e)
  {
    var k := Key(f.lib, e.path);
    SubIds(rows0, rows);
    assert e.path in f.refs ==> k in rows;
    assert forall o | o in rows0 :: rows0[o].id in Ids(rows0);
    forall o | o in rows && rows[o].id == Sig(e) && k !in rows0 && Sig(e) !in Ids(rows0) ensures o == k {
      var size, mtime :| rows[o].id == Fingerprint(o.path, size, mtime);
      FingerprintInjective(o.path, size, mtime, e.path, e.stat.size, e.stat.mtime);
    }
  }

  // ---- the walk -----------------------------------------------------------------------------

  /** Everything file e should have left is there. */
  predicate Left(f: Frame, s0: Sweep, s: Sweep, e: Entry) {
    Taken(f, s0.rows, e) ==>
      var k := Key(f.lib, e.path);
      && k in s.rows && RowLeft(s0.rows, k, e, s.rows[k])
      && CoverLeft(s0.covers, s.covers, s.rows[k].id, e)
      && JobLeft(s0.jobs, s.jobs, s.rows[k].id, e, f.queued, f.now)
  }

  /** Some file among done was ingested under this id. */
  predicate IngestedAs(f: Frame, rows0: Rows, rows: Rows, done: seq<Entry>, id: string) {
    exists e | e in done ::
      Taken(f, rows0, e) && Key(f.lib, e.path) in rows && rows[Key(f.lib, e.path)].id == id
  }

  /** New rows are of these paths; rows of other paths are as they were. */
  predicate KeysFrom(rows0: Rows, rows: Rows, paths: set<string>) {
    && (forall k | k in rows && k !in rows0 :: k.path in paths)
    && (forall k | k in rows0 && k.path !in paths :: k in rows && rows[k] == rows0[k])
  }

  lemma KeysGrow(rows0: Rows, rows: Rows, rows': Rows, paths: set<string>, k: Key)
    requires KeysFrom(rows0, rows, paths) && k in rows' && rows' == rows[k := rows'[k]]
    ensures KeysFrom(rows0, rows', paths + {k.path})
  {
  }

  ghost predicate WalkInv(f: Frame, s0: Sweep, s: Sweep, done: seq<Entry>) {
    && RowsInv(f, s0.rows, s.rows)
    && KeysFrom(s0.rows, s.rows, PathsOf(done))
    && (forall e {:trigger Left(f, s0, s, e)} | e in done :: Left(f, s0, s, e))
    && (forall id {:trigger IngestedAs(f, s0.rows, s.rows, done, id)} | !IngestedAs(f, s0.rows, s.rows, done, id) ::
          Same(s0.covers, s.covers, id) && Same(s0.jobs, s.jobs, id))
  }

  /** Another file's id is not affected by the write at k. */
  lemma OtherFile(f: Frame, s0: Sweep, s: Sweep, t: Sweep, x: Entry, k: Key)
    requires Left(f, s0, s, x) && UniqueIds(t.rows) && k in t.rows && t.rows == s.rows[k := t.rows[k]]
    requires Key(f.lib, x.path) != k
    requires forall id | id != t.rows[k].id :: Same(s.covers, t.covers, id) && Same(s.jobs, t.jobs, id)
    ensures Left(f, s0, t, x)
  {
    if Taken(f, s0.rows, x) {
      var kx := Key(f.lib, x.path);
      assert t.rows[kx] == s.rows[kx] && t.rows[kx].id != t.rows[k].id;
      assert Same(s.covers, t.covers, s.rows[kx].id) && Same(s.jobs, t.jobs, s.rows[kx].id);
    }
  }

  /** The id a new write uses was not used before it, nor does the write hide an
      earlier use. */
  lemma UsesGrow(f: Frame, rows0: Rows, rows: Rows, rows': Rows, done: seq<Entry>, e: Entry, k: Key, id: string)
    requires UniqueIds(rows') && k in rows' && rows' == rows[k := rows'[k]] && k.path !in PathsOf(done)
    ensures IngestedAs(f, rows0, rows, done, id) ==> IngestedAs(f, rows0, rows', done + [e], id) && id != rows'[k].id
  {
    if IngestedAs(f, rows0, rows, done, id) {
      var x :| x in done && Taken(f, rows0, x) && Key(f.lib, x.path) in rows && rows[Key(f.lib, x.path)].id == id;
      assert x.path in PathsOf(done) && x in done + [e];
      assert rows'[Key(f.lib, x.path)] == rows[Key(f.lib, x.path)];
    }
  }

  lemma UsesStay(f: Frame, rows0: Rows, rows: Rows, done: seq<Entry>, e: Entry, id: string)
    ensures IngestedAs(f, rows0, rows, done, id) ==> IngestedAs(f, rows0, rows, done + [e], id)
  {
    if IngestedAs(f, rows0, rows, done, id) {
      var x :| x in done && Taken(f, rows0, x) && Key(f.lib, x.path) in rows && rows[Key(f.lib, x.path)].id == id;
      assert x in done + [e];
    }
  }

  /** From s to t the row, cover and job of e at k were written, and no others. */
  ghost predicate Wrote(f: Frame, s: Sweep, t: Sweep, e: Entry, k: Key)
    requires e.File? && e.stat.Regular?
  {
    && k in t.rows && t.rows == s.rows[k := t.rows[k]] && UniqueIds(t.rows) && RowLeft(s.rows, k, e, t.rows[k])
    && CoverLeft(s.covers, t.covers, t.rows[k].id, e) && JobLeft(s.jobs, t.jobs, t.rows[k].id, e, f.queued, f.now)
    && forall x | x != t.rows[k].id :: Same(s.covers, t.covers, x) && Same(s.jobs, t.jobs, x)
  }

  /** The file just ingested. */
  lemma ThisFile(f: Frame, s0: Sweep, s: Sweep, t: Sweep, done: seq<Entry>, e: Entry)
    requires WalkInv(f, s0, s, done) && Delivered(e) && e.stat.Regular? && e.path !in PathsOf(done)
    requires Wrote(f, s, t, e, Key(f.lib, e.path))
    ensures Left(f, s0, t, e)
  {
    var k := Key(f.lib, e.path);
    UsesGrow(f, s0.rows, s.rows, t.rows, done, e, k, t.rows[k].id);
    assert !IngestedAs(f, s0.rows, s.rows, done, t.rows[k].id);
    assert k in s.rows <==> k in s0.rows;
    assert k in s.rows ==> s.rows[k] == s0.rows[k];
  }

  lemma WrittenLeft(f: Frame, s0: Sweep, s: Sweep, t: Sweep, done: seq<Entry>, e: Entry, x: Entry)
    requires WalkInv(f, s0, s, done) && Delivered(e) && e.stat.Regular? && e.path !in PathsOf(done)
    requires Wrote(f, s, t, e, Key(f.lib, e.path)) && x in done + [e]
    ensures Left(f, s0, t, x)
  {
    if x in done {
      assert Left(f, s0, s, x);
      if Taken(f, s0.rows, x) {
        assert x.path in PathsOf(done);
        OtherFile(f, s0, s, t, x, Key(f.lib, e.path));
      }
    } else {
      ThisFile(f, s0, s, t, done, e);
    }
  }

  lemma WrittenRest(f: Frame, s0: Sweep, s: Sweep, t: Sweep, done: seq<Entry>, e: Entry, id: string)
    requires WalkInv(f, s0, s, done) && Delivered(e) && e.stat.Regular? && e.path !in PathsOf(done)
    requires Wrote(f, s, t, e, Key(f.lib, e.path)) && Taken(f, s0.rows, e)
    requires !IngestedAs(f, s0.rows, t.rows, done + [e], id)
    ensures Same(s0.covers, t.covers, id) && Same(s0.jobs, t.jobs, id)
  {
    var k := Key(f.lib, e.path);
    UsesGrow(f, s0.rows, s.rows, t.rows, done, e, k, id);
    assert e in done + [e];
    assert id != t.rows[k].id;
    assert Same(s.covers, t.covers, id) && Same(s.jobs, t.jobs, id);
    assert !IngestedAs(f, s0.rows, s.rows, done, id);
  }

  lemma WrittenStep(f: Frame, s0: Sweep, s: Sweep, t: Sweep, done: seq<Entry>, e: Entry)
    requires WalkInv(f, s0, s, done) && Delivered(e) && e.stat.Regular? && e.path !in PathsOf(done)
    requires RowsInv(f, s0.rows, t.rows) && Taken(f, s0.rows, e) && Wrote(f, s, t, e, Key(f.lib, e.path))
    ensures WalkInv(f, s0, t, done + [e])
  {
    DonePaths(done, e);
    KeysGrow(s0.rows, s.rows, t.rows, PathsOf(done), Key(f.lib, e.path));
    forall x | x in done + [e] ensures Left(f, s0, t, x) {
      WrittenLeft(f, s0, s, t, done, e, x);
    }
    forall id | !IngestedAs(f, s0.rows, t.rows, done + [e], id) ensures Same(s0.covers, t.covers, id) && Same(s0.jobs, t.jobs, id) {
      WrittenRest(f, s0, s, t, done, e, id);
    }
  }

  lemma IdleStep(f: Frame, s0: Sweep, s: Sweep, t: Sweep, done: seq<Entry>, e: Entry)
    requires WalkInv(f, s0, s, done) && !Taken(f, s0.rows, e)
    requires t.rows == s.rows && t.covers == s.covers && t.jobs == s.jobs
    ensures WalkInv(f, s0, t, done + [e])
  {
    DonePaths(done, e);
    forall x | x in done + [e] ensures Left(f, s0, t, x) {
      if x in done {
        assert Left(f, s0, s, x);
      }
    }
    forall id | !IngestedAs(f, s0.rows, t.rows, done + [e], id) ensures Same(s0.covers, t.covers, id) && Same(s0.jobs, t.jobs, id) {
      UsesStay(f, s0.rows, s.rows, done, e, id);
      assert !IngestedAs(f, s0.rows, s.rows, done, id);
    }
  }

  lemma WalkStep(f: Frame, s0: Sweep, s: Sweep, done: seq<Entry>, e: Entry)
    requires WalkInv(f, s0, s, done) && (Delivered(e) ==> e.path !in PathsOf(done))
    ensures WalkInv(f, s0, Visited(f, s, e), done + [e])
  {
    var t, k := Visited(f, s, e), Key(f.lib, e.path);
    VisitLeaves(f, s, e);
    VisitRows(f, s0.rows, s, e);
    if NeedsIngest(f.refs, e) {
      RefusedFromStart(f, s0.rows, s.rows, e);
    }
    if Taken(f, s0.rows, e) {
      WrittenStep(f, s0, s, t, done, e);
    } else {
      IdleStep(f, s0, s, t, done, e);
    }
  }

  lemma {:induction false} WalkKeeps(f: Frame, s0: Sweep, entries: seq<Entry>)
    requires RowsInv(f, s0.rows, s0.rows) && OnePathEach(entries)
    ensures WalkInv(f, s0, Swept(f, s0, entries), entries)
  {
    if entries != [] {
      var n := |entries| - 1;
      var done, e := entries[..n], entries[n];
      assert entries == done + [e];
      WalkKeeps(f, s0, done);
      assert Delivered(e) ==> e.path !in PathsOf(done);
      WalkStep(f, s0, Swept(f, s0, done), done, e);
    }
  }

  // ---- theorem --------------------------------------------------------------------------------

  /** What the scan left for file e. */
  predicate Delivers(lib: int, db: Db, after: Db, e: Entry, queued: bool, now: int)
    requires e.File? && e.stat.Regular?
  {
    var k := Key(lib, e.path);
    && k in after.rows && RowLeft(db.rows, k, e, after.rows[k])
    && CoverLeft(db.covers, after.covers, after.rows[k].id, e)
    && JobLeft(db.jobs, after.jobs, after.rows[k].id, e, queued, now)
  }

  /** For every file that a scan ingests, its row has the contents of the file,
      its cover is the embedded one or the sidecar, and its enrichment is armed;
      a cover or job of any other ebook is as it was. Other entries may fail in
      any way. */
  lemma ScanDelivers(lib: int, db: Db, entries: seq<Entry>, queued: bool, now: int, stuck: set<string>)
    requires Consistent(db) && OnePathEach(entries)
    ensures var f, after := FrameOf(lib, db, queued, now), ScannedDb(lib, db, entries, queued, now, stuck);
      && (forall e | e in entries && Taken(f, db.rows, e) :: Delivers(lib, db, after, e, queued, now))
      && (forall id | !IngestedAs(f, db.rows, after.rows, entries, id) ::
            Same(db.covers, after.covers, id) && Same(db.jobs, after.jobs, id))
  {
    var f, after := FrameOf(lib, db, queued, now), ScannedDb(lib, db, entries, queued, now, stuck);
    var s := Swept(f, Start(db), entries);
    StartRows(lib, db, queued, now);
    WalkKeeps(f, Start(db), entries);
    SweptInvariants(lib, db, entries, queued, now);
    var gone := Gone(f, s, stuck);
    forall e | e in entries && Taken(f, db.rows, e) ensures Delivers(lib, db, after, e, queued, now) {
      StillDelivered(f, db, s, entries, stuck, e);
    }
    forall id | !IngestedAs(f, db.rows, after.rows, entries, id)
      ensures Same(db.covers, after.covers, id) && Same(db.jobs, after.jobs, id)
    {
      StillSame(f, Start(db), s, entries, gone, id);
    }
  }

  /** The reconcile step deletes no row of a delivered file. */
  lemma StillDelivered(f: Frame, db: Db, s: Sweep, entries: seq<Entry>, stuck: set<string>, e: Entry)
    requires WalkInv(f, Start(db), s, entries) && SeenInv(f, s, PathsOf(entries), Blind(entries))
    requires e in entries && Taken(f, db.rows, e)
    ensures Delivers(f.lib, db, Db(db.libraries, SoftDeleted(s.rows, Gone(f, s, stuck)), s.covers, s.jobs), e, f.queued, f.now)
  {
    assert Left(f, Start(db), s, e);
    assert e.path in PathsOf(entries);
    GoneAreRefs(f, s, PathsOf(entries), Blind(entries), stuck, db.rows, Key(f.lib, e.path));
  }

  lemma StillSame(f: Frame, s0: Sweep, s: Sweep, entries: seq<Entry>, gone: set<string>, id: string)
    requires WalkInv(f, s0, s, entries) && !IngestedAs(f, s0.rows, SoftDeleted(s.rows, gone), entries, id)
    ensures Same(s0.covers, s.covers, id) && Same(s0.jobs, s.jobs, id)
  {
    SameUses(f, s0.rows, s.rows, SoftDeleted(s.rows, gone), entries, id);
    assert !IngestedAs(f, s0.rows, s.rows, entries, id);
  }

  lemma SameUses(f: Frame, rows0: Rows, rows: Rows, rows': Rows, done: seq<Entry>, id: string)
    requires rows.Keys == rows'.Keys && forall k | k in rows :: rows'[k].id == rows[k].id
    ensures IngestedAs(f, rows0, rows, done, id) ==> IngestedAs(f, rows0, rows', done, id)
  {
    if IngestedAs(f, rows0, rows, done, id) {
      var x :| x in done && Taken(f, rows0, x) && Key(f.lib, x.path) in rows && rows[Key(f.lib, x.path)].id == id;
      assert Key(f.lib, x.path) in rows' && rows'[Key(f.lib, x.path)].id == id;
    }
  }
}
