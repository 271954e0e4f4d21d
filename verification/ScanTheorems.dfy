/** What a scan guarantees, whatever entries and faults it meets, and what it
    achieves when the walk goes well. */
module ScanTheorems {
  import opened Collections
  import opened Ebooks
  import opened Catalog
  import opened Scanner

  // ---- rows during a walk --------------------------------------------------------

  /** From a to b rows only appear, keep their id and their filled columns, and
      come back to life; other libraries are untouched. */
  ghost predicate Grown(lib: int, a: Rows, b: Rows) {
    && (forall k | k in a ::
          && k in b && b[k].id == a[k].id && Untouched(a[k].fields, b[k].fields)
          && (k.lib != lib ==> b[k] == a[k])
          && (!a[k].deleted ==> !b[k].deleted))
    && (forall k | k in b && k !in a :: k.lib == lib && !b[k].deleted)
  }

  ghost predicate RefsIn(f: Frame, rows: Rows) {
    forall p | p in f.refs :: Key(f.lib, p) in rows && rows[Key(f.lib, p)].id == f.refs[p].id
  }

  ghost predicate RowsInv(f: Frame, rows0: Rows, rows: Rows) {
    && Grown(f.lib, rows0, rows) && UniqueIds(rows) && Minted(rows) && RefsIn(f, rows)
    && forall k | k in rows :: k.lib in f.libraries
  }

  /** Writing one live row: over an older one it keeps id and filled columns,
      at a new key it brings a new, minted id. */
  ghost predicate Writable(rows: Rows, k: Key, r: Row) {
    && !r.deleted
    && (k in rows ==> r.id == rows[k].id && Untouched(rows[k].fields, r.fields))
    && (k !in rows ==> r.id !in Ids(rows) && exists size, mtime :: r.id == Fingerprint(k.path, size, mtime))
  }

  lemma WriteKeepsUnique(rows: Rows, k: Key, r: Row)
    requires UniqueIds(rows) && if k in rows then r.id == rows[k].id else r.id !in Ids(rows)
    ensures UniqueIds(rows[k := r])
  {
    var t := rows[k := r];
    assert forall i | i in rows :: rows[i].id in Ids(rows) && t[i].id == if i == k then r.id else rows[i].id;
  }

  lemma WriteKeepsIds(rows: Rows, k: Key, r: Row)
    requires UniqueIds(rows) && Minted(rows) && Writable(rows, k, r)
    ensures UniqueIds(rows[k := r]) && Minted(rows[k := r])
  {
    WriteKeepsUnique(rows, k, r);
    var t := rows[k := r];
    forall j | j in t ensures exists size, mtime :: t[j].id == Fingerprint(j.path, size, mtime) {
      if j in rows {
        var size, mtime :| rows[j].id == Fingerprint(j.path, size, mtime);
        assert t[j].id == Fingerprint(j.path, size, mtime);
      }
    }
  }

  lemma WriteGrows(f: Frame, rows: Rows, k: Key, r: Row)
    requires RowsInv(f, rows, rows) && Writable(rows, k, r) && k.lib == f.lib && f.lib in f.libraries
    ensures RowsInv(f, rows, rows[k := r])
  {
    WriteKeepsIds(rows, k, r);
    assert Grown(f.lib, rows, rows[k := r]);
  }

  lemma UpsertWritable(f: Frame, rows: Rows, e: Entry)
    requires e.File? && e.stat.Regular? && RefsIn(f, rows)
    requires !Refuses(f.libraries, rows, Key(f.lib, e.path), IngestId(f.refs, e), e.faults.upsert)
    ensures var k := Key(f.lib, e.path);
      Writable(rows, k, RowAfter(rows, k, IngestId(f.refs, e), Contents(e), e.stat.size, e.stat.mtime, Sig(e)))
  {
    var k := Key(f.lib, e.path);
    if k in rows {
      FillGapsLaws(rows[k].fields, FieldsOf(Contents(e)), BLANK);
    } else {
      assert IngestId(f.refs, e) == Fingerprint(k.path, e.stat.size, e.stat.mtime);
    }
  }

  lemma GrownChain(lib: int, a: Rows, b: Rows, c: Rows)
    requires Grown(lib, a, b) && Grown(lib, b, c)
    ensures Grown(lib, a, c)
  {
    forall k | k in a ensures Untouched(a[k].fields, c[k].fields) {
      forall col: Column | !Empty(At(a[k].fields, col)) ensures At(c[k].fields, col) == At(a[k].fields, col) {
        assert At(b[k].fields, col) == At(a[k].fields, col);
      }
    }
  }

  function RowsWith(rows: Rows, k: Key, write: Option<Row>): Rows {
    if write.Some? then rows[k := write.value] else rows
  }

  function SeenWith(f: Frame, seen: set<string>, e: Entry, write: Option<Row>): set<string> {
    seen + (if Delivered(e) && e.path in f.refs then {f.refs[e.path].id} else {})
         + (if write.Some? then {write.value.id} else {})
  }

  ghost predicate WriteFits(f: Frame, rows: Rows, e: Entry, r: Row) {
    && Delivered(e) && e.stat.Regular? && f.lib in f.libraries
    && Writable(rows, Key(f.lib, e.path), r)
    && r.sig == Sig(e) && r.size == e.stat.size && r.mtime == e.stat.mtime
  }

  /** What an accepted ingest does, in terms of the one row it writes. */
  lemma IngestEffect(f: Frame, s: Sweep, e: Entry) returns (r: Row)
    requires NeedsIngest(f.refs, e)
    requires !Refuses(f.libraries, s.rows, Key(f.lib, e.path), IngestId(f.refs, e), e.faults.upsert)
    ensures r == RowAfter(s.rows, Key(f.lib, e.path), IngestId(f.refs, e), Contents(e), e.stat.size, e.stat.mtime, Sig(e))
    ensures Ingested(f, s, e).rows == s.rows[Key(f.lib, e.path) := r]
    ensures Ingested(f, s, e).seen == s.seen + {r.id} && Ingested(f, s, e).blind == s.blind
  {
    r := RowAfter(s.rows, Key(f.lib, e.path), IngestId(f.refs, e), Contents(e), e.stat.size, e.stat.mtime, Sig(e));
  }

  /** The one row a visit writes, if any: exactly when the file needs ingesting
      and the upsert is not refused. */
  lemma VisitEffect(f: Frame, s: Sweep, e: Entry) returns (write: Option<Row>)
    requires RefsIn(f, s.rows)
    ensures var t := Visited(f, s, e);
      && t.rows == RowsWith(s.rows, Key(f.lib, e.path), write)
      && t.seen == SeenWith(f, s.seen, e, write)
      && t.blind == (s.blind || e.Unreadable?)
    ensures write.Some? ==> WriteFits(f, s.rows, e, write.value)
    ensures write.Some? == (NeedsIngest(f.refs, e)
              && !Refuses(f.libraries, s.rows, Key(f.lib, e.path), IngestId(f.refs, e), e.faults.upsert))
  {
    write := None;
    if NeedsIngest(f.refs, e) {
      var k := Key(f.lib, e.path);
      if !Refuses(f.libraries, s.rows, k, IngestId(f.refs, e), e.faults.upsert) {
        UpsertWritable(f, s.rows, e);
        var s1 := if e.path in f.refs then s.(seen := s.seen + {f.refs[e.path].id}) else s;
        var r := IngestEffect(f, s1, e);
        write := Some(r);
      }
    }
  }

  lemma VisitRows(f: Frame, rows0: Rows, s: Sweep, e: Entry)
    requires RowsInv(f, rows0, s.rows)
    ensures RowsInv(f, rows0, Visited(f, s, e).rows)
    ensures RowsInv(f, s.rows, Visited(f, s, e).rows)
  {
    GrownSelf(f, rows0, s.rows);
    var write := VisitEffect(f, s, e);
    if write.Some? {
      WriteGrows(f, s.rows, Key(f.lib, e.path), write.value);
      GrownChain(f.lib, rows0, s.rows, Visited(f, s, e).rows);
    }
  }

  lemma {:induction false} SweptRows(f: Frame, s: Sweep, entries: seq<Entry>)
    requires RowsInv(f, s.rows, s.rows)
    ensures RowsInv(f, s.rows, Swept(f, s, entries).rows)
  {
    if entries != [] {
      var n := |entries| - 1;
      SweptRows(f, s, entries[..n]);
      VisitRows(f, s.rows, Swept(f, s, entries[..n]), entries[n]);
    }
  }

  /** A consistent database gives the walk what it needs. */
  lemma StartRows(lib: int, db: Db, queued: bool, now: int)
    requires Consistent(db)
    ensures RowsInv(FrameOf(lib, db, queued, now), db.rows, db.rows)
  {
  }

  // ---- what has been seen -----------------------------------------------------------

  function PathsOf(entries: seq<Entry>): set<string> {
    set e | e in entries && Delivered(e) :: e.path
  }

  predicate Blind(entries: seq<Entry>) {
    exists e :: e in entries && e.Unreadable?
  }

  lemma PathsStep(entries: seq<Entry>, n: nat)
    requires n < |entries|
    ensures PathsOf(entries[..n + 1]) == PathsOf(entries[..n]) + if Delivered(entries[n]) then {entries[n].path} else {}
    ensures Blind(entries[..n + 1]) <==> Blind(entries[..n]) || entries[n].Unreadable?
  {
    assert entries[..n + 1] == entries[..n] + [entries[n]];
    assert entries[n] in entries[..n + 1];
  }

  /** Seen ids are those of rows whose files were delivered. */
  ghost predicate SeenOk(lib: int, rows: Rows, seen: set<string>, paths: set<string>) {
    && seen <= Ids(rows)
    && forall k | k in rows && rows[k].id in seen :: k.lib == lib && k.path in paths
  }

  ghost predicate SeenInv(f: Frame, s: Sweep, paths: set<string>, blind: bool) {
    && SeenOk(f.lib, s.rows, s.seen, paths)
    && (forall p | p in f.refs && p in paths :: f.refs[p].id in s.seen)
    && s.blind == blind
  }

  lemma SeeRow(f: Frame, rows: Rows, seen: set<string>, paths: set<string>, rows': Rows, k: Key)
    requires SeenOk(f.lib, rows, seen, paths) && RowsInv(f, rows, rows')
    requires k in rows' && k.lib == f.lib && k.path in paths
    ensures SeenOk(f.lib, rows', seen + {rows'[k].id}, paths)
  {
    forall id | id in seen ensures id in Ids(rows') {
      var j :| j in rows && rows[j].id == id;
      assert rows'[j].id == id;
    }
    forall j | j in rows' && rows'[j].id in seen + {rows'[k].id} ensures j.lib == f.lib && j.path in paths {
      if rows'[j].id in seen {
        var i :| i in rows && rows[i].id == rows'[j].id;
        assert rows'[i].id == rows'[j].id;
      }
    }
  }

  lemma WriteSeen(f: Frame, rows: Rows, seen: set<string>, paths: set<string>, e: Entry, write: Option<Row>)
    requires RowsInv(f, rows, rows) && SeenOk(f.lib, rows, seen, paths)
    requires Delivered(e) && (write.Some? ==> WriteFits(f, rows, e, write.value))
    ensures SeenOk(f.lib, RowsWith(rows, Key(f.lib, e.path), write), SeenWith(f, seen, e, write), paths + {e.path})
  {
    var k, paths' := Key(f.lib, e.path), paths + {e.path};
    var seen1 := SeenWith(f, seen, e, None);
    if e.path in f.refs {
      SeeRow(f, rows, seen, paths', rows, k);
    }
    if write.Some? {
      WriteGrows(f, rows, k, write.value);
      SeeRow(f, rows, seen1, paths', rows[k := write.value], k);
    }
  }

  lemma VisitSeen(f: Frame, s: Sweep, e: Entry, paths: set<string>, blind: bool)
    requires RowsInv(f, s.rows, s.rows) && SeenInv(f, s, paths, blind)
    ensures SeenInv(f, Visited(f, s, e), paths + if Delivered(e) then {e.path} else {}, blind || e.Unreadable?)
  {
    var write := VisitEffect(f, s, e);
    if Delivered(e) {
      WriteSeen(f, s.rows, s.seen, paths, e, write);
    }
  }

  lemma {:induction false} SweptSeen(f: Frame, s: Sweep, entries: seq<Entry>)
    requires RowsInv(f, s.rows, s.rows) && s.seen == {} && !s.blind
    ensures SeenInv(f, Swept(f, s, entries), PathsOf(entries), Blind(entries))
  {
    if entries != [] {
      var n := |entries| - 1;
      SweptSeen(f, s, entries[..n]);
      SweptRows(f, s, entries[..n]);
      var m := Swept(f, s, entries[..n]);
      GrownSelf(f, s.rows, m.rows);
      VisitSeen(f, m, entries[n], PathsOf(entries[..n]), Blind(entries[..n]));
      PathsStep(entries, n);
      assert entries[..n + 1] == entries;
    }
  }

  lemma GrownSelf(f: Frame, a: Rows, b: Rows)
    requires RowsInv(f, a, b)
    ensures RowsInv(f, b, b)
  {
  }

  // ---- theorem: deletions are exactly the files that went away ---------------------------

  lemma SweptInvariants(lib: int, db: Db, entries: seq<Entry>, queued: bool, now: int)
    requires Consistent(db)
    ensures var f := FrameOf(lib, db, queued, now);
      var s := Swept(f, Start(db), entries);
      RowsInv(f, db.rows, s.rows) && SeenInv(f, s, PathsOf(entries), Blind(entries))
  {
    var f := FrameOf(lib, db, queued, now);
    StartRows(lib, db, queued, now);
    SweptRows(f, Start(db), entries);
    SweptSeen(f, Start(db), entries);
  }

  predicate Live(rows: Rows, k: Key) {
    k in rows && !rows[k].deleted
  }

  lemma GoneAreRefs(f: Frame, s: Sweep, paths: set<string>, blind: bool, stuck: set<string>, rows0: Rows, k: Key)
    requires RowsInv(f, rows0, s.rows) && SeenInv(f, s, paths, blind) && k in s.rows
    ensures s.rows[k].id in Gone(f, s, stuck)
        <==> !blind && k.lib == f.lib && k.path in f.refs && k.path !in paths && s.rows[k].id !in stuck
  {
    if s.rows[k].id in Gone(f, s, stuck) {
      var p :| p in f.refs && f.refs[p].id == s.rows[k].id;
      assert s.rows[Key(f.lib, p)].id == s.rows[k].id;
    }
    if k.lib == f.lib && k.path in f.refs {
      assert k == Key(f.lib, k.path);
    }
  }

  /** No spurious deletes: a live row ends up deleted exactly when it belongs to
      the scanned library, every entry of the walk was readable, its path was
      not delivered as a supported file, and its own deletion did not fail.
      Stat, parse, upsert, cover and enqueue failures play no part. */
  lemma DeletedIffGone(lib: int, db: Db, entries: seq<Entry>, queued: bool, now: int, stuck: set<string>, k: Key)
    requires Consistent(db) && Live(db.rows, k)
    ensures var rows := ScannedDb(lib, db, entries, queued, now, stuck).rows;
      && k in rows
      && (rows[k].deleted <==> k.lib == lib && !Blind(entries) && k.path !in PathsOf(entries) && db.rows[k].id !in stuck)
  {
    var f := FrameOf(lib, db, queued, now);
    var s := Swept(f, Start(db), entries);
    SweptInvariants(lib, db, entries, queued, now);
    GoneAreRefs(f, s, PathsOf(entries), Blind(entries), stuck, db.rows, k);
    RefsAreLive(db.rows, k.lib, k.path);
  }

  lemma RefsAreLive(rows: Rows, lib: int, path: string)
    ensures path in LiveRefs(rows, lib) <==> Live(rows, Key(lib, path))
    ensures path in LiveRefs(rows, lib) ==> LiveRefs(rows, lib)[path] == Ref(rows[Key(lib, path)].id, path, rows[Key(lib, path)].sig)
  {
    if Live(rows, Key(lib, path)) {
      var k := Key(lib, path);
      assert k.path in LiveRefs(rows, lib);
    }
  }

  /** Every other row: kept as it was, or ingested, with its id and its filled
      columns; rows of other libraries are untouched. */
  lemma ScanKeepsRows(lib: int, db: Db, entries: seq<Entry>, queued: bool, now: int, stuck: set<string>, k: Key)
    requires Consistent(db) && k in db.rows
    ensures var rows := ScannedDb(lib, db, entries, queued, now, stuck).rows;
      && k in rows && rows[k].id == db.rows[k].id
      && Untouched(db.rows[k].fields, rows[k].fields)
      && (k.lib != lib ==> rows[k] == db.rows[k])
  {
    var f := FrameOf(lib, db, queued, now);
    var s := Swept(f, Start(db), entries);
    SweptInvariants(lib, db, entries, queued, now);
    GoneAreRefs(f, s, PathsOf(entries), Blind(entries), stuck, db.rows, k);
    assert s.rows[k].fields == ScannedDb(lib, db, entries, queued, now, stuck).rows[k].fields;
  }

  // ---- theorem: consistency is kept -------------------------------------------------------

  /** From s to t covers and jobs were only written for rows that have been seen. */
  predicate Attached(s: Sweep, t: Sweep) {
    s.seen <= t.seen && t.covers.Keys <= s.covers.Keys + t.seen && t.jobs.Keys <= s.jobs.Keys + t.seen
  }

  lemma RecordAttaches(f: Frame, s: Sweep, e: Entry, rows: Rows, id: string, wasKnown: bool)
    requires e.File?
    ensures Attached(s, Recorded(f, s, e, rows, id, wasKnown))
  {
  }

  lemma IngestAttaches(f: Frame, s: Sweep, e: Entry)
    requires e.File? && e.stat.Regular?
    ensures Attached(s, Ingested(f, s, e))
  {
    var k, id := Key(f.lib, e.path), IngestId(f.refs, e);
    if !Refuses(f.libraries, s.rows, k, id, e.faults.upsert) {
      var rows := Upserted(s.rows, k, id, Contents(e), e.stat.size, e.stat.mtime, Sig(e));
      RecordAttaches(f, s, e, rows, rows[k].id, k in s.rows);
    }
  }

  lemma VisitAttaches(f: Frame, s: Sweep, e: Entry)
    ensures Attached(s, Visited(f, s, e))
  {
    if NeedsIngest(f.refs, e) {
      IngestAttaches(f, if e.path in f.refs then s.(seen := s.seen + {f.refs[e.path].id}) else s, e);
    }
  }

  lemma {:induction false} SweptAttaches(f: Frame, s: Sweep, entries: seq<Entry>)
    ensures Attached(s, Swept(f, s, entries))
  {
    if entries != [] {
      var n := |entries| - 1;
      SweptAttaches(f, s, entries[..n]);
      VisitAttaches(f, Swept(f, s, entries[..n]), entries[n]);
    }
  }

  lemma WalkKeepsConsistent(lib: int, db: Db, entries: seq<Entry>, queued: bool, now: int)
    requires Consistent(db)
    ensures var s := Swept(FrameOf(lib, db, queued, now), Start(db), entries);
      Consistent(Db(db.libraries, s.rows, s.covers, s.jobs))
  {
    var f := FrameOf(lib, db, queued, now);
    SweptInvariants(lib, db, entries, queued, now);
    SweptAttaches(f, Start(db), entries);
    SubIds(db.rows, Swept(f, Start(db), entries).rows);
  }

  lemma SoftDeleteKeepsConsistent(db: Db, gone: set<string>)
    requires Consistent(db)
    ensures Consistent(db.(rows := SoftDeleted(db.rows, gone)))
  {
    SameIds(db.rows, SoftDeleted(db.rows, gone));
  }

  lemma ScanKeepsConsistent(lib: int, db: Db, entries: seq<Entry>, queued: bool, now: int, stuck: set<string>)
    requires Consistent(db)
    ensures Consistent(ScannedDb(lib, db, entries, queued, now, stuck))
  {
    var f := FrameOf(lib, db, queued, now);
    var s := Swept(f, Start(db), entries);
    WalkKeepsConsistent(lib, db, entries, queued, now);
    SoftDeleteKeepsConsistent(Db(db.libraries, s.rows, s.covers, s.jobs), Gone(f, s, stuck));
  }

  lemma SameIds(a: Rows, b: Rows)
    requires UniqueIds(a) && Minted(a)
    requires a.Keys == b.Keys && forall k | k in a :: b[k].id == a[k].id
    ensures UniqueIds(b) && Minted(b) && Ids(a) == Ids(b)
  {
    forall k | k in b ensures exists size, mtime :: b[k].id == Fingerprint(k.path, size, mtime) {
      var size, mtime :| a[k].id == Fingerprint(k.path, size, mtime);
    }
    SubIds(a, b);
    SubIds(b, a);
  }

  lemma SubIds(a: Rows, b: Rows)
    requires forall k | k in a :: k in b && b[k].id == a[k].id
    ensures Ids(a) <= Ids(b)
  {
    forall id | id in Ids(a) ensures id in Ids(b) {
      var k :| k in a && a[k].id == id;
      assert b[k].id == id;
    }
  }
}
