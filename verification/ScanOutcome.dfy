/** The numbers a scan reports, and what a scan without faults achieves. */
module ScanOutcome {
  import opened Collections
  import opened Catalog
  import opened Scanner
  import opened ScanTheorems

  // ---- theorem: the tally adds up ---------------------------------------------------

  function Needing(refs: map<string, Ref>, entries: seq<Entry>): nat {
    if entries == [] then 0
    else Needing(refs, entries[..|entries| - 1]) + if NeedsIngest(refs, entries[|entries| - 1]) then 1 else 0
  }

  lemma WriteCount(rows: Rows, k: Key, r: Row)
    ensures |rows[k := r]| == |rows| + if k in rows then 0 else 1
  {
    assert rows[k := r].Keys == rows.Keys + {k};
    assert |rows[k := r].Keys| == |rows.Keys| + if k in rows then 0 else 1;
  }

  lemma IngestTally(f: Frame, s: Sweep, e: Entry)
    requires NeedsIngest(f.refs, e)
    ensures var t, u := Ingested(f, s, e).tally, s.tally;
      && t.added + t.changed + t.failed == u.added + u.changed + u.failed + 1
      && t.added + |s.rows| == u.added + |Ingested(f, s, e).rows|
      && t.deleted == u.deleted
  {
    var k := Key(f.lib, e.path);
    if !Refuses(f.libraries, s.rows, k, IngestId(f.refs, e), e.faults.upsert) {
      var rows := Upserted(s.rows, k, IngestId(f.refs, e), Contents(e), e.stat.size, e.stat.mtime, Sig(e));
      WriteCount(s.rows, k, rows[k]);
      assert rows == s.rows[k := rows[k]];
      assert Ingested(f, s, e) == Recorded(f, s, e, rows, rows[k].id, k in s.rows);
    }
  }

  lemma VisitTally(f: Frame, s: Sweep, e: Entry)
    ensures var t, u := Visited(f, s, e).tally, s.tally;
      && t.added + t.changed + t.failed == u.added + u.changed + u.failed + (if NeedsIngest(f.refs, e) then 1 else 0)
      && t.added + |s.rows| == u.added + |Visited(f, s, e).rows|
      && t.deleted == u.deleted
  {
    if NeedsIngest(f.refs, e) {
      IngestTally(f, if e.path in f.refs then s.(seen := s.seen + {f.refs[e.path].id}) else s, e);
    }
  }

  /** Every delivered regular file that is new or differs counts exactly once,
      as added, changed or failed; added are exactly the new rows. */
  lemma {:induction false} SweptTally(f: Frame, s: Sweep, entries: seq<Entry>)
    ensures var t := Swept(f, s, entries);
      && t.tally.added + t.tally.changed + t.tally.failed
           == s.tally.added + s.tally.changed + s.tally.failed + Needing(f.refs, entries)
      && t.tally.added + |s.rows| == s.tally.added + |t.rows|
      && t.tally.deleted == s.tally.deleted
  {
    if entries != [] {
      var n := |entries| - 1;
      SweptTally(f, s, entries[..n]);
      VisitTally(f, Swept(f, s, entries[..n]), entries[n]);
    }
  }

  function LiveKeys(rows: Rows, lib: int): set<Key> {
    set k | k in rows && k.lib == lib && !rows[k].deleted
  }

  lemma {:induction false} IdsOfKeys(rows: Rows, keys: set<Key>)
    requires UniqueIds(rows) && keys <= rows.Keys
    ensures |set k | k in keys :: rows[k].id| == |keys|
    decreases |keys|
  {
    if keys != {} {
      var k :| k in keys;
      IdsOfKeys(rows, keys - {k});
      var rest := set j | j in keys - {k} :: rows[j].id;
      assert (set j | j in keys :: rows[j].id) == rest + {rows[k].id};
      assert rows[k].id !in rest;
    }
  }

  /** The rows the reconcile step drops, as keys. */
  function Dropped(lib: int, rows0: Rows, rows1: Rows, gone: set<string>): set<Key> {
    set k | k in rows0 && k.lib == lib && !rows0[k].deleted && k in rows1 && rows1[k].id in gone
  }

  lemma GoneAreDropped(f: Frame, s: Sweep, rows0: Rows, entries: seq<Entry>, stuck: set<string>, k: Key)
    requires RowsInv(f, rows0, s.rows) && SeenInv(f, s, PathsOf(entries), Blind(entries))
    requires f.refs == LiveRefs(rows0, f.lib)
    requires k in s.rows && s.rows[k].id in Gone(f, s, stuck)
    ensures k in Dropped(f.lib, rows0, s.rows, Gone(f, s, stuck))
  {
    GoneAreRefs(f, s, PathsOf(entries), Blind(entries), stuck, rows0, k);
    RefsAreLive(rows0, f.lib, k.path);
  }

  lemma CountDropped(rows: Rows, gone: set<string>, dropped: set<Key>)
    requires UniqueIds(rows) && dropped <= rows.Keys && gone <= Ids(rows)
    requires forall k | k in rows :: rows[k].id in gone <==> k in dropped
    ensures |dropped| == |gone|
  {
    forall id | id in gone ensures exists k :: k in dropped && rows[k].id == id {
      var k :| k in rows && rows[k].id == id;
      assert k in dropped;
    }
    assert gone == set k | k in dropped :: rows[k].id;
    IdsOfKeys(rows, dropped);
  }

  /** Live rows of the library, split by where they come from. */
  lemma LiveSplit(lib: int, rows0: Rows, rows1: Rows, gone: set<string>)
    requires Grown(lib, rows0, rows1)
    requires forall k | k in rows1 && rows1[k].id in gone :: k in Dropped(lib, rows0, rows1, gone)
    ensures
      var rows := SoftDeleted(rows1, gone);
      LiveKeys(rows, lib)
        == (LiveKeys(rows0, lib) - Dropped(lib, rows0, rows1, gone)) + (rows1.Keys - rows0.Keys) + Revived(rows0, rows)
  {
    var rows := SoftDeleted(rows1, gone);
    forall k | k in rows1
      ensures k in LiveKeys(rows, lib) <==>
        k in (LiveKeys(rows0, lib) - Dropped(lib, rows0, rows1, gone)) || k !in rows0 || k in Revived(rows0, rows)
    {
      if k in rows0 && k.lib != lib {
        assert rows1[k] == rows0[k];
      }
    }
  }

  function Revived(rows0: Rows, rows: Rows): set<Key> {
    set k | k in rows0 && rows0[k].deleted && Live(rows, k)
  }

  lemma LiveCount(lib: int, rows0: Rows, rows1: Rows, gone: set<string>)
    requires Grown(lib, rows0, rows1) && UniqueIds(rows1) && gone <= Ids(rows1)
    requires forall k | k in rows1 && rows1[k].id in gone :: k in Dropped(lib, rows0, rows1, gone)
    ensures
      var rows := SoftDeleted(rows1, gone);
      |LiveKeys(rows, lib)| == |LiveKeys(rows0, lib)| - |gone| + |rows1| - |rows0| + |Revived(rows0, rows)|
  {
    var rows := SoftDeleted(rows1, gone);
    LiveSplit(lib, rows0, rows1, gone);
    CountDropped(rows1, gone, Dropped(lib, rows0, rows1, gone));
    CountSplit(LiveKeys(rows0, lib), Dropped(lib, rows0, rows1, gone), rows0.Keys, rows1.Keys, Revived(rows0, rows));
    assert |rows0.Keys| == |rows0| && |rows1.Keys| == |rows1|;
  }

  /** Conservation: live rows after = live rows before + added + brought back
      to life - deleted. */
  lemma LiveRowsConserved(lib: int, db: Db, entries: seq<Entry>, queued: bool, now: int, stuck: set<string>)
    requires Consistent(db)
    ensures
      var rows := ScannedDb(lib, db, entries, queued, now, stuck).rows;
      var tally := ScanTally(lib, db, entries, queued, now, stuck);
      |LiveKeys(rows, lib)| == |LiveKeys(db.rows, lib)| + tally.added + |Revived(db.rows, rows)| - tally.deleted
  {
    var f := FrameOf(lib, db, queued, now);
    var s := Swept(f, Start(db), entries);
    var gone := Gone(f, s, stuck);
    SweptInvariants(lib, db, entries, queued, now);
    SweptTally(f, Start(db), entries);
    forall k | k in s.rows && s.rows[k].id in gone ensures k in Dropped(lib, db.rows, s.rows, gone) {
      GoneAreDropped(f, s, db.rows, entries, stuck, k);
    }
    GoneInRows(f, s.rows, s, stuck);
    LiveCount(lib, db.rows, s.rows, gone);
  }

  lemma GoneInRows(f: Frame, rows: Rows, s: Sweep, stuck: set<string>)
    requires RefsIn(f, rows)
    ensures Gone(f, s, stuck) <= Ids(rows)
  {
    forall id | id in Gone(f, s, stuck) ensures id in Ids(rows) {
      var p :| p in f.refs && f.refs[p].id == id;
      assert rows[Key(f.lib, p)].id == id;
    }
  }

  lemma CountSplit(live: set<Key>, dropped: set<Key>, before: set<Key>, after: set<Key>, revived: set<Key>)
    requires dropped <= live <= before <= after && revived <= before && revived !! live
    ensures |(live - dropped) + (after - before) + revived| == |live| - |dropped| + |after| - |before| + |revived|
  {
    var kept := live - dropped;
    assert |(kept + (after - before)) + revived| == |kept| + |after - before| + |revived|;
  }

  /** The tally of a whole scan accounts for every file that needed ingesting. */
  lemma TallyAccountsForFiles(lib: int, db: Db, entries: seq<Entry>, queued: bool, now: int, stuck: set<string>)
    ensures var tally := ScanTally(lib, db, entries, queued, now, stuck);
      tally.added + tally.changed + tally.failed == Needing(LiveRefs(db.rows, lib), entries)
  {
    SweptTally(FrameOf(lib, db, queued, now), Start(db), entries);
  }

  // ---- theorem: convergence ------------------------------------------------------------

  /** A walk without entry, stat or upsert errors over a tree whose supported
      entries are regular files, each delivered once. */
  predicate CleanWalk(entries: seq<Entry>) {
    && (forall e | e in entries :: !e.Unreadable?)
    && (forall e | e in entries && Delivered(e) :: e.stat.Regular? && !e.faults.upsert)
    && (forall i, j | 0 <= i < j < |entries| && Delivered(entries[i]) && Delivered(entries[j]) ::
          entries[i].path != entries[j].path)
  }

  /** The id a new file would get is not the id of an existing row. (Such a row
      can only be one for the same path in another library.) */
  predicate NoClash(rows: Rows, lib: int, entries: seq<Entry>) {
    forall e | e in entries && Delivered(e) && e.stat.Regular? && Key(lib, e.path) !in rows :: Sig(e) !in Ids(rows)
  }

  /** The catalog agrees with the tree: the live paths are the supported files,
      each with the signature of its file. */
  predicate InSync(rows: Rows, lib: int, entries: seq<Entry>) {
    && (forall e | e in entries && Delivered(e) ::
          e.stat.Regular? && Live(rows, Key(lib, e.path)) && Records(rows[Key(lib, e.path)], e))
    && (forall k | k in rows && Live(rows, k) && k.lib == lib :: k.path in PathsOf(entries))
  }

  predicate Records(r: Row, e: Entry)
    requires e.File? && e.stat.Regular?
  {
    r.sig == Sig(e)
  }

  /** Done so far: every visited file is recorded, every other row is as it was. */
  ghost predicate Progress(f: Frame, rows0: Rows, rows: Rows, done: seq<Entry>) {
    && (forall e | e in done && Delivered(e) ::
          e.stat.Regular? && Live(rows, Key(f.lib, e.path)) && Records(rows[Key(f.lib, e.path)], e))
    && (forall k | k in rows0 && k.path !in PathsOf(done) :: k in rows && rows[k] == rows0[k])
    && (forall k | k in rows && k !in rows0 :: k.lib == f.lib && k.path in PathsOf(done))
  }

  /** A delivered clean file is never refused: its id could only be taken by a
      row for the same path in another library. */
  lemma NeverRefused(f: Frame, rows0: Rows, rows: Rows, e: Entry, all: seq<Entry>)
    requires RowsInv(f, rows0, rows) && f.lib in f.libraries && NoClash(rows0, f.lib, all)
    requires NeedsIngest(f.refs, e) && !e.faults.upsert && e in all
    ensures !Refuses(f.libraries, rows, Key(f.lib, e.path), IngestId(f.refs, e), e.faults.upsert)
  {
    assert forall o | o in rows0 :: rows0[o].id in Ids(rows0);
    forall o | o in rows && rows[o].id == Sig(e) && Key(f.lib, e.path) !in rows0 ensures o == Key(f.lib, e.path) {
      var size, mtime :| rows[o].id == Fingerprint(o.path, size, mtime);
      FingerprintInjective(o.path, size, mtime, e.path, e.stat.size, e.stat.mtime);
    }
  }

  lemma WriteProgress(f: Frame, rows0: Rows, rows: Rows, e: Entry, write: Option<Row>, done: seq<Entry>)
    requires Progress(f, rows0, rows, done) && Delivered(e) && e.stat.Regular? && e.path !in PathsOf(done)
    requires write.Some? ==> WriteFits(f, rows, e, write.value)
    requires write.None? ==> Live(rows, Key(f.lib, e.path)) && Records(rows[Key(f.lib, e.path)], e)
    ensures Progress(f, rows0, RowsWith(rows, Key(f.lib, e.path), write), done + [e])
  {
    var rows' := RowsWith(rows, Key(f.lib, e.path), write);
    DonePaths(done, e);
    forall x | x in done + [e] && Delivered(x)
      ensures x.stat.Regular? && Live(rows', Key(f.lib, x.path)) && Records(rows'[Key(f.lib, x.path)], x)
    {
      assert x in done ==> x.path in PathsOf(done);
    }
  }

  lemma DonePaths(done: seq<Entry>, e: Entry)
    ensures PathsOf(done + [e]) == PathsOf(done) + if Delivered(e) then {e.path} else {}
  {
    PathsStep(done + [e], |done|);
    assert (done + [e])[..|done|] == done && (done + [e])[..|done| + 1] == done + [e];
  }

  lemma SkipProgress(f: Frame, rows0: Rows, rows: Rows, e: Entry, done: seq<Entry>)
    requires Progress(f, rows0, rows, done) && !Delivered(e)
    ensures Progress(f, rows0, rows, done + [e])
  {
    DonePaths(done, e);
  }

  lemma VisitProgress(f: Frame, rows0: Rows, s: Sweep, e: Entry, done: seq<Entry>, all: seq<Entry>)
    requires RowsInv(f, rows0, s.rows) && f.lib in f.libraries && NoClash(rows0, f.lib, all)
    requires f.refs == LiveRefs(rows0, f.lib) && Progress(f, rows0, s.rows, done)
    requires Delivered(e) ==> e.stat.Regular? && !e.faults.upsert && e in all && e.path !in PathsOf(done)
    ensures Progress(f, rows0, Visited(f, s, e).rows, done + [e])
  {
    var write := VisitEffect(f, s, e);
    var k, rows := Key(f.lib, e.path), s.rows;
    assert Visited(f, s, e).rows == RowsWith(rows, k, write);
    if Delivered(e) {
      if NeedsIngest(f.refs, e) {
        NeverRefused(f, rows0, rows, e, all);
      } else {
        RefsAreLive(rows0, f.lib, e.path);
        assert rows[k] == rows0[k];
      }
      WriteProgress(f, rows0, rows, e, write, done);
    } else {
      SkipProgress(f, rows0, rows, e, done);
    }
  }

  lemma VisitFails(f: Frame, s: Sweep, e: Entry)
    requires NeedsIngest(f.refs, e) ==> !Refuses(f.libraries, s.rows, Key(f.lib, e.path), IngestId(f.refs, e), e.faults.upsert)
    ensures Visited(f, s, e).tally.failed == s.tally.failed
  {
  }

  lemma CleanPrefix(entries: seq<Entry>, n: nat)
    requires CleanWalk(entries) && n < |entries|
    ensures CleanWalk(entries[..n]) && forall e | e in entries[..n] :: e in entries
    ensures var e := entries[n];
      Delivered(e) ==> e.stat.Regular? && !e.faults.upsert && e.path !in PathsOf(entries[..n])
  {
    assert entries[n] in entries;
    assert forall e | e in entries[..n] :: e in entries;
  }

  /** A frame and starting rows for which a clean walk works out. */
  ghost predicate Prepared(f: Frame, rows0: Rows, all: seq<Entry>) {
    && RowsInv(f, rows0, rows0) && f.lib in f.libraries && f.refs == LiveRefs(rows0, f.lib)
    && NoClash(rows0, f.lib, all)
  }

  lemma SweptLast(f: Frame, s0: Sweep, done: seq<Entry>, e: Entry)
    ensures Swept(f, s0, done + [e]) == Visited(f, Swept(f, s0, done), e)
  {
    assert (done + [e])[..|done|] == done;
  }

  lemma {:induction false} SweptProgress(f: Frame, s0: Sweep, entries: seq<Entry>, all: seq<Entry>)
    requires Prepared(f, s0.rows, all) && CleanWalk(entries) && forall e | e in entries :: e in all
    ensures Progress(f, s0.rows, Swept(f, s0, entries).rows, entries)
  {
    if entries != [] {
      var n := |entries| - 1;
      var done, e := entries[..n], entries[n];
      assert done + [e] == entries;
      CleanPrefix(entries, n);
      SweptProgress(f, s0, done, all);
      SweptRows(f, s0, done);
      SweptLast(f, s0, done, e);
      VisitProgress(f, s0.rows, Swept(f, s0, done), e, done, all);
    }
  }

  lemma {:induction false} SweptFails(f: Frame, s0: Sweep, entries: seq<Entry>, all: seq<Entry>)
    requires Prepared(f, s0.rows, all) && CleanWalk(entries) && forall e | e in entries :: e in all
    ensures Swept(f, s0, entries).tally.failed == s0.tally.failed
  {
    if entries != [] {
      var n := |entries| - 1;
      CleanPrefix(entries, n);
      SweptFails(f, s0, entries[..n], all);
      SweptRows(f, s0, entries[..n]);
      var s := Swept(f, s0, entries[..n]);
      if NeedsIngest(f.refs, entries[n]) {
        NeverRefused(f, s0.rows, s.rows, entries[n], all);
      }
      VisitFails(f, s, entries[n]);
    }
  }

  lemma ProgressSyncs(f: Frame, rows0: Rows, rows1: Rows, entries: seq<Entry>, gone: set<string>)
    requires Progress(f, rows0, rows1, entries)
    requires forall k | k in rows1 && k.lib == f.lib ::
      rows1[k].id in gone <==> Live(rows0, k) && k.path !in PathsOf(entries)
    ensures InSync(SoftDeleted(rows1, gone), f.lib, entries)
  {
    var rows := SoftDeleted(rows1, gone);
    forall e | e in entries && Delivered(e)
      ensures e.stat.Regular? && Live(rows, Key(f.lib, e.path)) && Records(rows[Key(f.lib, e.path)], e)
    {
      assert e.path in PathsOf(entries);
    }
    forall k | k in rows && Live(rows, k) && k.lib == f.lib ensures k.path in PathsOf(entries) {
      assert k in rows0 || k.path in PathsOf(entries);
    }
  }

  lemma NoClashConverges(lib: int, db: Db, entries: seq<Entry>, queued: bool, now: int)
    requires Consistent(db) && lib in db.libraries
    requires CleanWalk(entries) && NoClash(db.rows, lib, entries)
    ensures InSync(ScannedDb(lib, db, entries, queued, now, {}).rows, lib, entries)
    ensures ScanTally(lib, db, entries, queued, now, {}).failed == 0
  {
    var f := FrameOf(lib, db, queued, now);
    var s := Swept(f, Start(db), entries);
    StartRows(lib, db, queued, now);
    SweptProgress(f, Start(db), entries, entries);
    SweptFails(f, Start(db), entries, entries);
    SweptInvariants(lib, db, entries, queued, now);
    forall k | k in s.rows && k.lib == lib
      ensures s.rows[k].id in Gone(f, s, {}) <==> Live(db.rows, k) && k.path !in PathsOf(entries)
    {
      GoneAreRefs(f, s, PathsOf(entries), Blind(entries), {}, db.rows, k);
      RefsAreLive(db.rows, lib, k.path);
    }
    ProgressSyncs(f, db.rows, s.rows, entries, Gone(f, s, {}));
  }

  /** A path whose new id is taken stays out of the catalog. */
  lemma {:induction false} ClashStaysOut(f: Frame, s0: Sweep, entries: seq<Entry>, k: Key)
    requires RowsInv(f, s0.rows, s0.rows) && k.lib == f.lib && k !in s0.rows
    requires forall e | e in entries && Delivered(e) && e.stat.Regular? && e.path == k.path :: Sig(e) in Ids(s0.rows)
    ensures k !in Swept(f, s0, entries).rows
  {
    if entries != [] {
      var n := |entries| - 1;
      var done, e := entries[..n], entries[n];
      assert done + [e] == entries;
      ClashStaysOut(f, s0, done, k);
      SweptRows(f, s0, done);
      SweptLast(f, s0, done, e);
      var s := Swept(f, s0, done);
      var write := VisitEffect(f, s, e);
      SubIds(s0.rows, s.rows);
      assert e in entries;
    }
  }

  lemma OneEntryAPath(entries: seq<Entry>, e: Entry)
    requires CleanWalk(entries) && e in entries && Delivered(e)
    ensures forall x | x in entries && Delivered(x) && x.path == e.path :: x == e
  {
    forall x | x in entries && Delivered(x) && x.path == e.path ensures x == e {
      var i, j :| 0 <= i < |entries| && 0 <= j < |entries| && entries[i] == x && entries[j] == e;
    }
  }

  lemma ClashDiverges(lib: int, db: Db, entries: seq<Entry>, queued: bool, now: int, e: Entry)
    requires Consistent(db) && CleanWalk(entries) && e in entries && Delivered(e) && e.stat.Regular?
    requires Key(lib, e.path) !in db.rows && Sig(e) in Ids(db.rows)
    ensures Key(lib, e.path) !in ScannedDb(lib, db, entries, queued, now, {}).rows
  {
    StartRows(lib, db, queued, now);
    OneEntryAPath(entries, e);
    ClashStaysOut(FrameOf(lib, db, queued, now), Start(db), entries, Key(lib, e.path));
  }

  /** Scan convergence: after a clean walk with no failing soft-delete, the live
      paths of the library are exactly the supported files, each recorded -
      unless, and only unless, a new file's id is taken by another library. */
  lemma CleanWalkConverges(lib: int, db: Db, entries: seq<Entry>, queued: bool, now: int)
    requires Consistent(db) && lib in db.libraries && CleanWalk(entries)
    ensures InSync(ScannedDb(lib, db, entries, queued, now, {}).rows, lib, entries) <==> NoClash(db.rows, lib, entries)
  {
    if NoClash(db.rows, lib, entries) {
      NoClashConverges(lib, db, entries, queued, now);
    } else {
      var e :| e in entries && Delivered(e) && e.stat.Regular? && Key(lib, e.path) !in db.rows && Sig(e) in Ids(db.rows);
      ClashDiverges(lib, db, entries, queued, now, e);
    }
  }

  /** Walking a tree the catalog agrees with changes nothing, enqueues nothing
      and reports zeros, whatever the parsers, covers and faults would be. */
  lemma {:induction false} InSyncSweep(f: Frame, s: Sweep, rows0: Rows, all: seq<Entry>, entries: seq<Entry>)
    requires InSync(rows0, f.lib, all) && f.refs == LiveRefs(rows0, f.lib)
    requires forall e | e in entries :: e in all
    ensures var t := Swept(f, s, entries);
      && t.rows == s.rows && t.covers == s.covers && t.jobs == s.jobs && t.tally == s.tally
      && s.seen <= t.seen && forall p | p in PathsOf(entries) && p in f.refs :: f.refs[p].id in t.seen
  {
    if entries != [] {
      var n := |entries| - 1;
      InSyncSweep(f, s, rows0, all, entries[..n]);
      PathsStep(entries, n);
      assert entries[..n + 1] == entries;
      var e := entries[n];
      assert e in entries && e in all;
      if Delivered(e) {
        RefsAreLive(rows0, f.lib, e.path);
        assert !NeedsIngest(f.refs, e);
      }
    }
  }

  lemma SecondWalkIsIdle(lib: int, db: Db, entries: seq<Entry>, queued: bool, now: int, stuck: set<string>)
    requires InSync(db.rows, lib, entries)
    ensures ScannedDb(lib, db, entries, queued, now, stuck) == db
    ensures ScanTally(lib, db, entries, queued, now, stuck) == ZERO
  {
    var f := FrameOf(lib, db, queued, now);
    InSyncSweep(f, Start(db), db.rows, entries, entries);
    forall p | p in f.refs ensures p in PathsOf(entries) {
      RefsAreLive(db.rows, lib, p);
    }
    assert Gone(f, Swept(f, Start(db), entries), stuck) == {};
    SoftDeletedTwice(db.rows, {}, {});
  }
}
