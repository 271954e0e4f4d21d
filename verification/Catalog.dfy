/** The store: libraries, ebook rows, covers, and the statements that change them. */
module Catalog {
  import opened Collections
  import opened Ebooks
  import JobQueue
  import Text

  /** The unique index (library_path_id, path). */
  datatype Key = Key(lib: int, path: string)

  datatype Row = Row(id: string, format: string, size: int, mtime: int, sig: string, fields: Fields, deleted: bool)

  type Rows = map<Key, Row>

  /** What the scanner remembers of a live row. */
  datatype Ref = Ref(id: string, path: string, sig: string)

  datatype Db = Db(libraries: set<int>, rows: Rows, covers: map<string, Cover>, jobs: JobQueue.Table)

  // ---- ids and signatures ------------------------------------------------------

  /** The string stableID feeds to its hash; the hash itself is taken to be ideal. */
  function Fingerprint(path: string, size: int, mtime: int): string {
    path + ['|'] + (Text.Itoa(size) + ['|'] + Text.Itoa(mtime))
  }

  /** Path, size and time can be read back from it, even when the path itself
      contains the separator. */
  lemma FingerprintInjective(p: string, s: int, m: int, p': string, s': int, m': int)
    requires Fingerprint(p, s, m) == Fingerprint(p', s', m')
    ensures p == p' && s == s' && m == m'
  {
    Text.ItoaIsPlain(m, '|');
    Text.ItoaIsPlain(m', '|');
    Text.ItoaIsPlain(s, '|');
    Text.ItoaIsPlain(s', '|');
    var left, left' := p + ['|'] + Text.Itoa(s), p' + ['|'] + Text.Itoa(s');
    assert Fingerprint(p, s, m) == left + ['|'] + Text.Itoa(m);
    assert Fingerprint(p', s', m') == left' + ['|'] + Text.Itoa(m');
    Text.LastSeparator(left, Text.Itoa(m), left', Text.Itoa(m'), '|');
    Text.LastSeparator(p, Text.Itoa(s), p', Text.Itoa(s'), '|');
    Text.ItoaInjective(s, s');
    Text.ItoaInjective(m, m');
  }

  // ---- consistency ----------------------------------------------------------------

  /** The primary key. */
  predicate UniqueIds(rows: Rows) {
    forall j, k | j in rows && k in rows && rows[j].id == rows[k].id :: j == k
  }

  /** Every id was minted as a fingerprint of the row's own path. */
  ghost predicate Minted(rows: Rows) {
    forall k | k in rows :: exists size, mtime :: rows[k].id == Fingerprint(k.path, size, mtime)
  }

  function Ids(rows: Rows): set<string> {
    set k | k in rows :: rows[k].id
  }

  ghost predicate Consistent(db: Db) {
    && UniqueIds(db.rows) && Minted(db.rows)
    && (forall k | k in db.rows :: k.lib in db.libraries)
    && db.covers.Keys <= Ids(db.rows)
    && db.jobs.Keys <= Ids(db.rows)
  }

  // ---- statements as functions on the tables ----------------------------------------

  datatype Outcome = Refused | Stored(id: string, wasKnown: bool)

  /** The foreign key, the primary key, or the connection refuses an upsert.
      The conflict on the unique index comes first and is no refusal. */
  predicate Refuses(libraries: set<int>, rows: Rows, k: Key, id: string, fault: bool) {
    fault || k.lib !in libraries || (k !in rows && id in Ids(rows))
  }

  /** The row an accepted upsert leaves at its key. */
  function RowAfter(rows: Rows, k: Key, id: string, p: Parsed, size: int, mtime: int, sig: string): Row {
    if k in rows then Row(rows[k].id, p.format, size, mtime, sig, FillGaps(rows[k].fields, FieldsOf(p)), false)
    else Row(id, p.format, size, mtime, sig, FieldsOf(p), false)
  }

  function Upserted(rows: Rows, k: Key, id: string, p: Parsed, size: int, mtime: int, sig: string): Rows {
    rows[k := RowAfter(rows, k, id, p, size, mtime, sig)]
  }

  /** The row an ingest leaves, column by column. */
  predicate UpsertLeft(rows: Rows, k: Key, id: string, p: Parsed, size: int, mtime: int, sig: string, r: Row) {
    && r.id == (if k in rows then rows[k].id else id)
    && r.format == p.format && r.size == size && r.mtime == mtime && r.sig == sig && !r.deleted
    && GapsFilled(if k in rows then rows[k].fields else BLANK, p, r.fields)
  }

  predicate OthersKept(rows: Rows, rows': Rows, k: Key) {
    rows'.Keys - {k} == rows.Keys - {k} && forall o | o in rows && o in rows' && o != k :: rows'[o] == rows[o]
  }

  /** An accepted upsert: which parsed field goes where, and what stays. */
  lemma UpsertLeaves(rows: Rows, k: Key, id: string, p: Parsed, size: int, mtime: int, sig: string)
    ensures var t := Upserted(rows, k, id, p, size, mtime, sig);
      k in t && UpsertLeft(rows, k, id, p, size, mtime, sig, t[k]) && OthersKept(rows, t, k)
  {
    FillGapsFills(if k in rows then rows[k].fields else BLANK, p);
  }

  function SoftDeleted(rows: Rows, ids: set<string>): Rows {
    map k | k in rows :: if rows[k].id in ids then rows[k].(deleted := true) else rows[k]
  }

  /** UPDATE ... WHERE id: every row with that id, of which there is at most one. */
  function Rewritten(rows: Rows, row: EbookRow): Rows {
    map k | k in rows :: if rows[k].id == row.id then rows[k].(fields := row.fields) else rows[k]
  }

  function LiveRefs(rows: Rows, lib: int): map<string, Ref> {
    map k | k in rows && k.lib == lib && !rows[k].deleted :: k.path := Ref(rows[k].id, k.path, rows[k].sig)
  }

  function IdsOf(rows: Rows, lib: int): set<string> {
    set k | k in rows && k.lib == lib :: rows[k].id
  }

  function RowsWithout(rows: Rows, lib: int): Rows {
    map k | k in rows && k.lib != lib :: rows[k]
  }

  function WithoutLibrary(db: Db, lib: int): Db {
    var gone := IdsOf(db.rows, lib);
    Db(db.libraries - {lib}, RowsWithout(db.rows, lib), db.covers - gone, db.jobs - gone)
  }

  /** A new path is refused for its id exactly when another library already
      holds the same path with the same fingerprint: overlapping roots. */
  lemma IdClashMeansOverlap(db: Db, k: Key, size: int, mtime: int)
    requires Consistent(db) && k !in db.rows
    ensures Fingerprint(k.path, size, mtime) in Ids(db.rows)
        <==> exists o :: o in db.rows && o.lib != k.lib && o.path == k.path && db.rows[o].id == Fingerprint(k.path, size, mtime)
  {
    var id := Fingerprint(k.path, size, mtime);
    if id in Ids(db.rows) {
      var o :| o in db.rows && db.rows[o].id == id;
      var s, m :| db.rows[o].id == Fingerprint(o.path, s, m);
      FingerprintInjective(k.path, size, mtime, o.path, s, m);
      assert o.lib == k.lib ==> o == k;
    }
  }

  lemma FewerRows(a: Rows, b: Rows)
    requires UniqueIds(a) && Minted(a)
    requires forall k | k in b :: k in a && b[k] == a[k]
    ensures UniqueIds(b) && Minted(b)
  {
    forall i, j | i in b && j in b && b[i].id == b[j].id ensures i == j {
      assert a[i].id == a[j].id;
    }
    forall k | k in b ensures exists size, mtime :: b[k].id == Fingerprint(k.path, size, mtime) {
      var size, mtime :| a[k].id == Fingerprint(k.path, size, mtime);
    }
  }

  lemma SparedIds(rows: Rows, lib: int, ids: set<string>)
    requires ids <= Ids(rows)
    ensures ids - IdsOf(rows, lib) <= Ids(RowsWithout(rows, lib))
  {
    forall id | id in ids - IdsOf(rows, lib) ensures id in Ids(RowsWithout(rows, lib)) {
      var k :| k in rows && rows[k].id == id;
      assert RowsWithout(rows, lib)[k].id == id;
    }
  }

  lemma DeleteLibraryKeepsConsistent(db: Db, lib: int)
    requires Consistent(db)
    ensures Consistent(WithoutLibrary(db, lib))
  {
    FewerRows(db.rows, RowsWithout(db.rows, lib));
    SparedIds(db.rows, lib, db.covers.Keys);
    SparedIds(db.rows, lib, db.jobs.Keys);
    var t := WithoutLibrary(db, lib);
    assert t.covers.Keys == db.covers.Keys - IdsOf(db.rows, lib);
    assert t.jobs.Keys == db.jobs.Keys - IdsOf(db.rows, lib);
  }

  /** Deleting a library spares the rows, covers and jobs of all others. */
  lemma DeleteLibrarySparesOthers(db: Db, lib: int, k: Key)
    requires Consistent(db) && k in db.rows && k.lib != lib
    ensures var t := WithoutLibrary(db, lib);
      && k in t.rows && t.rows[k] == db.rows[k]
      && (db.rows[k].id in db.covers ==> db.rows[k].id in t.covers && t.covers[db.rows[k].id] == db.covers[db.rows[k].id])
      && (db.rows[k].id in db.jobs ==> db.rows[k].id in t.jobs && t.jobs[db.rows[k].id] == db.jobs[db.rows[k].id])
  {
  }

  // ---- the store ------------------------------------------------------------------------

  class Store {
    var libraries: set<int>
    var rows: Rows
    var covers: map<string, Cover>

    constructor ()
      ensures libraries == {} && rows == map[] && covers == map[]
    {
      libraries, rows, covers := {}, map[], map[];
    }

    /** fault: the statement failed for a reason outside the tables. */
    method UpsertEbook(lib: int, id: string, path: string, p: Parsed, size: int, mtime: int, sig: string, fault: bool)
      returns (out: Outcome)
      modifies this`rows
      ensures out.Refused? <==> Refuses(libraries, old(rows), Key(lib, path), id, fault)
      ensures out.Refused? ==> rows == old(rows)
      ensures out.Stored? ==>
        && rows == Upserted(old(rows), Key(lib, path), id, p, size, mtime, sig)
        && out == Stored(rows[Key(lib, path)].id, Key(lib, path) in old(rows))
      ensures out.Refused? <==> fault || lib !in libraries || (Key(lib, path) !in old(rows) && id in Ids(old(rows)))
    {
      var k := Key(lib, path);
      if fault || lib !in libraries {
        return Refused;
      }
      var f := FieldsOf(p);
      if k in rows {
        var r := rows[k];
        rows := rows[k := r.(mtime := mtime, size := size, sig := sig, format := p.format,
                             fields := FillGaps(r.fields, f), deleted := false)];
        return Stored(r.id, true);
      }
      if exists o :: o in rows && rows[o].id == id {
        return Refused;
      }
      rows := rows[k := Row(id, p.format, size, mtime, sig, f, false)];
      out := Stored(id, false);
    }

    /** The foreign key refuses covers of ids that are no ebook. */
    method UpsertCover(id: string, cover: Cover, fault: bool) returns (ok: bool)
      modifies this`covers
      ensures ok <==> !fault && id in Ids(rows)
      ensures covers == if ok then old(covers)[id := cover] else old(covers)
    {
      ok := !fault && id in Ids(rows);
      if ok {
        covers := covers[id := cover];
      }
    }

    /** The live rows of a library, each once, in no particular order. */
    method ListEbookRefs(lib: int) returns (refs: seq<Ref>)
      ensures forall i, j | 0 <= i < j < |refs| :: refs[i].path != refs[j].path
      ensures (set r | r in refs) == LiveRefs(rows, lib).Values
    {
      var todo := set k | k in rows && k.lib == lib && !rows[k].deleted;
      refs := [];
      ghost var all := todo;
      while todo != {}
        invariant todo <= all
        invariant forall i, j | 0 <= i < j < |refs| :: refs[i].path != refs[j].path
        invariant forall i | 0 <= i < |refs| ::
          Key(lib, refs[i].path) in all - todo && refs[i] == Ref(rows[Key(lib, refs[i].path)].id, refs[i].path, rows[Key(lib, refs[i].path)].sig)
        invariant forall k | k in all - todo :: Ref(rows[k].id, k.path, rows[k].sig) in refs
        decreases |todo|
      {
        var k :| k in todo;
        todo := todo - {k};
        refs := refs + [Ref(rows[k].id, k.path, rows[k].sig)];
      }
      ghost var live := LiveRefs(rows, lib);
      forall r | r in refs ensures r in live.Values {
        assert live[r.path] == r;
      }
      forall r | r in live.Values ensures r in refs {
        var p :| p in live && live[p] == r;
        assert Key(lib, p) in all;
      }
    }

    method SoftDelete(id: string)
      modifies this`rows
      ensures rows == SoftDeleted(old(rows), {id})
      ensures rows.Keys == old(rows).Keys
      ensures forall k | k in rows :: rows[k] == if old(rows)[k].id == id then old(rows)[k].(deleted := true) else old(rows)[k]
    {
      rows := map k | k in rows :: if rows[k].id == id then rows[k].(deleted := true) else rows[k];
    }

    method LoadEbookRow(id: string) returns (row: Option<EbookRow>)
      ensures row.None? <==> id !in Ids(rows)
      ensures row.Some? ==> exists k :: k in rows && rows[k].id == id && row.value == EbookRow(id, rows[k].format, rows[k].fields)
    {
      if k :| k in rows && rows[k].id == id {
        return Some(EbookRow(id, rows[k].format, rows[k].fields));
      }
      row := None;
    }

    method UpdateEbookMetadata(row: EbookRow)
      modifies this`rows
      ensures rows == Rewritten(old(rows), row)
      ensures rows.Keys == old(rows).Keys
      ensures forall k | k in rows :: rows[k] == if old(rows)[k].id == row.id then old(rows)[k].(fields := row.fields) else old(rows)[k]
    {
      rows := map k | k in rows :: if rows[k].id == row.id then rows[k].(fields := row.fields) else rows[k];
    }

    ghost function Value(q: JobQueue.Queue): Db
      reads this, q
    {
      Db(libraries, rows, covers, q.jobs)
    }

    /** Four deletes in one transaction; nothing happens when the library is
        unknown or a statement fails. */
    method DeleteLibrary(lib: int, q: JobQueue.Queue, fault: bool) returns (ok: bool)
      modifies this, q`jobs
      ensures ok <==> !fault && lib in old(libraries)
      ensures Value(q) == if ok then WithoutLibrary(old(Value(q)), lib) else old(Value(q))
    {
      var gone := IdsOf(rows, lib);
      var jobs' := q.jobs - gone;
      var covers' := covers - gone;
      var rows' := map k | k in rows && k.lib != lib :: rows[k];
      var libraries' := libraries - {lib};
      if fault || libraries' == libraries {
        return false;
      }
      q.jobs := jobs';
      covers, rows, libraries := covers', rows', libraries';
      ok := true;
    }
  }
}
