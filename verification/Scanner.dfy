/** The library scan: one walk over a file tree that brings the live rows of a
    library into agreement with the files. */
module Scanner {
  import opened Collections
  import opened Ebooks
  import opened Catalog
  import JobQueue
  import Text

  // ---- what a walk delivers ----------------------------------------------------

  datatype Stat = StatError | Irregular | Regular(size: int, mtime: int)

  /** Which statements about this file fail for reasons outside the tables. */
  datatype Faults = Faults(upsert: bool, cover: bool, enqueue: bool)

  /** One call of the walk function. A parse of None failed or panicked; the
      sidecar is the usable cover image next to the file. */
  datatype Entry =
    | Unreadable(path: string)
    | Directory(path: string)
    | File(path: string, stat: Stat, parsed: Option<Parsed>, sidecar: Option<Cover>, faults: Faults)

  datatype Tally = Tally(added: nat, changed: nat, deleted: nat, failed: nat)

  const ZERO := Tally(0, 0, 0, 0)

  /** From the last dot of the last path component, dot included. */
  function ExtOf(path: string): string {
    if path == "" || path[|path| - 1] == '/' then ""
    else if path[|path| - 1] == '.' then "."
    else
      var ext := ExtOf(path[..|path| - 1]);
      if ext == "" then "" else ext + [path[|path| - 1]]
  }

  predicate IsSupported(path: string) {
    Text.Lower(ExtOf(path)) in {".epub", ".pdf", ".mobi", ".azw", ".azw3", ".fb2"}
  }

  /** A dot and what follows it inside one path component. */
  predicate IsExt(ext: string) {
    ext != "" && ext[0] == '.' && forall c | c in ext[1..] :: c != '.' && c != '/'
  }

  lemma {:induction false} ExtOfStem(stem: string, ext: string)
    requires IsExt(ext)
    ensures ExtOf(stem + ext) == ext
  {
    var path, n := stem + ext, |ext| - 1;
    assert path[|path| - 1] == ext[n];
    if n > 0 {
      assert ext[n] in ext[1..];
      assert forall c | c in ext[..n][1..] :: c in ext[1..];
      ExtOfStem(stem, ext[..n]);
      assert path[..|path| - 1] == stem + ext[..n] && ext == ext[..n] + [ext[n]];
    }
  }

  lemma {:induction false} ExtOfSplits(path: string)
    ensures ExtOf(path) != "" ==> IsExt(ExtOf(path)) && |ExtOf(path)| <= |path| && path == path[..|path| - |ExtOf(path)|] + ExtOf(path)
  {
    if path != "" {
      var front, last := path[..|path| - 1], path[|path| - 1];
      ExtOfSplits(front);
      assert path == front + [last];
      assert ExtOf(front) != "" ==> (ExtOf(front) + [last])[1..] == ExtOf(front)[1..] + [last];
    }
  }

  /** The supported files are those with one of the six extensions, in any case. */
  lemma SupportedMeans(path: string)
    ensures IsSupported(path) <==>
      exists stem, ext :: path == stem + ext && IsExt(ext) && Text.Lower(ext) in [".epub", ".pdf", ".mobi", ".azw", ".azw3", ".fb2"]
  {
    ExtOfSplits(path);
    if IsSupported(path) {
      var ext := ExtOf(path);
      assert ext != "";
      assert path == path[..|path| - |ext|] + ext;
    } else if stem, ext :| path == stem + ext && IsExt(ext) && Text.Lower(ext) in [".epub", ".pdf", ".mobi", ".azw", ".azw3", ".fb2"] {
      ExtOfStem(stem, ext);
    }
  }

  function BareFormat(path: string): string {
    var ext := ExtOf(path);
    if ext == "" then "" else ext[1..]
  }

  /** What is stored for a file that could not be parsed. */
  function Unparsed(path: string): Parsed {
    Parsed(BareFormat(path), "", [], "", "", "", "", "", "", "", "", [], 0, None)
  }

  // ---- one entry ------------------------------------------------------------------

  /** What stays fixed during a walk. */
  datatype Frame = Frame(lib: int, libraries: set<int>, refs: map<string, Ref>, queued: bool, now: int)

  datatype Sweep = Sweep(rows: Rows, covers: map<string, Cover>, jobs: JobQueue.Table,
                         seen: set<string>, blind: bool, tally: Tally)

  predicate Delivered(e: Entry) {
    e.File? && IsSupported(e.path)
  }

  function Sig(e: Entry): string
    requires e.File? && e.stat.Regular?
  {
    Fingerprint(e.path, e.stat.size, e.stat.mtime)
  }

  /** New, or changed since the last ingest. */
  predicate NeedsIngest(refs: map<string, Ref>, e: Entry) {
    Delivered(e) && e.stat.Regular? && !(e.path in refs && refs[e.path].sig == Sig(e))
  }

  function ChosenCover(p: Parsed, e: Entry): Option<Cover>
    requires e.File?
  {
    if p.cover.Some? && p.cover.value.bytes != [] then Some(p.cover.value.(source := "embedded"))
    else if e.sidecar.Some? then Some(e.sidecar.value.(source := "sidecar"))
    else None
  }

  function Contents(e: Entry): Parsed
    requires e.File?
  {
    if e.parsed.Some? then e.parsed.value else Unparsed(e.path)
  }

  function IngestId(refs: map<string, Ref>, e: Entry): string
    requires e.File? && e.stat.Regular?
  {
    if e.path in refs then refs[e.path].id else Sig(e)
  }

  function CoversAfter(covers: map<string, Cover>, id: string, e: Entry): map<string, Cover>
    requires e.File?
  {
    var cover := ChosenCover(Contents(e), e);
    if cover.Some? && !e.faults.cover then covers[id := cover.value] else covers
  }

  function JobsAfter(f: Frame, jobs: JobQueue.Table, id: string, e: Entry): JobQueue.Table
    requires e.File?
  {
    if f.queued && !e.faults.enqueue then JobQueue.Rearmed(jobs, f.now, {id}) else jobs
  }

  /** The bookkeeping after an accepted upsert that left rows and returned id. */
  function Recorded(f: Frame, s: Sweep, e: Entry, rows: Rows, id: string, wasKnown: bool): Sweep
    requires e.File?
  {
    Sweep(
      rows,
      CoversAfter(s.covers, id, e),
      JobsAfter(f, s.jobs, id, e),
      s.seen + {id},
      s.blind,
      if wasKnown then s.tally.(changed := s.tally.changed + 1) else s.tally.(added := s.tally.added + 1))
  }

  function Ingested(f: Frame, s: Sweep, e: Entry): Sweep
    requires e.File? && e.stat.Regular?
  {
    var k, id := Key(f.lib, e.path), IngestId(f.refs, e);
    if Refuses(f.libraries, s.rows, k, id, e.faults.upsert) then
      s.(tally := s.tally.(failed := s.tally.failed + 1))
    else
      var rows := Upserted(s.rows, k, id, Contents(e), e.stat.size, e.stat.mtime, Sig(e));
      Recorded(f, s, e, rows, rows[k].id, k in s.rows)
  }

  function Visited(f: Frame, s: Sweep, e: Entry): Sweep {
    if e.Unreadable? then s.(blind := true)
    else if !Delivered(e) then s
    else
      var s1 := if e.path in f.refs then s.(seen := s.seen + {f.refs[e.path].id}) else s;
      if NeedsIngest(f.refs, e) then Ingested(f, s1, e) else s1
  }

  function Swept(f: Frame, s: Sweep, entries: seq<Entry>): Sweep {
    if entries == [] then s
    else Visited(f, Swept(f, s, entries[..|entries| - 1]), entries[|entries| - 1])
  }

  // ---- the whole scan -----------------------------------------------------------------

  function Unseen(refs: map<string, Ref>, seen: set<string>, stuck: set<string>): set<string> {
    set p | p in refs && refs[p].id !in seen && refs[p].id !in stuck :: refs[p].id
  }

  function Start(db: Db): Sweep {
    Sweep(db.rows, db.covers, db.jobs, {}, false, ZERO)
  }

  function FrameOf(lib: int, db: Db, queued: bool, now: int): Frame {
    Frame(lib, db.libraries, LiveRefs(db.rows, lib), queued, now)
  }

  function Gone(f: Frame, s: Sweep, stuck: set<string>): set<string> {
    if s.blind then {} else Unseen(f.refs, s.seen, stuck)
  }

  function ScannedDb(lib: int, db: Db, entries: seq<Entry>, queued: bool, now: int, stuck: set<string>): Db {
    var f := FrameOf(lib, db, queued, now);
    var s := Swept(f, Start(db), entries);
    Db(db.libraries, SoftDeleted(s.rows, Gone(f, s, stuck)), s.covers, s.jobs)
  }

  function ScanTally(lib: int, db: Db, entries: seq<Entry>, queued: bool, now: int, stuck: set<string>): Tally {
    var f := FrameOf(lib, db, queued, now);
    var s := Swept(f, Start(db), entries);
    s.tally.(deleted := |Gone(f, s, stuck)|)
  }

  /** The ids that the reconcile loop deletes from the refs it has gone through. */
  function Doomed(refs: seq<Ref>, seen: set<string>, stuck: set<string>): set<string> {
    set r | r in refs && r.id !in seen && r.id !in stuck :: r.id
  }

  lemma DoomedStep(refs: seq<Ref>, i: nat, seen: set<string>, stuck: set<string>)
    requires i < |refs| && forall j, k | 0 <= j < k < |refs| :: refs[j].id != refs[k].id
    ensures refs[i].id !in Doomed(refs[..i], seen, stuck)
    ensures Doomed(refs[..i + 1], seen, stuck) == Doomed(refs[..i], seen, stuck)
              + if refs[i].id !in seen && refs[i].id !in stuck then {refs[i].id} else {}
  {
    assert refs[..i + 1] == refs[..i] + [refs[i]];
  }

  /** One turn of the reconcile loop. */
  lemma ReconcileStep(rows0: Rows, refs: seq<Ref>, i: nat, seen: set<string>, stuck: set<string>)
    requires i < |refs| && forall j, k | 0 <= j < k < |refs| :: refs[j].id != refs[k].id
    ensures var rows := SoftDeleted(rows0, Doomed(refs[..i], seen, stuck));
      if refs[i].id !in seen && refs[i].id !in stuck then
        && SoftDeleted(rows, {refs[i].id}) == SoftDeleted(rows0, Doomed(refs[..i + 1], seen, stuck))
        && |Doomed(refs[..i + 1], seen, stuck)| == |Doomed(refs[..i], seen, stuck)| + 1
      else
        Doomed(refs[..i + 1], seen, stuck) == Doomed(refs[..i], seen, stuck)
  {
    DoomedStep(refs, i, seen, stuck);
    SoftDeletedTwice(rows0, Doomed(refs[..i], seen, stuck), {refs[i].id});
  }

  lemma SoftDeletedTwice(rows: Rows, a: set<string>, b: set<string>)
    ensures SoftDeleted(SoftDeleted(rows, a), b) == SoftDeleted(rows, a + b)
    ensures SoftDeleted(rows, {}) == rows
  {
  }

  // ---- the imperative walk ----------------------------------------------------------------

  ghost function JobsOf(q: JobQueue.Queue?): JobQueue.Table
    reads q
  {
    if q == null then map[] else q.jobs
  }

  /** The closure's captured variables live in this object. */
  class Walker {
    const lib: int
    const byPath: map<string, Ref>
    const store: Store
    const queue: JobQueue.Queue?
    var seenIds: set<string>
    var walkHadErrors: bool
    var res: Tally

    constructor (lib: int, byPath: map<string, Ref>, store: Store, queue: JobQueue.Queue?)
      ensures this.lib == lib && this.byPath == byPath && this.store == store && this.queue == queue
      ensures seenIds == {} && !walkHadErrors && res == ZERO
    {
      this.lib, this.byPath, this.store, this.queue := lib, byPath, store, queue;
      seenIds, walkHadErrors, res := {}, false, ZERO;
    }

    ghost function State(): Sweep
      reads this, store, queue
    {
      Sweep(store.rows, store.covers, JobsOf(queue), seenIds, walkHadErrors, res)
    }

    ghost function Fixed(): Frame
      reads store, queue
    {
      Frame(lib, store.libraries, byPath, queue != null, if queue == null then 0 else queue.now)
    }

    /** Cover and enrichment job of the row just written; their errors are only logged. */
    method Attach(id: string, e: Entry)
      requires e.File? && id in Ids(store.rows)
      modifies store`covers, if queue == null then {} else {queue}
      ensures store.covers == CoversAfter(old(store.covers), id, e)
      ensures JobsOf(queue) == JobsAfter(old(Fixed()), old(JobsOf(queue)), id, e)
      ensures Fixed() == old(Fixed())
    {
      var cover := ChosenCover(Contents(e), e);
      if cover.Some? {
        var _ := store.UpsertCover(id, cover.value, e.faults.cover);
      }
      if queue != null && !e.faults.enqueue {
        var _ := queue.Enqueue(id, Ids(store.rows));
      }
    }

    method CountIn(id: string, wasKnown: bool)
      modifies this`seenIds, this`res
      ensures seenIds == old(seenIds) + {id}
      ensures res == if wasKnown then old(res).(changed := old(res).changed + 1) else old(res).(added := old(res).added + 1)
    {
      seenIds := seenIds + {id};
      if wasKnown {
        res := res.(changed := res.changed + 1);
      } else {
        res := res.(added := res.added + 1);
      }
    }

    method Ingest(e: Entry)
      requires e.File? && e.stat.Regular?
      modifies this`seenIds, this`res, store`rows, store`covers, if queue == null then {} else {queue}
      ensures State() == Ingested(old(Fixed()), old(State()), e)
      ensures Fixed() == old(Fixed())
    {
      var out := store.UpsertEbook(lib, IngestId(byPath, e), e.path, Contents(e), e.stat.size, e.stat.mtime, Sig(e), e.faults.upsert);
      if out.Refused? {
        res := res.(failed := res.failed + 1);
        return;
      }
      CountIn(out.id, out.wasKnown);
      assert out.id in Ids(store.rows);
      Attach(out.id, e);
    }

    method WalkFn(e: Entry)
      modifies this`seenIds, this`res, this`walkHadErrors, store`rows, store`covers, if queue == null then {} else {queue}
      ensures State() == Visited(old(Fixed()), old(State()), e)
      ensures Fixed() == old(Fixed())
    {
      if e.Unreadable? {
        walkHadErrors := true;
        return;
      }
      if e.Directory? || !IsSupported(e.path) {
        return;
      }
      if e.path in byPath {
        seenIds := seenIds + {byPath[e.path].id};
      }
      if !e.stat.Regular? {
        return;
      }
      if e.path in byPath && byPath[e.path].sig == Sig(e) {
        return;
      }
      Ingest(e);
    }

    method WalkTree(entries: seq<Entry>)
      modifies this`seenIds, this`res, this`walkHadErrors, store`rows, store`covers, if queue == null then {} else {queue}
      ensures State() == Swept(old(Fixed()), old(State()), entries)
      ensures Fixed() == old(Fixed())
    {
      for i := 0 to |entries|
        invariant State() == Swept(old(Fixed()), old(State()), entries[..i])
        invariant Fixed() == old(Fixed())
      {
        assert entries[..i + 1][..i] == entries[..i];
        WalkFn(entries[i]);
      }
      assert entries[..|entries|] == entries;
    }

    /** stuck: ids whose SoftDelete statement fails. */
    method Reconcile(refs: seq<Ref>, stuck: set<string>)
      requires forall i, j | 0 <= i < j < |refs| :: refs[i].id != refs[j].id
      requires res.deleted == 0
      modifies this`res, store`rows
      ensures store.rows == SoftDeleted(old(store.rows), Doomed(refs, seenIds, stuck))
      ensures res == old(res).(deleted := |Doomed(refs, seenIds, stuck)|)
    {
      ghost var rows0, res0 := store.rows, res;
      SoftDeletedTwice(store.rows, {}, {});
      assert Doomed(refs[..0], seenIds, stuck) == {};
      for i := 0 to |refs|
        invariant store.rows == SoftDeleted(rows0, Doomed(refs[..i], seenIds, stuck))
        invariant res == res0.(deleted := |Doomed(refs[..i], seenIds, stuck)|)
      {
        ReconcileStep(rows0, refs, i, seenIds, stuck);
        if refs[i].id !in seenIds && refs[i].id !in stuck {
          store.SoftDelete(refs[i].id);
          res := res.(deleted := res.deleted + 1);
        }
      }
      assert refs[..|refs|] == refs;
    }

    /** The walk, and the reconcile unless an entry could not be read. */
    method Run(refs: seq<Ref>, entries: seq<Entry>, stuck: set<string>)
      requires forall i, j | 0 <= i < j < |refs| :: refs[i].id != refs[j].id
      requires res == ZERO
      modifies this, store`rows, store`covers, if queue == null then {} else {queue}
      ensures Fixed() == old(Fixed())
      ensures
        var s := Swept(old(Fixed()), old(State()), entries);
        var gone := if s.blind then {} else Doomed(refs, s.seen, stuck);
        && DbOf(store, queue) == Db(store.libraries, SoftDeleted(s.rows, gone), s.covers, s.jobs)
        && res == s.tally.(deleted := |gone|)
    {
      WalkTree(entries);
      ghost var s := Swept(old(Fixed()), old(State()), entries);
      SoftDeletedTwice(s.rows, {}, {});
      SweptDeletesNothing(old(Fixed()), old(State()), entries);
      if !walkHadErrors {
        Reconcile(refs, stuck);
      }
    }
  }

  method IndexByPath(refs: seq<Ref>) returns (byPath: map<string, Ref>)
    requires forall i, j | 0 <= i < j < |refs| :: refs[i].path != refs[j].path
    ensures byPath.Values == set r | r in refs
    ensures forall p | p in byPath :: byPath[p].path == p
  {
    byPath := map[];
    for i := 0 to |refs|
      invariant forall p | p in byPath :: byPath[p].path == p && byPath[p] in refs[..i]
      invariant forall j | 0 <= j < i :: refs[j].path in byPath && byPath[refs[j].path] == refs[j]
    {
      byPath := byPath[refs[i].path := refs[i]];
    }
    assert refs[..|refs|] == refs;
    forall r | r in refs ensures r in byPath.Values {
      assert byPath[r.path] == r;
    }
  }

  /** A table of refs is determined by the refs in it. */
  lemma SameIndex(a: map<string, Ref>, b: map<string, Ref>)
    requires a.Values == b.Values
    requires (forall p | p in a :: a[p].path == p) && (forall p | p in b :: b[p].path == p)
    ensures a == b
  {
    forall p | p in a ensures p in b && b[p] == a[p] {
      assert a[p] in b.Values;
    }
    forall p | p in b ensures p in a {
      assert b[p] in a.Values;
    }
  }

  ghost function DbOf(store: Store, q: JobQueue.Queue?): Db
    reads store, q
  {
    Db(store.libraries, store.rows, store.covers, JobsOf(q))
  }

  /** Walk. It fails only when the rows of the library cannot be listed. */
  method Walk(lib: int, entries: seq<Entry>, store: Store, queue: JobQueue.Queue?, listFails: bool, stuck: set<string>)
    returns (res: Option<Tally>)
    requires UniqueIds(store.rows)
    modifies store`rows, store`covers, if queue == null then {} else {queue}
    ensures res.None? <==> listFails
    ensures res.None? ==> DbOf(store, queue) == old(DbOf(store, queue))
    ensures res.Some? ==>
      var now := if queue == null then 0 else old(queue.now);
      && DbOf(store, queue) == ScannedDb(lib, old(DbOf(store, queue)), entries, queue != null, now, stuck)
      && res.value == ScanTally(lib, old(DbOf(store, queue)), entries, queue != null, now, stuck)
  {
    if listFails {
      return None;
    }
    var refs := store.ListEbookRefs(lib);
    var byPath := IndexByPath(refs);
    SameIndex(byPath, LiveRefs(store.rows, lib));
    RefIdsDistinct(store.rows, lib, refs);
    ghost var db := DbOf(store, queue);
    var w := new Walker(lib, byPath, store, queue);
    assert w.State() == Start(db);
    w.Run(refs, entries, stuck);
    UnseenAsSet(byPath, refs, Swept(w.Fixed(), Start(db), entries).seen, stuck);
    res := Some(w.res);
  }

  lemma {:induction false} SweptDeletesNothing(f: Frame, s: Sweep, entries: seq<Entry>)
    ensures Swept(f, s, entries).tally.deleted == s.tally.deleted
  {
    if entries != [] {
      SweptDeletesNothing(f, s, entries[..|entries| - 1]);
    }
  }

  lemma RefIdsDistinct(rows: Rows, lib: int, refs: seq<Ref>)
    requires UniqueIds(rows) && (set r | r in refs) == LiveRefs(rows, lib).Values
    requires forall i, j | 0 <= i < j < |refs| :: refs[i].path != refs[j].path
    ensures forall i, j | 0 <= i < j < |refs| :: refs[i].id != refs[j].id
  {
    forall i | 0 <= i < |refs|
      ensures Key(lib, refs[i].path) in rows && rows[Key(lib, refs[i].path)].id == refs[i].id
    {
      assert refs[i] in LiveRefs(rows, lib).Values;
    }
  }

  lemma UnseenAsSet(byPath: map<string, Ref>, refs: seq<Ref>, seen: set<string>, stuck: set<string>)
    requires byPath.Values == set r | r in refs
    ensures Unseen(byPath, seen, stuck) == Doomed(refs, seen, stuck)
  {
    forall r | r in refs ensures exists p :: p in byPath && byPath[p] == r {
      assert r in byPath.Values;
    }
    forall p | p in byPath ensures byPath[p] in refs {
      assert byPath[p] in byPath.Values;
    }
  }
}
