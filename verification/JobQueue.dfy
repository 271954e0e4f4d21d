/** The metadata_enrichment_job table: a work queue whose claims are leases.
    Times are seconds on the one database clock. */
module JobQueue {
  import opened Collections
  import Text

  const MAX_ATTEMPTS := 5
  const LEASE := 300
  const SHORTEST_DELAY := 120

  datatype Status = Pending | Completed | Failed

  datatype Row = Row(
    status: Status,
    attempts: nat,
    runAfter: int,
    lastError: string,
    finishedAt: Option<int>)

  datatype Job = Job(id: string, attempts: nat)

  type Table = map<string, Row>

  function Armed(now: int): Row {
    Row(Pending, 0, now, "", None)
  }

  predicate Due(t: Table, now: int, id: string) {
    id in t && t[id].status.Pending? && t[id].runAfter <= now
  }

  /** ORDER BY run_after, ebook_id. */
  predicate Precedes(t: Table, a: string, b: string)
    requires a in t && b in t
  {
    t[a].runAfter < t[b].runAfter || (t[a].runAfter == t[b].runAfter && Text.Before(a, b))
  }

  /** The row that FOR UPDATE SKIP LOCKED LIMIT 1 selects, when other
      transactions hold the rows in locked. */
  predicate IsNext(t: Table, now: int, locked: set<string>, id: string) {
    && Due(t, now, id) && id !in locked
    && forall other | other in t && Due(t, now, other) && other !in locked ::
         other == id || Precedes(t, id, other)
  }

  function Leased(r: Row, now: int): Row {
    r.(attempts := r.attempts + 1, runAfter := now + LEASE)
  }

  function Claimed(t: Table, now: int, id: string): Table
    requires id in t
  {
    t[id := Leased(t[id], now)]
  }

  function CompletedBy(t: Table, now: int, id: string): Table {
    if id in t && t[id].status.Pending? then
      t[id := t[id].(status := Completed, finishedAt := Some(now), lastError := "")]
    else t
  }

  /** 1 << attempts, in minutes. */
  function Backoff(attempts: nat): nat {
    if attempts == 0 then 60 else 2 * Backoff(attempts - 1)
  }

  function FailedBy(t: Table, now: int, id: string, attempts: nat, text: string): Table {
    if id !in t || !t[id].status.Pending? then t
    else if attempts >= MAX_ATTEMPTS then
      t[id := t[id].(status := Failed, finishedAt := Some(now), lastError := text)]
    else
      t[id := t[id].(runAfter := now + Backoff(attempts), lastError := text)]
  }

  /** What an admin backfill arms: live ebooks without a job or with a failed one. */
  function Stalled(t: Table, live: set<string>): set<string> {
    set id | id in live && (id !in t || t[id].status.Failed?)
  }

  function Rearmed(t: Table, now: int, ids: set<string>): Table {
    map id | id in t.Keys + ids :: if id in ids then Armed(now) else t[id]
  }

  /** A retry never waits less than two minutes, nor as long as a lease until
      the third attempt. */
  lemma BackoffRange(attempts: nat)
    requires 1 <= attempts < MAX_ATTEMPTS
    ensures SHORTEST_DELAY <= Backoff(attempts) <= 960
    ensures Backoff(attempts) < LEASE <==> attempts <= 2
  {
    assert Backoff(0) == 60 && Backoff(1) == 120 && Backoff(2) == 240;
    assert Backoff(3) == 480 && Backoff(4) == 960;
  }

  lemma BackoffTable(attempts: nat)
    ensures attempts < 5 ==> Backoff(attempts) == [60, 120, 240, 480, 960][attempts]
  {
    assert Backoff(0) == 60 && Backoff(1) == 120 && Backoff(2) == 240;
    assert Backoff(3) == 480 && Backoff(4) == 960;
  }

  // ---- the same in the columns of the table ------------------------------------------

  /** All rows but those of ids are as they were, and none came or went. */
  predicate OthersUntouched(t: Table, t': Table, ids: set<string>) {
    t.Keys - ids == t'.Keys - ids && forall id | id in t && id in t' && id !in ids :: t'[id] == t[id]
  }

  /** No due row that is free has an earlier time, or the same time and a smaller id. */
  predicate EarliestDue(t: Table, now: int, locked: set<string>, id: string) {
    && id in t && t[id].status == Pending && t[id].runAfter <= now && id !in locked
    && forall x | x in t && x != id && t[x].status == Pending && t[x].runAfter <= now && x !in locked ::
         t[id].runAfter < t[x].runAfter || (t[id].runAfter == t[x].runAfter && Text.Before(id, x))
  }

  /** What a finisher leaves of a table: without an error text the job is done;
      with one it is given up at five attempts, and before that it is due again
      after one, two, four, eight or sixteen minutes. */
  predicate FinishLeft(t: Table, t': Table, now: int, id: string, error: Option<string>, attempts: nat)
  {
    && OthersUntouched(t, t', {id})
    && (id in t' <==> id in t)
    && (id in t && t[id].status != Pending ==> t'[id] == t[id])
    && (id in t && t[id].status == Pending ==>
          && t'[id].attempts == t[id].attempts
          && (t'[id].status == Completed <==> error.None?)
          && (t'[id].status == Failed <==> error.Some? && attempts >= 5)
          && t'[id].lastError == (if error.Some? then error.value else "")
          && (if error.Some? && attempts < 5
              then t'[id].finishedAt == t[id].finishedAt && t'[id].runAfter == now + [60, 120, 240, 480, 960][attempts]
              else t'[id].finishedAt == Some(now) && t'[id].runAfter == t[id].runAfter))
  }

  /** Any non-empty set of rows has a first one. */
  lemma {:induction false} FirstExists(t: Table, among: set<string>) returns (first: string)
    requires among != {} && among <= t.Keys
    ensures first in among
    ensures forall other | other in among :: other == first || Precedes(t, first, other)
    decreases |among|
  {
    var x :| x in among;
    var rest := among - {x};
    assert forall other | other in among :: other == x || other in rest;
    if rest == {} {
      return x;
    }
    var best := FirstExists(t, rest);
    Text.BeforeTotal(best, x);
    if Precedes(t, best, x) {
      return best;
    }
    forall other | other in rest ensures Precedes(t, x, other) {
      if other != best && t[other].runAfter == t[x].runAfter {
        Text.BeforeTransitive(x, best, other);
      }
    }
    return x;
  }

  /** The selected row is unique: claims are served in one total order. */
  lemma NextUnique(t: Table, now: int, locked: set<string>, a: string, b: string)
    requires IsNext(t, now, locked, a) && IsNext(t, now, locked, b)
    ensures a == b
  {
    Text.BeforeTotal(a, b);
  }

  class Queue {
    var jobs: Table
    var now: int

    constructor (now: int)
      ensures jobs == map[] && this.now == now
    {
      jobs, this.now := map[], now;
    }

    /** Arms a job; the foreign key refuses ids that are no ebook. */
    method Enqueue(id: string, ebooks: set<string>) returns (ok: bool)
      modifies this`jobs
      ensures ok <==> id in ebooks
      ensures jobs == if ok then Rearmed(old(jobs), now, {id}) else old(jobs)
      ensures ok ==> id in jobs && jobs[id] == Row(Pending, 0, now, "", None)
      ensures OthersUntouched(old(jobs), jobs, {id})
    {
      ok := id in ebooks;
      if ok {
        jobs := jobs[id := Armed(now)];
        assert jobs == Rearmed(old(jobs), now, {id});
      }
    }

    method ClaimNext(locked: set<string>) returns (r: Option<Job>)
      modifies this`jobs
      ensures r.None? <==> forall id | id in old(jobs) && Due(old(jobs), now, id) :: id in locked
      ensures r.None? ==> jobs == old(jobs)
      ensures r.Some? ==>
        && IsNext(old(jobs), now, locked, r.value.id)
        && jobs == Claimed(old(jobs), now, r.value.id)
        && r.value.attempts == jobs[r.value.id].attempts
      ensures r.Some? ==>
        && EarliestDue(old(jobs), now, locked, r.value.id)
        && OthersUntouched(old(jobs), jobs, {r.value.id})
        && jobs[r.value.id] == old(jobs)[r.value.id].(attempts := old(jobs)[r.value.id].attempts + 1, runAfter := now + 300)
    {
      var due := set id | id in jobs && Due(jobs, now, id) && id !in locked;
      if due == {} {
        assert forall id | id in jobs && Due(jobs, now, id) && id !in locked :: id in due;
        return None;
      }
      ghost var first := FirstExists(jobs, due);
      assert IsNext(jobs, now, locked, first);
      var id :| id in due && IsNext(jobs, now, locked, id);
      var job := Job(id, jobs[id].attempts);
      jobs := jobs[id := jobs[id].(attempts := jobs[id].attempts + 1, runAfter := now + LEASE)];
      r := Some(job.(attempts := job.attempts + 1));
    }

    method MarkCompleted(id: string)
      modifies this`jobs
      ensures jobs == CompletedBy(old(jobs), now, id)
      ensures FinishLeft(old(jobs), jobs, now, id, None, 0)
    {
      if id in jobs && jobs[id].status == Pending {
        jobs := jobs[id := jobs[id].(status := Completed, finishedAt := Some(now), lastError := "")];
      }
    }

    method MarkFailed(id: string, attempts: nat, text: string)
      modifies this`jobs
      ensures jobs == FailedBy(old(jobs), now, id, attempts, text)
      ensures FinishLeft(old(jobs), jobs, now, id, Some(text), attempts)
    {
      BackoffTable(attempts);
      if id in jobs && jobs[id].status == Pending {
        if attempts >= MAX_ATTEMPTS {
          jobs := jobs[id := jobs[id].(status := Failed, finishedAt := Some(now), lastError := text)];
        } else {
          jobs := jobs[id := jobs[id].(runAfter := now + Backoff(attempts), lastError := text)];
        }
      }
    }

    /** INSERT ... SELECT ... ON CONFLICT DO UPDATE WHERE status = 'failed'. */
    method BulkEnqueueBackfill(live: set<string>) returns (affected: nat)
      modifies this`jobs
      ensures jobs == Rearmed(old(jobs), now, Stalled(old(jobs), live))
      ensures affected == |Stalled(old(jobs), live)|
      ensures forall id | id in live ::
        && id in jobs
        && jobs[id] == if id !in old(jobs) || old(jobs)[id].status.Failed? then Row(Pending, 0, now, "", None) else old(jobs)[id]
      ensures OthersUntouched(old(jobs), jobs, live)
    {
      var stalled := Stalled(jobs, live);
      affected := |stalled|;
      jobs := map id | id in jobs.Keys + stalled :: if id in stalled then Armed(now) else jobs[id];
    }
  }
}
