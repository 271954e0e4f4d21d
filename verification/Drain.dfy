/** EnrichmentWorker.Drain: the loop one drain runs against the shared queue
    while other drains work on the same table. */
module Drain {
  import opened Collections
  import opened JobQueue
  import P = LeaseProtocol

  const MAX_CLAIM_FAILURES := 5

  datatype ClaimFate = Served(locked: set<string>) | Transient | ContextFault
  datatype ProcessFate = Enriched | JobError(text: string) | ContextError

  /** Everything the surroundings decide in one turn of the loop. */
  datatype Moment = Moment(
    ctxDone: bool,
    claim: ClaimFate,
    ctxDoneInBackoff: bool,
    process: ProcessFate,
    ctxDoneAfter: bool,
    finisherLost: bool)

  /** The surroundings of one turn. */
  function At(plan: nat -> Moment, turn: nat): Moment { plan(turn) }

  /** Why a drain ended. A deadline of one upstream request ends it too, while
      its own context is still live. */
  datatype Stop = QueueEmpty | ContextDone | RequestDeadline | ClaimsFailing

  /** The error a caller sees: a RequestDeadline is reported as success. */
  predicate ReportsSuccess(stop: Stop) {
    stop.QueueEmpty? || stop.RequestDeadline?
  }

  datatype Entry = Entry(job: Job, at: int, turn: nat)

  // ---- what other drains may do meanwhile ------------------------------------

  predicate RowActed(r: Row, later: Row, now: int) {
    || later == r
    || (r.status.Pending? && !later.status.Pending?)
    || (r.status.Pending? && later.attempts >= r.attempts && later.runAfter >= now + SHORTEST_DELAY)
  }

  /** Claims, finishes, crashes, library deletions and the passing of time:
      everything but (re-)arming. */
  predicate OthersActed(t: Table, now: int, t': Table, now': int) {
    && now <= now'
    && t'.Keys <= t.Keys
    && forall id | id in t' :: RowActed(t[id], t'[id], now)
  }

  predicate Started(s: P.State) {
    forall w | w in s.workers :: s.workers[w].job.attempts >= 1
  }

  predicate Arming(e: P.Event) { e.Enqueue? || e.Backfill? }

  lemma OthersStep(s: P.State, e: P.Event)
    requires P.Enabled(s, e) && Started(s) && !Arming(e)
    ensures var t := P.Apply(s, e); Started(t) && OthersActed(s.jobs, s.now, t.jobs, t.now)
  {
    if e.Fail? {
      var a := s.workers[e.w].job.attempts;
      if a < MAX_ATTEMPTS {
        BackoffRange(a);
      }
    }
  }

  /** Any run of other workers that arms nothing is such an interference. */
  lemma {:induction false} OthersRun(states: seq<P.State>, es: seq<P.Event>, n: nat)
    requires P.IsRun(states, es) && n <= |es| && Started(states[0])
    requires forall i | 0 <= i < n :: !Arming(es[i])
    ensures Started(states[n])
    ensures OthersActed(states[0].jobs, states[0].now, states[n].jobs, states[n].now)
  {
    if n > 0 {
      OthersRun(states, es, n - 1);
      OthersStep(states[n - 1], es[n - 1]);
      var t, t1, t2 := states[0].jobs, states[n - 1].jobs, states[n].jobs;
      forall id | id in t2 ensures RowActed(t[id], t2[id], states[0].now) {
        assert RowActed(t[id], t1[id], states[0].now);
        assert RowActed(t1[id], t2[id], states[n - 1].now);
      }
    }
  }

  /** The other drains take their turns; callers only know what OthersActed
      says, and that nothing happens while this drain is alone. */
  method OthersAct(q: Queue, alone: bool)
    modifies q
    ensures OthersActed(old(q.jobs), old(q.now), q.jobs, q.now)
    ensures alone ==> q.jobs == old(q.jobs) && q.now == old(q.now)
  {
  }

  // ---- the amount of work left -------------------------------------------------

  ghost function RowWork(t: Table, id: string): nat {
    if id !in t || !t[id].status.Pending? then 0
    else if t[id].attempts < MAX_ATTEMPTS then MAX_ATTEMPTS - t[id].attempts
    else 1
  }

  ghost function Work(t: Table): nat {
    Sum(t.Keys, id => RowWork(t, id))
  }

  lemma WorkShrinks(t: Table, now: int, t': Table, now': int)
    requires OthersActed(t, now, t', now')
    ensures Work(t') <= Work(t)
  {
    forall id | id in t' ensures RowWork(t', id) <= RowWork(t, id) {
      assert RowActed(t[id], t'[id], now);
    }
    SumShrinks(t'.Keys, id => RowWork(t', id), t.Keys, id => RowWork(t, id));
  }

  lemma WorkDrops(t: Table, t': Table, id: string)
    requires t'.Keys <= t.Keys && id in t && RowWork(t', id) < RowWork(t, id)
    requires forall x | x in t' :: RowWork(t', x) <= RowWork(t, x)
    ensures Work(t') < Work(t)
  {
    SumDrops(t'.Keys, x => RowWork(t', x), t.Keys, x => RowWork(t, x), id);
  }

  /** One whole turn: claim at now, others act, then the finisher. */
  function Finished(m: Moment, t: Table, now: int, job: Job): Table {
    if m.finisherLost then t
    else match m.process
      case Enriched => CompletedBy(t, now, job.id)
      case JobError(text) => FailedBy(t, now, job.id, job.attempts, text)
      case ContextError => t
  }

  /** The turn after a successful claim ends the drain. */
  predicate Halts(m: Moment) {
    m.process.ContextError? || (m.process.JobError? && m.ctxDoneAfter)
  }

  /** The table after one turn of a drain that is alone, and after a whole log. */
  function Turned(t: Table, now: int, m: Moment, job: Job): Table {
    if job.id !in t then t
    else if Halts(m) then Claimed(t, now, job.id)
    else Finished(m, Claimed(t, now, job.id), now, job)
  }

  function Replayed(t: Table, now: int, log: seq<Entry>, plan: nat -> Moment): Table {
    if log == [] then t
    else
      var last := log[|log| - 1];
      Turned(Replayed(t, now, log[..|log| - 1], plan), now, At(plan, last.turn), last.job)
  }

  lemma TurnDoesWork(t: Table, now: int, id: string, t1: Table, now1: int, m: Moment)
    requires Due(t, now, id)
    requires OthersActed(Claimed(t, now, id), now, t1, now1)
    requires !m.finisherLost && !m.process.ContextError?
    ensures Work(Finished(m, t1, now1, Job(id, t[id].attempts + 1))) < Work(t)
  {
    var t2 := Finished(m, t1, now1, Job(id, t[id].attempts + 1));
    var c := Claimed(t, now, id);
    forall x | x in t2 ensures RowWork(t2, x) <= RowWork(t, x) {
      assert RowActed(c[x], t1[x], now);
    }
    if id in t1 {
      assert RowActed(c[id], t1[id], now);
    }
    WorkDrops(t, t2, id);
  }

  /** The finisher that this turn ends with settles the job for good. */
  predicate Settles(m: Moment, attempts: nat) {
    !m.finisherLost && (m.process.Enriched? || (m.process.JobError? && !m.ctxDoneAfter && attempts >= MAX_ATTEMPTS))
  }

  // ---- the log of a drain ----------------------------------------------------------

  predicate Apart(a: Entry, b: Entry) {
    a.job.id == b.job.id ==> b.at >= a.at + SHORTEST_DELAY
  }

  predicate Rests(e: Entry, t: Table) {
    e.job.id in t && t[e.job.id].status.Pending? ==> t[e.job.id].runAfter >= e.at + SHORTEST_DELAY
  }

  predicate IsSettled(e: Entry, t: Table, plan: nat -> Moment) {
    Settles(At(plan, e.turn), e.job.attempts) && e.job.id in t ==> !t[e.job.id].status.Pending?
  }

  predicate Within(e: Entry, from: int, to: int) {
    from <= e.at <= to && e.job.attempts >= 1
  }

  /** Claims of the same job are at least two minutes apart. */
  predicate Spaced(log: seq<Entry>) {
    forall i, j {:trigger Apart(log[i], log[j])} | 0 <= i < j < |log| :: Apart(log[i], log[j])
  }

  /** Nothing in the log can be due again before its two minutes are over. */
  predicate Resting(log: seq<Entry>, t: Table) {
    forall k {:trigger Rests(log[k], t)} | 0 <= k < |log| :: Rests(log[k], t)
  }

  /** What was finished for good is not pending. */
  predicate Settled(log: seq<Entry>, t: Table, plan: nat -> Moment) {
    forall k {:trigger IsSettled(log[k], t, plan)} | 0 <= k < |log| :: IsSettled(log[k], t, plan)
  }

  predicate LogIn(log: seq<Entry>, from: int, to: int) {
    forall k {:trigger Within(log[k], from, to)} | 0 <= k < |log| :: Within(log[k], from, to)
  }

  /** What holds of a drain's log between two turns. */
  ghost predicate Orderly(log: seq<Entry>, plan: nat -> Moment, from: int, t: Table, now: int) {
    from <= now && LogIn(log, from, now) && Spaced(log) && Resting(log, t) && Settled(log, t, plan)
  }

  /** Interference keeps a log resting, and a settled part of it settled. */
  lemma OthersKeepLog(log: seq<Entry>, done: seq<Entry>, plan: nat -> Moment, from: int, t: Table, now: int, t': Table, now': int)
    requires OthersActed(t, now, t', now') && LogIn(log, from, now)
    requires Resting(log, t) && Settled(done, t, plan)
    ensures LogIn(log, from, now') && Resting(log, t') && Settled(done, t', plan)
  {
    forall k | 0 <= k < |log| ensures Within(log[k], from, now') && Rests(log[k], t') {
      assert Within(log[k], from, now) && Rests(log[k], t);
      if log[k].job.id in t' {
        assert RowActed(t[log[k].job.id], t'[log[k].job.id], now);
      }
    }
    forall k | 0 <= k < |done| ensures IsSettled(done[k], t', plan) {
      assert IsSettled(done[k], t, plan);
      if done[k].job.id in t' {
        assert RowActed(t[done[k].job.id], t'[done[k].job.id], now);
      }
    }
  }

  lemma ClaimKeepsLog(log: seq<Entry>, plan: nat -> Moment, from: int, t: Table, now: int, e: Entry)
    requires Orderly(log, plan, from, t, now) && Due(t, now, e.job.id)
    requires e.at == now && e.job.attempts == t[e.job.id].attempts + 1
    ensures LogIn(log + [e], from, now) && Spaced(log + [e])
    ensures Resting(log + [e], Claimed(t, now, e.job.id)) && Settled(log, Claimed(t, now, e.job.id), plan)
  {
    var log', t' := log + [e], Claimed(t, now, e.job.id);
    forall k | 0 <= k < |log'| ensures Within(log'[k], from, now) && Rests(log'[k], t') {
      if k < |log| {
        assert log'[k] == log[k] && Within(log[k], from, now) && Rests(log[k], t);
      }
    }
    forall k | 0 <= k < |log| ensures IsSettled(log[k], t', plan) {
      assert IsSettled(log[k], t, plan);
    }
    forall i, j | 0 <= i < j < |log'| ensures Apart(log'[i], log'[j]) {
      assert log'[i] == log[i] && Rests(log[i], t);
      if j < |log| {
        assert log'[j] == log[j] && Apart(log[i], log[j]);
      }
    }
  }

  lemma FinishKeepsLog(log: seq<Entry>, e: Entry, plan: nat -> Moment, from: int, t: Table, now: int)
    requires Resting(log + [e], t) && Settled(log, t, plan) && LogIn(log + [e], from, now)
    ensures var t' := Finished(At(plan, e.turn), t, now, e.job);
      Resting(log + [e], t') && Settled(log + [e], t', plan)
  {
    var t', log' := Finished(At(plan, e.turn), t, now, e.job), log + [e];
    assert log'[|log|] == e && Within(log'[|log|], from, now);
    if e.job.attempts < MAX_ATTEMPTS {
      BackoffRange(e.job.attempts);
    }
    forall k | 0 <= k < |log'| ensures Rests(log'[k], t') && IsSettled(log'[k], t', plan) {
      assert Within(log'[k], from, now) && Rests(log'[k], t);
      if k < |log| {
        assert log'[k] == log[k] && IsSettled(log[k], t, plan);
      }
    }
  }

  /** Drain's turn after a successful claim: process the job, then finish it.
      Before names the table as the finisher found it. */
  method WorkOn(q: Queue, m: Moment, job: Job, alone: bool) returns (stop: Option<Stop>, ghost before: Table)
    modifies q
    ensures OthersActed(old(q.jobs), old(q.now), before, q.now)
    ensures alone ==> before == old(q.jobs) && q.now == old(q.now)
    ensures stop.Some? <==> Halts(m)
    ensures stop.Some? ==> q.jobs == before && stop.value == if m.ctxDoneAfter then ContextDone else RequestDeadline
    ensures stop.None? ==> q.jobs == Finished(m, before, q.now, job)
    ensures stop.None? && m.finisherLost ==> q.jobs == before
    ensures stop.None? && !m.finisherLost ==>
      FinishLeft(before, q.jobs, q.now, job.id, if m.process.JobError? then Some(m.process.text) else None, job.attempts)
  {
    OthersAct(q, alone);
    before := q.jobs;
    if m.process.ContextError? || (m.process.JobError? && m.ctxDoneAfter) {
      return Some(if m.ctxDoneAfter then ContextDone else RequestDeadline), before;
    }
    stop := None;
    if !m.finisherLost {
      if m.process.JobError? {
        q.MarkFailed(job.id, job.attempts, m.process.text);
      } else {
        q.MarkCompleted(job.id);
      }
    }
  }

  /** In particular a drain shorter than two minutes claims each job at most once. */
  lemma ShortDrainClaimsOnce(log: seq<Entry>, plan: nat -> Moment, from: int, t: Table, now: int, i: nat, j: nat)
    requires Orderly(log, plan, from, t, now) && now - from < SHORTEST_DELAY
    requires i < j < |log|
    ensures log[i].job.id != log[j].job.id
  {
    assert Apart(log[i], log[j]) && Within(log[i], from, now) && Within(log[j], from, now);
  }

  lemma OrderlyMeanwhile(log: seq<Entry>, plan: nat -> Moment, from: int, t: Table, now: int, t': Table, now': int)
    requires Orderly(log, plan, from, t, now) && OthersActed(t, now, t', now')
    ensures Orderly(log, plan, from, t', now') && Work(t') <= Work(t)
  {
    OthersKeepLog(log, log, plan, from, t, now, t', now');
    WorkShrinks(t, now, t', now');
  }

  /** A turn that claimed id at now and ended with the table t2 at now2. */
  lemma OrderlyTurn(log: seq<Entry>, plan: nat -> Moment, from: int, t: Table, now: int, e: Entry,
                    before: Table, now2: int, halted: bool)
    requires Orderly(log, plan, from, t, now) && Due(t, now, e.job.id)
    requires e.at == now && e.job.attempts == t[e.job.id].attempts + 1
    requires OthersActed(Claimed(t, now, e.job.id), now, before, now2)
    requires halted == Halts(At(plan, e.turn))
    ensures var t2 := if halted then before else Finished(At(plan, e.turn), before, now2, e.job);
      && Orderly(log + [e], plan, from, t2, now2)
      && (!halted && !At(plan, e.turn).finisherLost ==> Work(t2) < Work(t))
  {
    ClaimKeepsLog(log, plan, from, t, now, e);
    OthersKeepLog(log + [e], log, plan, from, Claimed(t, now, e.job.id), now, before, now2);
    if halted {
      forall k | 0 <= k < |log + [e]| ensures IsSettled((log + [e])[k], before, plan) {
        assert k < |log| ==> (log + [e])[k] == log[k] && IsSettled(log[k], before, plan);
      }
    } else {
      FinishKeepsLog(log, e, plan, from, before, now2);
      if !At(plan, e.turn).finisherLost {
        TurnDoesWork(t, now, e.job.id, before, now2, At(plan, e.turn));
      }
    }
  }

  /** The due rows that a claim could take. */
  function Takeable(t: Table, now: int, claim: ClaimFate): set<string> {
    if claim.Served? then set id | id in t && Due(t, now, id) && id !in claim.locked else {}
  }

  /** One served turn of the loop: claim, work, finish. No entry means that
      the queue had nothing due. */
  method ServeOne(q: Queue, m: Moment, turn: nat, alone: bool, ghost log: seq<Entry>, ghost plan: nat -> Moment, ghost start: int)
    returns (halt: Option<Stop>, entry: Option<Entry>)
    requires m.claim.Served? && m == At(plan, turn)
    requires Orderly(log, plan, start, q.jobs, q.now)
    modifies q
    ensures entry.None? ==>
      && q.jobs == old(q.jobs) && q.now == old(q.now) && halt == Some(QueueEmpty)
      && Takeable(q.jobs, q.now, m.claim) == {}
    ensures entry.Some? ==>
      && entry.value.turn == turn
      && Orderly(log + [entry.value], plan, start, q.jobs, q.now)
      && (halt.None? && !m.finisherLost ==> Work(q.jobs) < Work(old(q.jobs)))
      && (halt.Some? <==> Halts(m))
      && (halt.Some? ==> halt.value == if m.ctxDoneAfter then ContextDone else RequestDeadline)
      && IsNext(old(q.jobs), old(q.now), m.claim.locked, entry.value.job.id)
      && entry.value.job.attempts == old(q.jobs)[entry.value.job.id].attempts + 1
      && (alone ==> q.now == old(q.now) && q.jobs == Turned(old(q.jobs), old(q.now), m, entry.value.job))
  {
    var claimed := q.ClaimNext(m.claim.locked);
    if claimed.None? {
      return Some(QueueEmpty), None;
    }
    var e := Entry(claimed.value, q.now, turn);
    ghost var before;
    halt, before := WorkOn(q, m, claimed.value, alone);
    OrderlyTurn(log, plan, start, old(q.jobs), old(q.now), e, before, q.now, halt.Some?);
    entry := Some(e);
  }

  // ---- the loop --------------------------------------------------------------------

  /** Nothing in this turn ends the drain, unless the queue is empty or it is
      the fifth failing claim in a row. */
  predicate Goes(m: Moment) {
    && !m.ctxDone && !m.claim.ContextFault?
    && (m.claim.Transient? ==> !m.ctxDoneInBackoff)
    && (m.claim.Served? ==> !Halts(m))
  }

  /** The last five claims failed. */
  predicate FifthFailure(plan: nat -> Moment, last: nat) {
    last + 1 >= MAX_CLAIM_FAILURES && forall i: nat | last - MAX_CLAIM_FAILURES < i <= last :: At(plan, i).claim.Transient?
  }

  /** The last turn claimed a job. */
  predicate EndsInLog(log: seq<Entry>, last: nat) {
    |log| > 0 && log[|log| - 1].turn == last
  }

  function Before(log: seq<Entry>, last: nat): seq<Entry> {
    if EndsInLog(log, last) then log[..|log| - 1] else log
  }

  /** These turns all went on, and the log has exactly one entry for each that
      was served, in order. */
  predicate WentOn(log: seq<Entry>, plan: nat -> Moment, turns: nat) {
    if turns == 0 then log == []
    else
      && Goes(At(plan, turns - 1))
      && if At(plan, turns - 1).claim.Served?
         then EndsInLog(log, turns - 1) && WentOn(log[..|log| - 1], plan, turns - 1)
         else WentOn(log, plan, turns - 1)
  }

  lemma {:induction false} WentOnGoes(log: seq<Entry>, plan: nat -> Moment, turns: nat, i: nat)
    requires WentOn(log, plan, turns) && i < turns
    ensures Goes(At(plan, i))
  {
    if i < turns - 1 {
      WentOnGoes(if At(plan, turns - 1).claim.Served? then log[..|log| - 1] else log, plan, turns - 1, i);
    }
  }

  lemma {:induction false} WentOnLog(log: seq<Entry>, plan: nat -> Moment, turns: nat)
    requires WentOn(log, plan, turns)
    ensures forall k | 0 <= k < |log| :: log[k].turn < turns
  {
    if turns > 0 {
      WentOnLog(if At(plan, turns - 1).claim.Served? then log[..|log| - 1] else log, plan, turns - 1);
    }
  }

  /** Why a drain stopped in its last turn, exactly. */
  predicate Because(stop: Stop, log: seq<Entry>, plan: nat -> Moment, last: nat) {
    var m := At(plan, last);
    && (stop.QueueEmpty? <==> !m.ctxDone && m.claim.Served? && !EndsInLog(log, last))
    && (stop.RequestDeadline? <==> EndsInLog(log, last) && m.process.ContextError? && !m.ctxDoneAfter)
    && (stop.ClaimsFailing? <==> !m.ctxDone && FifthFailure(plan, last))
    && (stop.ContextDone? <==>
          || m.ctxDone || m.claim.ContextFault? || (EndsInLog(log, last) && m.ctxDoneAfter)
          || (m.claim.Transient? && m.ctxDoneInBackoff && !FifthFailure(plan, last)))
  }

  lemma ServedGoesOn(log: seq<Entry>, e: Entry, plan: nat -> Moment, turns: nat)
    requires WentOn(log, plan, turns) && Goes(At(plan, turns)) && At(plan, turns).claim.Served? && e.turn == turns
    ensures WentOn(log + [e], plan, turns + 1)
  {
    assert (log + [e])[..|log|] == log;
  }

  lemma ReplayedNext(t: Table, now: int, log: seq<Entry>, e: Entry, plan: nat -> Moment)
    ensures Replayed(t, now, log + [e], plan) == Turned(Replayed(t, now, log, plan), now, At(plan, e.turn), e.job)
  {
    assert (log + [e])[..|log|] == log;
  }

  /** consecFail counts the failing claims at the end, all of them. */
  predicate Failing(plan: nat -> Moment, turns: nat, consecFail: nat) {
    && consecFail <= turns && consecFail < MAX_CLAIM_FAILURES
    && (forall i: nat | turns - consecFail <= i < turns :: At(plan, i).claim.Transient?)
    && (consecFail < turns ==> !At(plan, turns - 1 - consecFail).claim.Transient?)
  }

  lemma FailingNext(plan: nat -> Moment, turns: nat, consecFail: nat)
    requires Failing(plan, turns, consecFail)
    ensures FifthFailure(plan, turns) <==> At(plan, turns).claim.Transient? && consecFail + 1 == MAX_CLAIM_FAILURES
    ensures At(plan, turns).claim.Transient? && consecFail + 1 < MAX_CLAIM_FAILURES ==> Failing(plan, turns + 1, consecFail + 1)
    ensures !At(plan, turns).claim.Transient? ==> Failing(plan, turns + 1, 0)
  {
    assert FifthFailure(plan, turns) ==> At(plan, turns).claim.Transient?;
  }

  /** A drain that is alone serves the due jobs in the order of the queue. */
  predicate InOrder(t: Table, now: int, log: seq<Entry>, plan: nat -> Moment) {
    log == [] || (
      var front, last := log[..|log| - 1], log[|log| - 1];
      && InOrder(t, now, front, plan) && At(plan, last.turn).claim.Served?
      && last.job.id in Replayed(t, now, front, plan)
      && last.job.attempts == Replayed(t, now, front, plan)[last.job.id].attempts + 1
      && IsNext(Replayed(t, now, front, plan), now, At(plan, last.turn).claim.locked, last.job.id))
  }

  function Extended(log: seq<Entry>, last: Option<Entry>): seq<Entry> {
    if last.Some? then log + [last.value] else log
  }

  /** What is known of a drain between two turns. */
  ghost predicate Draining(log: seq<Entry>, plan: nat -> Moment, from: int, t0: Table, t: Table, now: int, alone: bool) {
    match alone
    case true => Orderly(log, plan, from, t, now) && now == from && t == Replayed(t0, from, log, plan) && InOrder(t0, from, log, plan)
    case false => Orderly(log, plan, from, t, now)
  }

  /** The job the last turn claimed, if any, comes after the turns that went on. */
  lemma LastTurn(log: seq<Entry>, last: Option<Entry>, plan: nat -> Moment, turns: nat)
    requires WentOn(log, plan, turns) && (last.Some? ==> last.value.turn == turns)
    ensures EndsInLog(Extended(log, last), turns) <==> last.Some?
    ensures WentOn(Before(Extended(log, last), turns), plan, turns)
  {
    WentOnLog(log, plan, turns);
    if last.Some? {
      assert (log + [last.value])[..|log|] == log;
    }
  }

  /** The claim half of a turn: None goes on to serve a job. */
  method TryClaim(m: Moment, consecFail: nat) returns (halt: Option<Stop>, fails: nat)
    requires consecFail < MAX_CLAIM_FAILURES
    ensures halt.Some? <==>
      m.ctxDone || m.claim.ContextFault? || (m.claim.Transient? && (consecFail + 1 == MAX_CLAIM_FAILURES || m.ctxDoneInBackoff))
    ensures halt.Some? ==>
      halt.value == if !m.ctxDone && m.claim.Transient? && consecFail + 1 == MAX_CLAIM_FAILURES then ClaimsFailing else ContextDone
    ensures fails == if m.claim.Transient? then consecFail + 1 else 0
  {
    fails := if m.claim.Transient? then consecFail + 1 else 0;
    if m.ctxDone || m.claim.ContextFault? {
      return Some(ContextDone), fails;
    }
    if m.claim.Transient? {
      if fails >= MAX_CLAIM_FAILURES {
        return Some(ClaimsFailing), fails;
      }
      if m.ctxDoneInBackoff {
        return Some(ContextDone), fails;
      }
    }
    halt := None;
  }

  /** How the two halves of a turn came out. */
  predicate Turn(m: Moment, consecFail: nat, halt: Option<Stop>, entry: Option<Entry>) {
    if m.ctxDone || m.claim.ContextFault? then halt == Some(ContextDone) && entry.None?
    else if m.claim.Transient? then
      entry.None? &&
      halt == if consecFail + 1 == MAX_CLAIM_FAILURES then Some(ClaimsFailing)
              else if m.ctxDoneInBackoff then Some(ContextDone) else None
    else if entry.None? then halt == Some(QueueEmpty)
    else halt == if !Halts(m) then None else if m.ctxDoneAfter then Some(ContextDone) else Some(RequestDeadline)
  }

  /** So the drain went on, or stopped for the reason there was. */
  lemma Verdict(log: seq<Entry>, plan: nat -> Moment, turn: nat, consecFail: nat, halt: Option<Stop>, entry: Option<Entry>)
    requires Failing(plan, turn, consecFail) && WentOn(log, plan, turn)
    requires Turn(At(plan, turn), consecFail, halt, entry) && (entry.Some? ==> entry.value.turn == turn)
    ensures halt.None? ==>
      && Failing(plan, turn + 1, if At(plan, turn).claim.Transient? then consecFail + 1 else 0)
      && WentOn(Extended(log, entry), plan, turn + 1)
    ensures halt.Some? ==>
      && WentOn(Before(Extended(log, entry), turn), plan, turn)
      && Because(halt.value, Extended(log, entry), plan, turn)
  {
    FailingNext(plan, turn, consecFail);
    LastTurn(log, entry, plan, turn);
    if halt.None? && entry.Some? {
      ServedGoesOn(log, entry.value, plan, turn);
    }
  }

  lemma DrainingOn(log: seq<Entry>, e: Entry, plan: nat -> Moment, from: int, t0: Table,
                   t: Table, t': Table, now: int, now': int, alone: bool)
    requires Draining(log, plan, from, t0, t, now, alone) && Orderly(log + [e], plan, from, t', now')
    requires At(plan, e.turn).claim.Served? && IsNext(t, now, At(plan, e.turn).claim.locked, e.job.id)
    requires e.job.attempts == t[e.job.id].attempts + 1
    requires alone ==> now' == now && t' == Turned(t, now, At(plan, e.turn), e.job)
    ensures Draining(log + [e], plan, from, t0, t', now', alone)
  {
    ReplayedNext(t0, from, log, e, plan);
    assert (log + [e])[..|log|] == log;
  }

  /** One turn of the loop. */
  method TakeTurn(q: Queue, plan: nat -> Moment, turn: nat, consecFail: nat, alone: bool,
                  ghost log: seq<Entry>, ghost from: int, ghost t0: Table, ghost work: nat)
    returns (ok: bool, halt: Option<Stop>, entry: Option<Entry>, fails: nat, ghost left: nat)
    requires work == Work(q.jobs)
    requires Failing(plan, turn, consecFail) && WentOn(log, plan, turn)
    requires Draining(log, plan, from, t0, q.jobs, q.now, alone)
    modifies q
    ensures Draining(Extended(log, entry), plan, from, t0, q.jobs, q.now, alone)
    ensures halt.None? ==> Failing(plan, turn + 1, fails) && WentOn(Extended(log, entry), plan, turn + 1)
    ensures halt.Some? ==>
      && WentOn(Before(Extended(log, entry), turn), plan, turn)
      && Because(halt.value, Extended(log, entry), plan, turn)
    ensures halt.Some? && halt.value.QueueEmpty? ==> Takeable(q.jobs, q.now, At(plan, turn).claim) == {}
    ensures left == Work(q.jobs)
    ensures entry.None? ==> left <= work && (halt.None? ==> fails > consecFail)
    ensures entry.Some? && halt.None? && !At(plan, turn).finisherLost ==> left < work
    ensures halt.Some? ==> (ok <==> ReportsSuccess(halt.value))
    ensures halt.Some? && entry.Some? ==> halt.value.ContextDone? || halt.value.RequestDeadline?
  {
    ghost var t1, now1 := q.jobs, q.now;
    OthersAct(q, alone);
    OrderlyMeanwhile(log, plan, from, t1, now1, q.jobs, q.now);
    var m := At(plan, turn);
    halt, fails := TryClaim(m, consecFail);
    entry := None;
    if halt.None? && !m.claim.Transient? {
      ghost var t2, now2 := q.jobs, q.now;
      halt, entry := ServeOne(q, m, turn, alone, log, plan, from);
      if entry.Some? {
        DrainingOn(log, entry.value, plan, from, t0, t2, q.jobs, now2, q.now, alone);
      }
    }
    ok := halt.Some? && (halt.value.QueueEmpty? || (entry.Some? && !m.ctxDoneAfter));
    left := Work(q.jobs);
    Verdict(log, plan, turn, consecFail, halt, entry);
  }

  // ---- what each turn leaves behind ----------------------------------------------------

  /** The table t' after a turn that claimed e at now from t, column by column. A
      turn that stops the drain, or whose finisher is lost, leaves the lease. */
  predicate TurnLeft(t: Table, t': Table, now: int, e: Entry, m: Moment) {
    var id, failed := e.job.id, m.process.JobError?;
    && id in t && id in t' && OthersUntouched(t, t', {id})
    && e.job.attempts == t[id].attempts + 1 == t'[id].attempts
    && if m.finisherLost || m.process.ContextError? || (failed && m.ctxDoneAfter) then
         t'[id] == Row(Pending, t[id].attempts + 1, now + 300, t[id].lastError, t[id].finishedAt)
       else
         && (t'[id].status == Completed <==> m.process.Enriched?)
         && (t'[id].status == Failed <==> failed && e.job.attempts >= 5)
         && (t'[id].status == Pending <==> failed && e.job.attempts < 5)
         && t'[id].lastError == (if failed then m.process.text else "")
         && (t'[id].status == Pending ==>
               t'[id].runAfter == now + [60, 120, 240, 480, 960][e.job.attempts] && t'[id].finishedAt == t[id].finishedAt)
         && (t'[id].status != Pending ==> t'[id].finishedAt == Some(now))
  }

  lemma TurnedLeaves(t: Table, now: int, m: Moment, e: Entry)
    requires Due(t, now, e.job.id) && e.job.attempts == t[e.job.id].attempts + 1
    ensures TurnLeft(t, Turned(t, now, m, e.job), now, e, m)
  {
    BackoffTable(e.job.attempts);
  }

  /** The tables of a drain that is alone: the first as it began, one after each
      logged turn. */
  ghost predicate History(tables: seq<Table>, now: int, log: seq<Entry>, plan: nat -> Moment) {
    && |tables| == |log| + 1
    && forall k {:trigger TurnTaken(tables, now, log, plan, k)} | 0 <= k < |log| :: TurnTaken(tables, now, log, plan, k)
  }

  /** Turn k took the first due job that was free, and left what it should. */
  predicate TurnTaken(tables: seq<Table>, now: int, log: seq<Entry>, plan: nat -> Moment, k: nat)
    requires k < |log| && |tables| == |log| + 1
  {
    var m := At(plan, log[k].turn);
    && m.claim.Served? && EarliestDue(tables[k], now, m.claim.locked, log[k].job.id)
    && TurnLeft(tables[k], tables[k + 1], now, log[k], m)
  }

  lemma {:induction false} Recall(t: Table, now: int, log: seq<Entry>, plan: nat -> Moment) returns (tables: seq<Table>)
    requires InOrder(t, now, log, plan)
    ensures History(tables, now, log, plan) && tables[0] == t && tables[|log|] == Replayed(t, now, log, plan)
  {
    if log == [] {
      tables := [t];
    } else {
      var front, last := log[..|log| - 1], log[|log| - 1];
      var earlier := Recall(t, now, front, plan);
      TurnedLeaves(earlier[|front|], now, At(plan, last.turn), last);
      tables := earlier + [Replayed(t, now, log, plan)];
      forall k: nat | k < |log| ensures TurnTaken(tables, now, log, plan, k) {
        if k < |front| {
          assert TurnTaken(earlier, now, front, plan, k);
        }
      }
    }
  }

  lemma RecallAlone(log: seq<Entry>, plan: nat -> Moment, from: int, t0: Table, t: Table, now: int, alone: bool)
    returns (tables: seq<Table>)
    requires Draining(log, plan, from, t0, t, now, alone)
    ensures alone ==> History(tables, from, log, plan) && tables[0] == t0 && tables[|log|] == t
  {
    tables := [];
    if alone {
      tables := Recall(t0, from, log, plan);
    }
  }

  /** The loop of Drain: turn after turn, until one gives a reason to stop. */
  method TakeTurns(q: Queue, plan: nat -> Moment, alone: bool, ghost lossless: nat)
    returns (ok: bool, stop: Stop, last: nat, log: seq<Entry>)
    requires forall i: nat | i >= lossless :: !At(plan, i).finisherLost
    modifies q
    ensures WentOn(Before(log, last), plan, last) && Because(stop, log, plan, last)
    ensures ok <==> ReportsSuccess(stop)
    ensures stop.QueueEmpty? ==> Takeable(q.jobs, q.now, At(plan, last).claim) == {}
    ensures lossless == 0 ==> |log| <= Work(old(q.jobs)) + if stop.QueueEmpty? || stop.ClaimsFailing? then 0 else 1
    ensures Draining(log, plan, old(q.now), old(q.jobs), q.jobs, q.now, alone)
  {
    ghost var from, t0, all := q.now, q.jobs, Work(q.jobs);
    ghost var work := all;
    var consecFail := 0;
    log, last := [], 0;
    while true
      invariant Failing(plan, last, consecFail) && WentOn(log, plan, last)
      invariant Draining(log, plan, from, t0, q.jobs, q.now, alone)
      invariant work == Work(q.jobs) && (lossless == 0 ==> |log| + work <= all)
      decreases if last < lossless then lossless - last else 0, work, MAX_CLAIM_FAILURES - consecFail
    {
      var halt, entry, fails;
      ok, halt, entry, fails, work := TakeTurn(q, plan, last, consecFail, alone, log, from, t0, work);
      log := Extended(log, entry);
      if halt.Some? {
        stop := halt.value;
        return;
      }
      consecFail, last := fails, last + 1;
    }
  }

  /** Drain, with at most finitely many finisher statements lost: it always
      terminates, stops for the first reason there is, claims the same job at
      most once in two minutes, settles what it finished, and returns nil
      either on an empty queue or, unlike its documentation says, after the
      deadline of a single request. tables is what it went through, if alone. */
  method Drain(q: Queue, plan: nat -> Moment, alone: bool, ghost lossless: nat)
    returns (ok: bool, stop: Stop, last: nat, log: seq<Entry>, ghost tables: seq<Table>)
    requires forall i: nat | i >= lossless :: !At(plan, i).finisherLost
    modifies q
    ensures WentOn(Before(log, last), plan, last) && Because(stop, log, plan, last)
    ensures ok <==> ReportsSuccess(stop)
    ensures stop.QueueEmpty? ==> Takeable(q.jobs, q.now, At(plan, last).claim) == {}
    ensures lossless == 0 ==> |log| <= Work(old(q.jobs)) + if stop.QueueEmpty? || stop.ClaimsFailing? then 0 else 1
    ensures Draining(log, plan, old(q.now), old(q.jobs), q.jobs, q.now, alone)
    ensures alone ==> History(tables, old(q.now), log, plan) && tables[0] == old(q.jobs) && tables[|log|] == q.jobs
  {
    ok, stop, last, log := TakeTurns(q, plan, alone, lossless);
    tables := RecallAlone(log, plan, old(q.now), old(q.jobs), q.jobs, q.now, alone);
  }

  /** With the claim of the first due job served and its request running into a
      deadline of its own, a drain returns nil and leaves all other due jobs
      where they were. */
  method DeadlineLeavesWork(q: Queue, plan: nat -> Moment, left: string) returns (ok: bool, log: seq<Entry>)
    requires At(plan, 0).claim == Served({}) && At(plan, 0).process.ContextError? && !At(plan, 0).ctxDone && !At(plan, 0).ctxDoneAfter
    requires forall i: nat :: !At(plan, i).finisherLost
    requires Due(q.jobs, q.now, left) && !IsNext(q.jobs, q.now, {}, left)
    modifies q
    ensures ok && |log| == 1 && log[0].job.id != left
    ensures Due(q.jobs, q.now, left) && q.jobs[left] == old(q.jobs[left])
  {
    var stop, last;
    ghost var tables;
    ok, stop, last, log, tables := Drain(q, plan, true, 0);
    if last > 0 {
      WentOnGoes(Before(log, last), plan, last, 0);
    }
  }
}
