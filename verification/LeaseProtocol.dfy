/** Whole runs of the enrichment queue: any number of overlapping drains, each
    SQL transaction one step, with clock ticks, crashes, re-arming, backfills
    and library deletions in between. */
module LeaseProtocol {
  import opened Collections
  import opened JobQueue

  /** What a worker between ClaimNext and its finisher remembers. */
  datatype Holding = Holding(job: Job, claimedAt: int)

  /** Workers that hold nothing are absent from the map. */
  datatype State = State(jobs: Table, now: int, workers: map<nat, Holding>)

  datatype Event =
    | Tick(seconds: nat)
    | Enqueue(id: string)
    | Backfill(live: set<string>)
    | Delete(ids: set<string>)
    | Claim(w: nat, id: string, locked: set<string>)
    | Complete(w: nat)
    | Fail(w: nat, text: string)
    | Drop(w: nat) // crash, cancelled context, or a finisher statement that errored

  predicate Enabled(s: State, e: Event) {
    match e
    case Claim(w, id, locked) => w !in s.workers && IsNext(s.jobs, s.now, locked, id)
    case Complete(w) => w in s.workers
    case Fail(w, _) => w in s.workers
    case Drop(w) => w in s.workers
    case _ => true
  }

  function Apply(s: State, e: Event): State
    requires Enabled(s, e)
  {
    match e
    case Tick(seconds) => s.(now := s.now + seconds)
    case Enqueue(id) => s.(jobs := Rearmed(s.jobs, s.now, {id}))
    case Backfill(live) => s.(jobs := Rearmed(s.jobs, s.now, Stalled(s.jobs, live)))
    case Delete(ids) => s.(jobs := s.jobs - ids)
    case Claim(w, id, _) =>
      s.(jobs := Claimed(s.jobs, s.now, id),
         workers := s.workers[w := Holding(Job(id, s.jobs[id].attempts + 1), s.now)])
    case Complete(w) =>
      s.(jobs := CompletedBy(s.jobs, s.now, s.workers[w].job.id), workers := s.workers - {w})
    case Fail(w, text) =>
      var job := s.workers[w].job;
      s.(jobs := FailedBy(s.jobs, s.now, job.id, job.attempts, text), workers := s.workers - {w})
    case Drop(w) => s.(workers := s.workers - {w})
  }

  predicate Held(s: State, id: string) {
    exists w | w in s.workers :: s.workers[w].job.id == id
  }

  /** No job is in the hands of two workers. */
  predicate Exclusive(s: State) {
    forall v, w | v in s.workers && w in s.workers && v != w ::
      s.workers[v].job.id != s.workers[w].job.id
  }

  /** A held row is pending and leased until five minutes after its claim,
      and the holder is still inside that time. */
  predicate LeaseRuns(s: State, w: nat)
    requires w in s.workers
  {
    var h := s.workers[w];
    && h.job.id in s.jobs
    && s.jobs[h.job.id].status.Pending?
    && s.jobs[h.job.id].runAfter == h.claimedAt + LEASE
    && s.jobs[h.job.id].attempts == h.job.attempts
    && 1 <= h.job.attempts
    && h.claimedAt <= s.now < h.claimedAt + LEASE
  }

  predicate Sound(s: State) {
    && Exclusive(s)
    && (forall w | w in s.workers :: LeaseRuns(s, w))
    && (forall id | id in s.jobs && s.jobs[id].status.Failed? :: s.jobs[id].attempts >= MAX_ATTEMPTS)
  }

  /** What the surroundings must respect: nobody sleeps through its own lease,
      and nobody re-arms or deletes a job that is being worked on. */
  predicate Disciplined(s: State, e: Event) {
    match e
    case Tick(seconds) => forall w | w in s.workers :: s.now + seconds < s.workers[w].claimedAt + LEASE
    case Enqueue(id) => !Held(s, id)
    case Delete(ids) => forall w | w in s.workers :: s.workers[w].job.id !in ids
    case _ => true
  }

  lemma TickKeepsSound(s: State, seconds: nat)
    requires Sound(s)
    ensures Sound(Apply(s, Tick(seconds))) <==> Disciplined(s, Tick(seconds))
  {
    var t := Apply(s, Tick(seconds));
    forall w | w in s.workers
      ensures LeaseRuns(t, w) <==> s.now + seconds < s.workers[w].claimedAt + LEASE
    {
      assert LeaseRuns(s, w);
    }
  }

  lemma RearmKeepsSound(s: State, ids: set<string>)
    requires Sound(s)
    ensures Sound(s.(jobs := Rearmed(s.jobs, s.now, ids)))
            <==> forall w | w in s.workers :: s.workers[w].job.id !in ids
  {
    var t := s.(jobs := Rearmed(s.jobs, s.now, ids));
    forall w | w in s.workers
      ensures LeaseRuns(t, w) <==> s.workers[w].job.id !in ids
    {
      assert LeaseRuns(s, w);
    }
  }

  lemma DeleteKeepsSound(s: State, ids: set<string>)
    requires Sound(s)
    ensures Sound(Apply(s, Delete(ids))) <==> Disciplined(s, Delete(ids))
  {
    var t := Apply(s, Delete(ids));
    forall w | w in s.workers
      ensures LeaseRuns(t, w) <==> s.workers[w].job.id !in ids
    {
      assert LeaseRuns(s, w);
    }
  }

  /** A worker lets go of its row, having changed at most that row. */
  lemma ReleaseKeepsSound(s: State, w: nat, t: State)
    requires Sound(s) && w in s.workers
    requires t.workers == s.workers - {w} && t.now == s.now && t.jobs.Keys == s.jobs.Keys
    requires forall id | id in s.jobs && id != s.workers[w].job.id :: t.jobs[id] == s.jobs[id]
    requires s.workers[w].job.id in t.jobs && t.jobs[s.workers[w].job.id].status.Failed? ==>
               t.jobs[s.workers[w].job.id].attempts >= MAX_ATTEMPTS
    ensures Sound(t)
  {
    forall v | v in t.workers ensures LeaseRuns(t, v) {
      assert LeaseRuns(s, v) && s.workers[v].job.id != s.workers[w].job.id;
    }
  }

  lemma ClaimKeepsSound(s: State, w: nat, id: string, locked: set<string>)
    requires Sound(s) && Enabled(s, Claim(w, id, locked))
    ensures Sound(Apply(s, Claim(w, id, locked)))
  {
    var t := Apply(s, Claim(w, id, locked));
    forall v | v in s.workers ensures LeaseRuns(t, v) && t.workers[v].job.id != id {
      assert LeaseRuns(s, v);
    }
    assert LeaseRuns(t, w);
  }

  /** From a sound state the disciplined events are exactly the ones that keep
      it sound: neither hypothesis of lease exclusion can be dropped. */
  lemma SoundnessStep(s: State, e: Event)
    requires Sound(s) && Enabled(s, e)
    ensures Sound(Apply(s, e)) <==> Disciplined(s, e)
  {
    match e
    case Tick(seconds) => TickKeepsSound(s, seconds);
    case Enqueue(id) => RearmKeepsSound(s, {id});
    case Backfill(live) =>
      forall w | w in s.workers ensures s.workers[w].job.id !in Stalled(s.jobs, live) {
        assert LeaseRuns(s, w);
      }
      RearmKeepsSound(s, Stalled(s.jobs, live));
    case Delete(ids) => DeleteKeepsSound(s, ids);
    case Claim(w, id, locked) => ClaimKeepsSound(s, w, id, locked);
    case Complete(w) =>
      assert LeaseRuns(s, w);
      ReleaseKeepsSound(s, w, Apply(s, e));
    case Fail(w, _) =>
      assert LeaseRuns(s, w);
      ReleaseKeepsSound(s, w, Apply(s, e));
    case Drop(w) =>
      assert LeaseRuns(s, w);
      ReleaseKeepsSound(s, w, Apply(s, e));
  }

  ghost predicate IsRun(states: seq<State>, es: seq<Event>) {
    && |states| == |es| + 1
    && forall i | 0 <= i < |es| :: Enabled(states[i], es[i]) && states[i + 1] == Apply(states[i], es[i])
  }

  /** Lease exclusion over whole runs. */
  lemma {:induction false} LeaseExclusion(states: seq<State>, es: seq<Event>, n: nat)
    requires IsRun(states, es) && n <= |es|
    requires states[0].jobs == map[] && states[0].workers == map[]
    requires forall i | 0 <= i < n :: Disciplined(states[i], es[i])
    ensures Exclusive(states[n])
    ensures forall w | w in states[n].workers :: LeaseRuns(states[n], w)
    ensures Sound(states[n])
  {
    if n > 0 {
      LeaseExclusion(states, es, n - 1);
      SoundnessStep(states[n - 1], es[n - 1]);
    }
  }

  /** Every undisciplined re-arming is one claim away from double processing:
      in any sound state, re-arming a held job hands it to a second worker. */
  lemma RearmingHeldJobDoublesIt(s: State, v: nat, w: nat)
    requires Sound(s) && v in s.workers && w !in s.workers
    ensures
      var id := s.workers[v].job.id;
      var armed := Apply(s, Enqueue(id));
      var claim := Claim(w, id, armed.jobs.Keys - {id});
      Enabled(armed, claim) && !Exclusive(Apply(armed, claim))
  {
    var id := s.workers[v].job.id;
    var armed := Apply(s, Enqueue(id));
    var t := Apply(armed, Claim(w, id, armed.jobs.Keys - {id}));
    assert t.workers[v].job.id == t.workers[w].job.id;
  }

  /** So is every holder that outlives its lease. */
  lemma SleepingThroughLeaseDoublesIt(s: State, v: nat, w: nat, seconds: nat)
    requires Sound(s) && v in s.workers && w !in s.workers
    requires s.now + seconds >= s.workers[v].claimedAt + LEASE
    ensures
      var id := s.workers[v].job.id;
      var late := Apply(s, Tick(seconds));
      var claim := Claim(w, id, late.jobs.Keys - {id});
      Enabled(late, claim) && !Exclusive(Apply(late, claim))
  {
    assert LeaseRuns(s, v);
    var id := s.workers[v].job.id;
    var late := Apply(s, Tick(seconds));
    var t := Apply(late, Claim(w, id, late.jobs.Keys - {id}));
    assert t.workers[v].job.id == t.workers[w].job.id;
  }

  /** The status guard of the finishers does not recognise a job that was
      re-armed under its holder: the stale completion lands, and the newly
      armed work is never done. */
  lemma StaleCompletionSwallowsRearmedJob(s: State, w: nat)
    requires w in s.workers
    ensures
      var id := s.workers[w].job.id;
      var t := Apply(Apply(s, Enqueue(id)), Complete(w));
      && t.jobs[id].status == Completed && t.jobs[id].attempts == 0
      && forall later: int, locked :: !IsNext(t.jobs, later, locked, id)
  {
  }

  /** The late failure of a worker that slept through its lease replaces the
      lease of its successor by its own backoff. On the first two attempts that
      frees the job while the successor is still inside its lease; from the
      third on it never does. */
  lemma LateFailureFreesSuccessorsJob(s: State, v: nat, w: nat, text: string)
    requires Sound(s) && v in s.workers && w !in s.workers && s.workers[v].job.attempts < MAX_ATTEMPTS
    ensures
      var id := s.workers[v].job.id;
      var late := Apply(s, Tick(LEASE));
      var claim := Claim(w, id, late.jobs.Keys - {id});
      Enabled(late, claim) &&
      var failed := Apply(Apply(late, claim), Fail(v, text));
      && w in failed.workers && failed.workers[w].job.id == id
      && ((exists at :: failed.now <= at < failed.workers[w].claimedAt + LEASE && Due(failed.jobs, at, id))
          <==> s.workers[v].job.attempts <= 2)
  {
    assert LeaseRuns(s, v);
    var id, a := s.workers[v].job.id, s.workers[v].job.attempts;
    var late := Apply(s, Tick(LEASE));
    var failed := Apply(Apply(late, Claim(w, id, late.jobs.Keys - {id})), Fail(v, text));
    BackoffRange(a);
    assert failed.jobs[id].runAfter == failed.now + Backoff(a);
    if a <= 2 {
      assert Due(failed.jobs, failed.now + Backoff(a), id);
    }
  }

  /** The third worker, in a run from there: two workers hold the job, and
      neither has outlived its lease. */
  lemma ThirdWorkerJoins(s: State, v: nat, w: nat, x: nat, text: string) returns (t: State)
    requires Sound(s) && v in s.workers && w !in s.workers && x !in s.workers && w != x
    requires s.workers[v].job.attempts <= 2
    ensures
      var id, a := s.workers[v].job.id, s.workers[v].job.attempts;
      var late := Apply(s, Tick(LEASE));
      var claim := Claim(w, id, late.jobs.Keys - {id});
      Enabled(late, claim) &&
      var freed := Apply(Apply(Apply(late, claim), Fail(v, text)), Tick(Backoff(a)));
      var third := Claim(x, id, freed.jobs.Keys - {id});
      Enabled(freed, third) && t == Apply(freed, third)
      && t.workers[w].job.id == id == t.workers[x].job.id
      && t.now < t.workers[w].claimedAt + LEASE && t.now < t.workers[x].claimedAt + LEASE
  {
    assert LeaseRuns(s, v);
    var id, a := s.workers[v].job.id, s.workers[v].job.attempts;
    BackoffRange(a);
    var late := Apply(s, Tick(LEASE));
    var freed := Apply(Apply(Apply(late, Claim(w, id, late.jobs.Keys - {id})), Fail(v, text)), Tick(Backoff(a)));
    t := Apply(freed, Claim(x, id, freed.jobs.Keys - {id}));
  }

  /** The events that put a row (back) at zero attempts. */
  predicate Arms(s: State, e: Event, id: string) {
    match e
    case Enqueue(x) => x == id
    case Backfill(live) => id in Stalled(s.jobs, live)
    case _ => false
  }

  /** Claims of id in the first n steps since it was last armed. */
  ghost function ClaimsSinceArmed(states: seq<State>, es: seq<Event>, id: string, n: nat): nat
    requires n <= |es| <= |states|
  {
    if n == 0 then 0
    else if Arms(states[n - 1], es[n - 1], id) then 0
    else ClaimsSinceArmed(states, es, id, n - 1) + if es[n - 1].Claim? && es[n - 1].id == id then 1 else 0
  }

  /** Queue history, in every run, disciplined or not: the attempts column is
      the number of claims since the job was last armed. */
  lemma {:induction false} AttemptsCountClaims(states: seq<State>, es: seq<Event>, n: nat, id: string)
    requires IsRun(states, es) && n <= |es| && states[0].jobs == map[]
    requires id in states[n].jobs
    ensures states[n].jobs[id].attempts == ClaimsSinceArmed(states, es, id, n)
  {
    if n > 0 && !Arms(states[n - 1], es[n - 1], id) {
      assert states[n] == Apply(states[n - 1], es[n - 1]);
      AttemptsCountClaims(states, es, n - 1, id);
    }
  }

  /** Every holder has claimed, none is ahead of its row, and a failed row has
      had its five attempts. */
  predicate Counted(s: State) {
    && (forall w | w in s.workers :: CountedHolder(s, w))
    && (forall id | id in s.jobs && s.jobs[id].status.Failed? :: s.jobs[id].attempts >= MAX_ATTEMPTS)
  }

  predicate CountedHolder(s: State, w: nat)
    requires w in s.workers
  {
    var job := s.workers[w].job;
    job.attempts >= 1 && (job.id in s.jobs ==> job.attempts <= s.jobs[job.id].attempts)
  }

  /** Nobody is working on a job that this event arms. */
  predicate ArmsOnlyIdle(s: State, e: Event) {
    forall w | w in s.workers :: !Arms(s, e, s.workers[w].job.id)
  }

  /** The events that keep the count are exactly those that arm no held job. */
  lemma CountedStep(s: State, e: Event)
    requires Counted(s) && Enabled(s, e)
    ensures Counted(Apply(s, e)) <==> ArmsOnlyIdle(s, e)
  {
    var t := Apply(s, e);
    if ArmsOnlyIdle(s, e) {
      forall w | w in t.workers ensures CountedHolder(t, w) {
        if w in s.workers {
          assert CountedHolder(s, w) && !Arms(s, e, s.workers[w].job.id);
        }
      }
    } else {
      var w :| w in s.workers && Arms(s, e, s.workers[w].job.id);
      assert CountedHolder(s, w) && !CountedHolder(t, w);
    }
  }

  lemma {:induction false} AlwaysCounted(states: seq<State>, es: seq<Event>, n: nat)
    requires IsRun(states, es) && n <= |es| && Counted(states[0])
    requires forall i | 0 <= i < n :: ArmsOnlyIdle(states[i], es[i])
    ensures Counted(states[n])
  {
    if n > 0 {
      AlwaysCounted(states, es, n - 1);
      assert ArmsOnlyIdle(states[n - 1], es[n - 1]);
      CountedStep(states[n - 1], es[n - 1]);
    }
  }

  /** A job is given up only after five claims of the same arming, as long as
      none is armed under its holder; leases may be outlived and jobs deleted. */
  lemma FailedOnlyAfterFiveClaims(states: seq<State>, es: seq<Event>, n: nat, id: string)
    requires IsRun(states, es) && n <= |es|
    requires states[0].jobs == map[] && states[0].workers == map[]
    requires forall i | 0 <= i < n :: ArmsOnlyIdle(states[i], es[i])
    requires id in states[n].jobs && states[n].jobs[id].status.Failed?
    ensures ClaimsSinceArmed(states, es, id, n) >= MAX_ATTEMPTS
  {
    AlwaysCounted(states, es, n);
    AttemptsCountClaims(states, es, n, id);
  }

  /** In every run a worker gives its job up before five claims of the latest
      arming exactly if it is itself at its fifth attempt or later and the row
      it writes to is not: a guard on the row's own attempts would rule it out. */
  lemma GivenUpEarly(states: seq<State>, es: seq<Event>, n: nat, w: nat, text: string)
    requires IsRun(states, es) && n < |es| && states[0].jobs == map[] && es[n] == Fail(w, text)
    requires w in states[n].workers && states[n].workers[w].job.id in states[n].jobs
    requires states[n].jobs[states[n].workers[w].job.id].status.Pending?
    ensures var id := states[n].workers[w].job.id;
      && id in states[n + 1].jobs
      && (states[n + 1].jobs[id].status.Failed? && ClaimsSinceArmed(states, es, id, n + 1) < MAX_ATTEMPTS
          <==> states[n].workers[w].job.attempts >= MAX_ATTEMPTS && states[n].jobs[id].attempts < MAX_ATTEMPTS)
  {
    var id := states[n].workers[w].job.id;
    assert states[n + 1] == Apply(states[n], es[n]);
    AttemptsCountClaims(states, es, n, id);
    AttemptsCountClaims(states, es, n + 1, id);
  }

  const EMPTY := State(map[], 0, map[])

  ghost predicate RunFromEmpty(states: seq<State>, es: seq<Event>) {
    IsRun(states, es) && states[0] == EMPTY
  }

  lemma RunAppend(states: seq<State>, es: seq<Event>, e: Event)
    requires RunFromEmpty(states, es) && Enabled(states[|es|], e)
    ensures RunFromEmpty(states + [Apply(states[|es|], e)], es + [e])
  {
    var states', es' := states + [Apply(states[|es|], e)], es + [e];
    forall i | 0 <= i < |es'| ensures Enabled(states'[i], es'[i]) && states'[i + 1] == Apply(states'[i], es'[i]) {
      if i < |es| {
        assert Enabled(states[i], es[i]);
      }
    }
  }

  /** A queue with this one due job, claimed k times by workers that crashed. */
  predicate ClaimedTimes(s: State, id: string, k: nat) {
    s.workers == map[] && s.jobs.Keys == {id} && Due(s.jobs, s.now, id) && s.jobs[id].attempts == k
  }

  lemma {:induction false} CrashTimes(id: string, w: nat, k: nat) returns (states: seq<State>, es: seq<Event>)
    ensures RunFromEmpty(states, es) && ClaimedTimes(states[|es|], id, k)
  {
    if k == 0 {
      states, es := [EMPTY, Apply(EMPTY, Enqueue(id))], [Enqueue(id)];
    } else {
      states, es := CrashTimes(id, w, k - 1);
      CrashedClaim(states[|es|], w, id);
      states, es := AppendEvent(states, es, Claim(w, id, {}));
      states, es := AppendEvent(states, es, Drop(w));
      states, es := AppendEvent(states, es, Tick(LEASE));
    }
  }

  lemma AppendEvent(states: seq<State>, es: seq<Event>, e: Event) returns (states': seq<State>, es': seq<Event>)
    requires RunFromEmpty(states, es) && Enabled(states[|es|], e)
    ensures RunFromEmpty(states', es') && es' == es + [e] && states'[|es'|] == Apply(states[|es|], e)
  {
    states', es' := states + [Apply(states[|es|], e)], es + [e];
    RunAppend(states, es, e);
  }

  /** The hypothesis is needed: re-armed under its fifth holder, a job is given
      up by that holder although nobody has claimed it since. */
  lemma GivenUpUnclaimed(id: string, w: nat, text: string) returns (states: seq<State>, es: seq<Event>)
    ensures RunFromEmpty(states, es)
    ensures id in states[|es|].jobs && states[|es|].jobs[id].status.Failed?
    ensures ClaimsSinceArmed(states, es, id, |es|) == 0
  {
    states, es := CrashTimes(id, w, 4);
    CrashedClaim(states[|es|], w, id);
    states, es := AppendEvent(states, es, Claim(w, id, {}));
    assert states[|es|].workers[w].job == Job(id, 5);
    states, es := AppendEvent(states, es, Enqueue(id));
    states, es := AppendEvent(states, es, Fail(w, text));
    AttemptsCountClaims(states, es, |es|, id);
  }

  /** How a row may leave a terminal status, and that finishers never touch one. */
  lemma TerminalStatusSticks(s: State, e: Event, id: string)
    requires Enabled(s, e) && id in s.jobs && !s.jobs[id].status.Pending?
    ensures var t := Apply(s, e);
      id !in t.jobs || t.jobs[id] == s.jobs[id]
      || (t.jobs[id] == Armed(s.now) && Arms(s, e, id) && (e.Enqueue? || s.jobs[id].status.Failed?))
    ensures id !in Apply(s, e).jobs <==> e.Delete? && id in e.ids
  {
  }

  // ---- how much work a queue can ever cause --------------------------------

  /** Claims a row may still see, given whether a worker has it now. */
  ghost function RowBudget(s: State, id: string): nat {
    if id !in s.jobs || !s.jobs[id].status.Pending? then 0
    else if Held(s, id) then
      if s.jobs[id].attempts < MAX_ATTEMPTS then MAX_ATTEMPTS - s.jobs[id].attempts else 0
    else
      if s.jobs[id].attempts < MAX_ATTEMPTS then MAX_ATTEMPTS - s.jobs[id].attempts else 1
  }

  ghost function Budget(s: State): nat {
    Sum(s.jobs.Keys, id => RowBudget(s, id))
  }

  predicate Working(e: Event) { !e.Enqueue? && !e.Backfill? }

  function One(b: bool): nat { if b then 1 else 0 }

  /** A job that was dropped on its last attempt is claimed once more. */
  lemma BudgetDrop(s: State, w: nat)
    requires Sound(s) && w in s.workers
    ensures Budget(Apply(s, Drop(w))) <= Budget(s) + 1
  {
    var t, x := Apply(s, Drop(w)), s.workers[w].job.id;
    assert LeaseRuns(s, w);
    forall id | id in s.jobs ensures RowBudget(t, id) <= RowBudget(s, id) + One(id == x) {
      StillHeld(s, t, w, id);
    }
    SumSplit(s.jobs.Keys, id => RowBudget(t, id), x);
    SumSplit(s.jobs.Keys, id => RowBudget(s, id), x);
    SumShrinks(s.jobs.Keys - {x}, id => RowBudget(t, id), s.jobs.Keys - {x}, id => RowBudget(s, id));
  }

  lemma BudgetStep(s: State, e: Event)
    requires Sound(s) && Enabled(s, e) && Disciplined(s, e) && Working(e)
    ensures Budget(Apply(s, e)) + One(e.Claim?) <= Budget(s) + One(e.Drop?)
  {
    if e.Drop? {
      BudgetDrop(s, e.w);
      return;
    }
    var t := Apply(s, e);
    forall id | id in t.jobs.Keys
      ensures id in s.jobs.Keys
      ensures RowBudget(t, id) + One(e.Claim? && e.id == id) <= RowBudget(s, id)
    {
      RowBudgetStep(s, e, id);
    }
    if e.Claim? {
      SumDrops(t.jobs.Keys, x => RowBudget(t, x), s.jobs.Keys, x => RowBudget(s, x), e.id);
    } else {
      SumShrinks(t.jobs.Keys, x => RowBudget(t, x), s.jobs.Keys, x => RowBudget(s, x));
    }
  }

  lemma RowBudgetStep(s: State, e: Event, id: string)
    requires Sound(s) && Enabled(s, e) && Disciplined(s, e) && Working(e) && !e.Drop?
    requires id in Apply(s, e).jobs
    ensures id in s.jobs
    ensures RowBudget(Apply(s, e), id) + One(e.Claim? && e.id == id) <= RowBudget(s, id)
  {
    var t := Apply(s, e);
    match e
    case Claim(w, x, _) =>
      assert t.workers[w].job.id == x;
      assert forall v | v in s.workers :: LeaseRuns(s, v) && s.workers[v].job.id != x;
      assert id != x ==> (Held(t, id) <==> Held(s, id)) by {
        assert forall v | v in s.workers :: t.workers[v] == s.workers[v];
      }
    case Complete(w) =>
      StillHeld(s, t, w, id);
    case Fail(w, _) =>
      assert LeaseRuns(s, w);
      StillHeld(s, t, w, id);
    case Tick(_) =>
      assert Held(t, id) <==> Held(s, id);
    case Delete(_) =>
      assert Held(t, id) <==> Held(s, id);
    case _ =>
  }

  lemma StillHeld(s: State, t: State, w: nat, id: string)
    requires w in s.workers && t.workers == s.workers - {w} && Exclusive(s)
    ensures Held(t, id) <==> Held(s, id) && id != s.workers[w].job.id
  {
    if Held(s, id) && id != s.workers[w].job.id {
      var v :| v in s.workers && s.workers[v].job.id == id;
      assert v in t.workers;
    }
  }

  ghost function Claims(es: seq<Event>, n: nat): nat
    requires n <= |es|
  {
    if n == 0 then 0 else Claims(es, n - 1) + One(es[n - 1].Claim?)
  }

  ghost function Drops(es: seq<Event>, n: nat): nat
    requires n <= |es|
  {
    if n == 0 then 0 else Drops(es, n - 1) + One(es[n - 1].Drop?)
  }

  /** All overlapping drains together make at most as many claims as the budget
      allows and jobs are dropped, as long as nothing is re-armed. */
  lemma {:induction false} ClaimsAreBounded(states: seq<State>, es: seq<Event>, n: nat)
    requires IsRun(states, es) && n <= |es| && Sound(states[0])
    requires forall i | 0 <= i < n :: Disciplined(states[i], es[i]) && Working(es[i])
    ensures Sound(states[n])
    ensures Claims(es, n) + Budget(states[n]) <= Budget(states[0]) + Drops(es, n)
  {
    if n > 0 {
      ClaimsAreBounded(states, es, n - 1);
      SoundnessStep(states[n - 1], es[n - 1]);
      BudgetStep(states[n - 1], es[n - 1]);
    }
  }

  /** Drops do count: a worker that always crashes keeps claiming the same job,
      so without them in the bound there is none. */
  lemma {:induction false} DroppedJobsAreClaimedForEver(s: State, w: nat, id: string, n: nat)
    returns (states: seq<State>, es: seq<Event>)
    requires s.workers == map[] && s.jobs.Keys == {id} && Due(s.jobs, s.now, id)
    ensures IsRun(states, es) && states[0] == s && Claims(es, |es|) == n
    decreases n
  {
    if n == 0 {
      return [s], [];
    }
    var claim := Claim(w, id, {});
    var s1 := Apply(s, claim);
    var s2 := Apply(s1, Drop(w));
    var s3 := Apply(s2, Tick(LEASE));
    CrashedClaim(s, w, id);
    states, es := DroppedJobsAreClaimedForEver(s3, w, id, n - 1);
    RunPrepend(s2, Tick(LEASE), states, es);
    states, es := [s2] + states, [Tick(LEASE)] + es;
    RunPrepend(s1, Drop(w), states, es);
    states, es := [s1] + states, [Drop(w)] + es;
    RunPrepend(s, claim, states, es);
    states, es := [s] + states, [claim] + es;
  }

  /** Five minutes after a claim whose worker crashed, the job is due again. */
  lemma CrashedClaim(s: State, w: nat, id: string)
    requires s.workers == map[] && s.jobs.Keys == {id} && Due(s.jobs, s.now, id)
    ensures Enabled(s, Claim(w, id, {})) && Enabled(Apply(s, Claim(w, id, {})), Drop(w))
    ensures var t := Apply(Apply(Apply(s, Claim(w, id, {})), Drop(w)), Tick(LEASE));
      && t.workers == map[] && t.jobs.Keys == {id} && Due(t.jobs, t.now, id)
      && t.jobs[id].attempts == s.jobs[id].attempts + 1
  {
  }

  lemma RunPrepend(s: State, e: Event, states: seq<State>, es: seq<Event>)
    requires IsRun(states, es) && Enabled(s, e) && states[0] == Apply(s, e)
    ensures IsRun([s] + states, [e] + es)
    ensures Claims([e] + es, |es| + 1) == Claims(es, |es|) + if e.Claim? then 1 else 0
  {
    var states', es' := [s] + states, [e] + es;
    forall i | 0 <= i < |es'| ensures Enabled(states'[i], es'[i]) && states'[i + 1] == Apply(states'[i], es'[i]) {
      if i > 0 {
        assert Enabled(states[i - 1], es[i - 1]);
      }
    }
    ClaimsPrepend(e, es, |es|);
  }

  lemma {:induction false} ClaimsPrepend(e: Event, es: seq<Event>, n: nat)
    requires n <= |es|
    ensures Claims([e] + es, n + 1) == Claims(es, n) + if e.Claim? then 1 else 0
  {
    if n == 0 {
      assert Claims([e] + es, 0) == 0;
    } else {
      ClaimsPrepend(e, es, n - 1);
    }
  }
}
