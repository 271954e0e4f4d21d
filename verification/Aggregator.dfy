/** Aggregator.Search: every enabled source asked at once, six at a time, all
    sharing one cache. The scheduler picks any goroutine that can move. */
module Aggregator {
  import opened Collections
  import opened Confidence
  import opened Ranking
  import C = Cache
  import CacheRuns
  import Ebooks

  /** One lookup as its surroundings see it: the times of Get and Put, whether
      those statements fail, and what the limiter and the source deliver
      (None is any error). marshals is false for a list that has no JSON. */
  datatype Lookup = Lookup(now: int, later: int, getFails: bool, putFails: bool,
                           answer: Option<seq<Ebooks.Candidate>>, marshals: bool)

  datatype Source = Source(id: string, enabled: bool, lookup: Lookup)

  /** What is asked, and the book it is compared with. */
  datatype Request = Request(query: string, region: string, original: Option<Baseline>)

  function AskOf(s: Source, r: Request): C.Ask { C.Ask(s.id, r.region, r.query) }

  predicate SameAt(a: C.Rows, b: C.Rows, key: string) {
    (key in a <==> key in b) && (key in a && key in b ==> a[key] == b[key])
  }

  function KeyFor(s: Source, r: Request): string { C.KeyOf(AskOf(s, r)) }

  // ---- one source --------------------------------------------------------------------------------

  function Ranked(cs: seq<Ebooks.Candidate>, r: Request): seq<Match> {
    Each((c: Ebooks.Candidate) => Match(c.source, Score(r.query, c, r.original), c), cs)
  }

  /** One match per candidate, in their order. */
  predicate Carries(ms: seq<Match>, cs: seq<Ebooks.Candidate>, r: Request) {
    |ms| == |cs| && forall i | 0 <= i < |cs| ::
      ms[i].candidate == cs[i] && ms[i].source == cs[i].source && ms[i].confidence == Score(r.query, cs[i], r.original)
  }

  method Rank(cs: seq<Ebooks.Candidate>, r: Request) returns (ms: seq<Match>)
    ensures ms == Ranked(cs, r) && Carries(ms, cs, r)
  {
    ms := [];
    for i := 0 to |cs|
      invariant |ms| == i && forall j | 0 <= j < i :: ms[j] == Ranked(cs, r)[j]
    {
      var confidence := CalculateConfidence(r.query, cs[i], r.original);
      ms := ms + [Match(cs[i].source, confidence, cs[i])];
    }
  }

  /** The cached list, if one is found. */
  function Cached(rows: C.Rows, ttl: int, s: Source, r: Request): Option<seq<Ebooks.Candidate>> {
    if s.lookup.getFails then None else CacheRuns.Hit(rows, AskOf(s, r), ttl, s.lookup.now)
  }

  /** The matches of one source, given the cache it starts from. */
  function Found(rows: C.Rows, ttl: int, s: Source, r: Request): seq<Match> {
    var cached := Cached(rows, ttl, s, r);
    if cached.Some? then Ranked(cached.value, r)
    else if s.lookup.answer.Some? then Ranked(s.lookup.answer.value, r)
    else []
  }

  /** An error is never written, nor is anything when the cache answered. */
  predicate Writes(rows: C.Rows, ttl: int, s: Source, r: Request) {
    && Cached(rows, ttl, s, r).None? && s.lookup.answer.Some?
    && !s.lookup.putFails && (s.lookup.answer.value == [] || s.lookup.marshals)
  }

  function After(rows: C.Rows, ttl: int, s: Source, r: Request): C.Rows {
    if Writes(rows, ttl, s, r)
    then CacheRuns.Written(rows, CacheRuns.Answer(AskOf(s, r), s.lookup.answer.value, s.lookup.now), s.lookup.later)
    else rows
  }

  /** A row that answers the lookup: negative and at most a day old, or a list
      within the cache's own life time. */
  predicate Answers(rows: C.Rows, ttl: int, s: Source, r: Request) {
    var k, key := s.lookup, KeyFor(s, r);
    && !k.getFails && key in rows
    && if rows[key].notFound then k.now - rows[key].fetchedAt <= 86400
       else k.now - rows[key].fetchedAt <= ttl && rows[key].response.List?
  }

  /** What a source contributes: the list in the row that answers, whatever the
      source would say, and otherwise what the source says; an error and a
      negative row are no matches. */
  predicate Delivers(rows: C.Rows, ttl: int, s: Source, r: Request, ms: seq<Match>) {
    var k, key := s.lookup, KeyFor(s, r);
    if Answers(rows, ttl, s, r) then
      if rows[key].notFound then ms == [] else Carries(ms, rows[key].response.records, r)
    else if k.answer.None? then ms == []
    else Carries(ms, k.answer.value, r)
  }

  /** What it leaves in the cache: the source's answer for the next lookup,
      unless a row answered, the source failed or the row cannot be written. */
  ghost predicate Leaves(rows: C.Rows, ttl: int, s: Source, r: Request, after: C.Rows) {
    var k, key := s.lookup, KeyFor(s, r);
    && (forall other | other != key :: SameAt(after, rows, other))
    && if || Answers(rows, ttl, s, r) || k.answer.None? || k.putFails
          || (k.answer.value != [] && !k.marshals) || C.NUL in r.region
       then after == rows
       else
         && (k.answer.value == [] || ttl >= 0 ==> CacheRuns.Hit(after, AskOf(s, r), ttl, k.later) == Some(k.answer.value))
         && key in after && after[key].fetchedAt == k.later && after[key].notFound == (k.answer.value == [])
         && (k.answer.value != [] ==> after[key].response == C.List(k.answer.value))
         && if key in rows then after[key].source == rows[key].source && after[key].region == rows[key].region
            else after[key].source == s.id && after[key].region == r.region
  }

  lemma FoundDelivers(rows: C.Rows, ttl: int, s: Source, r: Request)
    ensures Delivers(rows, ttl, s, r, Found(rows, ttl, s, r))
  {
  }

  lemma AfterLeaves(rows: C.Rows, ttl: int, s: Source, r: Request)
    ensures Leaves(rows, ttl, s, r, After(rows, ttl, s, r))
  {
  }

  method SearchOne(cache: C.Cache, s: Source, r: Request) returns (ms: seq<Match>)
    modifies cache
    ensures ms == Found(old(cache.rows), cache.ttl, s, r)
    ensures cache.rows == After(old(cache.rows), cache.ttl, s, r)
    ensures Delivers(old(cache.rows), cache.ttl, s, r, ms)
    ensures Leaves(old(cache.rows), cache.ttl, s, r, cache.rows)
  {
    FoundDelivers(cache.rows, cache.ttl, s, r);
    AfterLeaves(cache.rows, cache.ttl, s, r);
    var k := s.lookup;
    var key := C.Key(s.id, C.Classify(r.query), r.region, r.query);
    var entry := cache.Get(key, k.now, k.getFails);
    if entry.Some? {
      if entry.value.notFound {
        return [];
      }
      if entry.value.response.List? {
        ms := Rank(entry.value.response.records, r);
        return;
      }
    }
    if k.answer.None? {
      return [];
    }
    if k.answer.value == [] {
      cache.PutNotFound(key, s.id, r.region, k.later, k.putFails);
      return [];
    }
    if k.marshals {
      cache.PutHit(key, s.id, r.region, C.List(k.answer.value), k.later, k.putFails);
    }
    ms := Rank(k.answer.value, r);
  }

  // ---- sharing the cache ----------------------------------------------------------------------------

  /** Registered sources have different ids, without the separator of keys. */
  predicate Registry(gs: seq<Source>) {
    && (forall i | 0 <= i < |gs| :: ':' !in gs[i].id)
    && (forall i, j | 0 <= i < j < |gs| :: gs[i].id != gs[j].id)
  }

  lemma OwnKeys(gs: seq<Source>, r: Request, i: nat, j: nat)
    requires Registry(gs) && i < |gs| && j < |gs| && i != j
    ensures KeyFor(gs[i], r) != KeyFor(gs[j], r)
  {
    if KeyFor(gs[i], r) == KeyFor(gs[j], r) {
      C.KeyFields(AskOf(gs[i], r), AskOf(gs[j], r));
    }
  }

  /** A lookup reads and writes nothing but the row of its own key. */
  lemma LookupIsLocal(a: C.Rows, b: C.Rows, ttl: int, s: Source, r: Request)
    requires SameAt(a, b, KeyFor(s, r))
    ensures Found(a, ttl, s, r) == Found(b, ttl, s, r)
    ensures SameAt(After(a, ttl, s, r), After(b, ttl, s, r), KeyFor(s, r))
    ensures forall key | key != KeyFor(s, r) :: SameAt(After(a, ttl, s, r), a, key)
  {
  }

  // ---- the fan-out ------------------------------------------------------------------------------------

  const SLOTS := 6

  /** A goroutine before it got a slot, in searchOne, waiting for the lock with
      its matches, and gone. */
  datatype Phase = Waiting | Inside | Holding(matches: seq<Match>) | Done

  function InSlot(phases: seq<Phase>): set<nat> {
    set i: nat | i < |phases| && (phases[i].Inside? || phases[i].Holding?)
  }

  function Weight(p: Phase): nat {
    match p
    case Waiting => 3
    case Inside => 2
    case Holding(_) => 1
    case Done => 0
  }

  function StepsLeft(phases: seq<Phase>): nat {
    if phases == [] then 0 else Weight(phases[0]) + StepsLeft(phases[1..])
  }

  lemma {:induction false} StepCounts(phases: seq<Phase>, i: nat, p: Phase)
    requires i < |phases|
    ensures StepsLeft(phases[i := p]) == StepsLeft(phases) - Weight(phases[i]) + Weight(p)
  {
    if i > 0 {
      StepCounts(phases[1..], i - 1, p);
      assert phases[i := p][1..] == phases[1..][i - 1 := p];
    } else {
      assert phases[0 := p][1..] == phases[1..];
    }
  }

  /** A goroutine can move if it has a slot, can get one, or may give up. */
  predicate CanMove(p: Phase, taken: nat, deadline: bool) {
    match p
    case Waiting => taken < SLOTS || deadline
    case Done => false
    case _ => true
  }

  /** There is no deadlock: while one is left, one can move. */
  lemma SomeoneCanMove(phases: seq<Phase>, deadline: bool)
    requires exists i :: 0 <= i < |phases| && !phases[i].Done?
    ensures exists i :: 0 <= i < |phases| && CanMove(phases[i], |InSlot(phases)|, deadline)
  {
    if i: nat :| i in InSlot(phases) {
      assert CanMove(phases[i], |InSlot(phases)|, deadline);
    } else {
      assert InSlot(phases) == {};
      var i :| 0 <= i < |phases| && !phases[i].Done?;
      assert CanMove(phases[i], |InSlot(phases)|, deadline);
    }
  }

  /** What each source finds, given the cache as it was before the search. */
  predicate Planned(before: C.Rows, ttl: int, gs: seq<Source>, r: Request, batches: seq<seq<Match>>) {
    |batches| == |gs| && forall i {:trigger Found(before, ttl, gs[i], r)} | 0 <= i < |gs| ::
      batches[i] == Found(before, ttl, gs[i], r)
  }

  predicate Order(order: seq<nat>, n: nat) {
    (forall i | 0 <= i < |order| :: order[i] < n) && forall i, j | 0 <= i < j < |order| :: order[i] != order[j]
  }

  function Gather(batches: seq<seq<Match>>, order: seq<nat>): seq<Match>
    requires forall i | 0 <= i < |order| :: order[i] < |batches|
  {
    if order == [] then [] else Gather(batches, order[..|order| - 1]) + batches[order[|order| - 1]]
  }

  /** Where goroutine i stands, if ran are those that have looked and order
      those that have appended. */
  predicate Stands(phases: seq<Phase>, batches: seq<seq<Match>>, order: seq<nat>, ran: set<nat>, deadline: bool, i: nat)
    requires i < |phases| == |batches|
  {
    match phases[i]
    case Waiting => i !in ran && i !in order
    case Inside => i !in ran && i !in order
    case Holding(ms) => i in ran && i !in order && ms == batches[i]
    case Done => if i in order then i in ran else deadline && i !in ran
  }

  predicate Going(phases: seq<Phase>, batches: seq<seq<Match>>, out: seq<Match>, order: seq<nat>, ran: set<nat>, deadline: bool) {
    && |phases| == |batches| && Order(order, |batches|) && out == Gather(batches, order)
    && forall i: nat {:trigger Stands(phases, batches, order, ran, deadline, i)} | i < |phases| ::
         Stands(phases, batches, order, ran, deadline, i)
  }

  lemma Enters(phases: seq<Phase>, batches: seq<seq<Match>>, out: seq<Match>, order: seq<nat>, ran: set<nat>, deadline: bool, i: nat, next: Phase)
    requires Going(phases, batches, out, order, ran, deadline) && i < |phases| && phases[i].Waiting?
    requires next.Inside? || (next.Done? && deadline)
    ensures Going(phases[i := next], batches, out, order, ran, deadline)
  {
    var later := phases[i := next];
    forall j: nat | j < |phases| ensures Stands(later, batches, order, ran, deadline, j) {
      assert Stands(phases, batches, order, ran, deadline, j);
    }
  }

  lemma Looks(phases: seq<Phase>, batches: seq<seq<Match>>, out: seq<Match>, order: seq<nat>, ran: set<nat>, deadline: bool, i: nat)
    requires Going(phases, batches, out, order, ran, deadline) && i < |phases| && phases[i].Inside?
    ensures Going(phases[i := Holding(batches[i])], batches, out, order, ran + {i}, deadline)
  {
    var later, looked := phases[i := Holding(batches[i])], ran + {i};
    forall j: nat | j < |phases| ensures Stands(later, batches, order, looked, deadline, j) {
      assert Stands(phases, batches, order, ran, deadline, j);
    }
  }

  lemma Appends(phases: seq<Phase>, batches: seq<seq<Match>>, out: seq<Match>, order: seq<nat>, ran: set<nat>, deadline: bool, i: nat)
    requires Going(phases, batches, out, order, ran, deadline) && i < |phases| && phases[i].Holding?
    ensures Going(phases[i := Done], batches, out + phases[i].matches, order + [i], ran, deadline)
  {
    assert Stands(phases, batches, order, ran, deadline, i);
    GatherNext(batches, order, i);
    OrderNext(order, |batches|, i);
    var later, appended := phases[i := Done], order + [i];
    forall j: nat | j < |phases| ensures Stands(later, batches, appended, ran, deadline, j) {
      assert Stands(phases, batches, order, ran, deadline, j);
    }
  }

  lemma OrderNext(order: seq<nat>, n: nat, i: nat)
    requires Order(order, n) && i < n && i !in order
    ensures Order(order + [i], n)
  {
  }

  /** When all are gone. */
  lemma AllGone(phases: seq<Phase>, batches: seq<seq<Match>>, out: seq<Match>, order: seq<nat>, ran: set<nat>, deadline: bool)
    requires Going(phases, batches, out, order, ran, deadline) && forall i | 0 <= i < |phases| :: phases[i].Done?
    ensures Order(order, |batches|) && out == Gather(batches, order)
    ensures forall i: nat | i < |batches| :: (i in ran <==> i in order) && (!deadline ==> i in order)
  {
    forall i: nat | i < |batches| ensures (i in ran <==> i in order) && (!deadline ==> i in order) {
      assert Stands(phases, batches, order, ran, deadline, i);
    }
  }

  /** What a goroutine may do next: enter while a slot is free, give up after
      the deadline, finish its lookup, append and leave. */
  predicate Moves(p: Phase, next: Phase, taken: nat, deadline: bool) {
    match p
    case Waiting => (next.Inside? && taken < SLOTS) || (next.Done? && deadline)
    case Inside => next.Holding?
    case Holding(_) => next.Done?
    case Done => false
  }

  lemma MoveCounts(phases: seq<Phase>, i: nat, next: Phase, taken: nat, deadline: bool)
    requires i < |phases| && Moves(phases[i], next, taken, deadline)
    ensures StepsLeft(phases[i := next]) < StepsLeft(phases)
  {
    StepCounts(phases, i, next);
  }

  /** Who holds a slot after that. */
  function Slots(sem: set<nat>, i: nat, p: Phase, next: Phase): set<nat> {
    if p.Waiting? && next.Inside? then sem + {i} else if p.Holding? then sem - {i} else sem
  }

  lemma SlotsMove(phases: seq<Phase>, sem: set<nat>, i: nat, next: Phase, deadline: bool)
    requires i < |phases| && sem == InSlot(phases) && |sem| <= SLOTS && Moves(phases[i], next, |sem|, deadline)
    ensures Slots(sem, i, phases[i], next) == InSlot(phases[i := next])
    ensures |InSlot(phases[i := next])| <= SLOTS
  {
    var t := InSlot(phases[i := next]);
    assert forall j: nat | j != i :: j in t <==> j in sem;
  }

  /** The cache, row by row: written by those that have looked, else untouched. */
  predicate Shared(rows: C.Rows, before: C.Rows, ttl: int, gs: seq<Source>, r: Request, ran: set<nat>) {
    forall i: nat {:trigger KeyFor(gs[i], r)} | i < |gs| ::
      SameAt(rows, if i in ran then After(before, ttl, gs[i], r) else before, KeyFor(gs[i], r))
  }

  lemma LookupShares(rows: C.Rows, before: C.Rows, ttl: int, gs: seq<Source>, r: Request, ran: set<nat>, i: nat)
    requires Registry(gs) && i < |gs| && i !in ran
    requires Shared(rows, before, ttl, gs, r, ran)
    ensures Found(rows, ttl, gs[i], r) == Found(before, ttl, gs[i], r)
    ensures Shared(After(rows, ttl, gs[i], r), before, ttl, gs, r, ran + {i})
  {
    assert SameAt(rows, before, KeyFor(gs[i], r));
    LookupIsLocal(rows, before, ttl, gs[i], r);
    forall j: nat | j < |gs| && j != i
      ensures SameAt(After(rows, ttl, gs[i], r), if j in ran then After(before, ttl, gs[j], r) else before, KeyFor(gs[j], r))
    {
      OwnKeys(gs, r, i, j);
      assert SameAt(rows, if j in ran then After(before, ttl, gs[j], r) else before, KeyFor(gs[j], r));
    }
  }

  /** One goroutine in its slot; what the others did makes no difference. */
  method Look(cache: C.Cache, gs: seq<Source>, r: Request, i: nat,
              ghost before: C.Rows, ghost batches: seq<seq<Match>>, ghost ran: set<nat>) returns (ms: seq<Match>)
    requires Registry(gs) && i < |gs| && i !in ran
    requires Planned(before, cache.ttl, gs, r, batches) && Shared(cache.rows, before, cache.ttl, gs, r, ran)
    modifies cache
    ensures ms == batches[i]
    ensures Shared(cache.rows, before, cache.ttl, gs, r, ran + {i})
  {
    LookupShares(cache.rows, before, cache.ttl, gs, r, ran, i);
    ms := SearchOne(cache, gs[i], r);
  }

  // ---- runs of the fan-out ------------------------------------------------------------------------------

  datatype Move = Move(i: nat, next: Phase)

  /** Where n goroutines are after these moves. */
  function PhasesAfter(n: nat, moves: seq<Move>): (phases: seq<Phase>)
    requires forall k | 0 <= k < |moves| :: moves[k].i < n
    ensures |phases| == n
  {
    if moves == [] then seq(n, i => Waiting)
    else
      var last := moves[|moves| - 1];
      PhasesAfter(n, moves[..|moves| - 1])[last.i := last.next]
  }

  /** A schedule: every move is one its goroutine could make, in view of the
      slots that were taken just before it. */
  predicate Schedule(n: nat, moves: seq<Move>, deadline: bool): (b: bool)
    ensures b ==> forall k | 0 <= k < |moves| :: moves[k].i < n
  {
    moves == [] || (
      var m := |moves| - 1;
      && Schedule(n, moves[..m], deadline) && moves[m].i < n
      && var phases := PhasesAfter(n, moves[..m]);
      Moves(phases[moves[m].i], moves[m].next, |InSlot(phases)|, deadline))
  }

  /** The goroutines that leave with their matches appended, in that order. */
  function Appenders(n: nat, moves: seq<Move>): seq<nat>
    requires forall k | 0 <= k < |moves| :: moves[k].i < n
  {
    if moves == [] then []
    else
      var front, i := moves[..|moves| - 1], moves[|moves| - 1].i;
      Appenders(n, front) + if PhasesAfter(n, front)[i].Holding? then [i] else []
  }

  lemma OneMore(n: nat, moves: seq<Move>, deadline: bool, i: nat, next: Phase)
    requires Schedule(n, moves, deadline) && i < n
    requires Moves(PhasesAfter(n, moves)[i], next, |InSlot(PhasesAfter(n, moves))|, deadline)
    ensures Schedule(n, moves + [Move(i, next)], deadline)
    ensures PhasesAfter(n, moves + [Move(i, next)]) == PhasesAfter(n, moves)[i := next]
    ensures Appenders(n, moves + [Move(i, next)]) == Appenders(n, moves) + if PhasesAfter(n, moves)[i].Holding? then [i] else []
  {
    assert (moves + [Move(i, next)])[..|moves|] == moves;
  }

  /** In any schedule no goroutine appends twice, one that has appended is gone,
      and one that is gone has appended unless it gave up after the deadline. */
  lemma {:induction false} AppendsOnce(n: nat, moves: seq<Move>, deadline: bool)
    requires Schedule(n, moves, deadline)
    ensures Order(Appenders(n, moves), n)
    ensures forall i: nat | i < n && i in Appenders(n, moves) :: PhasesAfter(n, moves)[i].Done?
    ensures !deadline ==> forall i: nat | i < n && PhasesAfter(n, moves)[i].Done? :: i in Appenders(n, moves)
  {
    if moves != [] {
      var front, last := moves[..|moves| - 1], moves[|moves| - 1];
      AppendsOnce(n, front, deadline);
      var phases, before, after := PhasesAfter(n, front), Appenders(n, front), Appenders(n, moves);
      assert after == before + if phases[last.i].Holding? then [last.i] else [];
      assert forall i :: i in after <==> i in before || (phases[last.i].Holding? && i == last.i);
      assert forall k | 0 <= k < |before| :: before[k] in before;
    }
  }

  /** At no moment of any schedule do more than six goroutines hold a slot. */
  lemma {:induction false} AtMostSix(n: nat, moves: seq<Move>, deadline: bool, k: nat)
    requires Schedule(n, moves, deadline) && k <= |moves|
    ensures |InSlot(PhasesAfter(n, moves[..k]))| <= 6
    decreases |moves|
  {
    if moves == [] {
      assert InSlot(PhasesAfter(n, [])) == {};
      assert moves[..k] == [];
    } else {
      var front, last := moves[..|moves| - 1], moves[|moves| - 1];
      if k < |moves| {
        AtMostSix(n, front, deadline, k);
        assert front[..k] == moves[..k];
      } else {
        AtMostSix(n, front, deadline, |front|);
        assert front[..|front|] == front && moves[..k] == moves;
        var phases := PhasesAfter(n, front);
        SlotsMove(phases, InSlot(phases), last.i, last.next, deadline);
      }
    }
  }

  /** One move of one goroutine. */
  method Turn(cache: C.Cache, gs: seq<Source>, r: Request, deadline: bool, phases: seq<Phase>, taken: nat, i: nat, soFar: seq<Match>,
              ghost before: C.Rows, ghost batches: seq<seq<Match>>, ghost appended: seq<nat>, ghost looked: set<nat>)
    returns (next: Phase, out: seq<Match>, ghost order: seq<nat>, ghost ran: set<nat>)
    requires Registry(gs) && |phases| == |gs| && i < |gs| && CanMove(phases[i], taken, deadline)
    requires Planned(before, cache.ttl, gs, r, batches) && Shared(cache.rows, before, cache.ttl, gs, r, looked)
    requires Going(phases, batches, soFar, appended, looked, deadline)
    modifies cache
    ensures Moves(phases[i], next, taken, deadline)
    ensures order == if phases[i].Holding? then appended + [i] else appended
    ensures Going(phases[i := next], batches, out, order, ran, deadline)
    ensures Shared(cache.rows, before, cache.ttl, gs, r, ran)
  {
    next, out, order, ran := Done, soFar, appended, looked;
    assert Stands(phases, batches, appended, looked, deadline, i);
    match phases[i]
    case Waiting =>
      var gaveUp: bool := *;
      if taken < SLOTS && !(deadline && gaveUp) {
        next := Inside;
      }
      Enters(phases, batches, out, order, ran, deadline, i, next);
    case Inside =>
      var ms := Look(cache, gs, r, i, before, batches, ran);
      Looks(phases, batches, out, order, ran, deadline, i);
      ran, next := ran + {i}, Holding(ms);
    case Holding(ms) =>
      Appends(phases, batches, out, order, ran, deadline, i);
      out, order := out + ms, order + [i];
  }

  /** The fan-out between two moves. */
  predicate Underway(phases: seq<Phase>, sem: set<nat>, batches: seq<seq<Match>>, out: seq<Match>,
                     moves: seq<Move>, order: seq<nat>, ran: set<nat>, deadline: bool) {
    && sem == InSlot(phases) && |sem| <= SLOTS
    && Schedule(|batches|, moves, deadline) && phases == PhasesAfter(|batches|, moves)
    && order == Appenders(|batches|, moves)
    && Going(phases, batches, out, order, ran, deadline)
  }

  lemma StillUnderway(phases: seq<Phase>, sem: set<nat>, batches: seq<seq<Match>>, out: seq<Match>,
                      moves: seq<Move>, order: seq<nat>, ran: set<nat>, deadline: bool,
                      i: nat, next: Phase, out': seq<Match>, order': seq<nat>, ran': set<nat>)
    requires Underway(phases, sem, batches, out, moves, order, ran, deadline)
    requires i < |phases| && Moves(phases[i], next, |sem|, deadline)
    requires order' == if phases[i].Holding? then order + [i] else order
    requires Going(phases[i := next], batches, out', order', ran', deadline)
    ensures Underway(phases[i := next], Slots(sem, i, phases[i], next), batches, out', moves + [Move(i, next)], order', ran', deadline)
    ensures StepsLeft(phases[i := next]) < StepsLeft(phases)
  {
    MoveCounts(phases, i, next, |sem|, deadline);
    SlotsMove(phases, sem, i, next, deadline);
    OneMore(|batches|, moves, deadline, i, next);
  }

  /** Runs one goroutine per source to the end, in an order the scheduler
      picks. moves is the schedule it happened to pick. */
  method FanOut(cache: C.Cache, gs: seq<Source>, r: Request, deadline: bool, ghost batches: seq<seq<Match>>)
    returns (out: seq<Match>, ghost moves: seq<Move>, ghost order: seq<nat>, ghost ran: set<nat>)
    requires Registry(gs) && Planned(cache.rows, cache.ttl, gs, r, batches)
    modifies cache
    ensures Schedule(|batches|, moves, deadline) && order == Appenders(|batches|, moves)
    ensures forall i: nat | i < |batches| :: PhasesAfter(|batches|, moves)[i].Done?
    ensures Order(order, |batches|) && (!deadline ==> forall i: nat | i < |batches| :: i in order)
    ensures out == Gather(batches, order)
    ensures forall i: nat | i < |batches| :: i in ran <==> i in order
    ensures Shared(cache.rows, old(cache.rows), cache.ttl, gs, r, ran)
  {
    ghost var before := cache.rows;
    var phases := seq(|gs|, i => Waiting);
    var sem: set<nat> := {};
    out, order, ran, moves := [], [], {}, [];
    ghost var left := StepsLeft(phases);
    while exists i :: 0 <= i < |gs| && !phases[i].Done?
      invariant Underway(phases, sem, batches, out, moves, order, ran, deadline)
      invariant Shared(cache.rows, before, cache.ttl, gs, r, ran)
      invariant left == StepsLeft(phases)
      decreases left
    {
      SomeoneCanMove(phases, deadline);
      var i: nat :| i < |gs| && CanMove(phases[i], |sem|, deadline);
      var next, out';
      ghost var order', ran';
      next, out', order', ran' := Turn(cache, gs, r, deadline, phases, |sem|, i, out, before, batches, order, ran);
      StillUnderway(phases, sem, batches, out, moves, order, ran, deadline, i, next, out', order', ran');
      moves := moves + [Move(i, next)];
      out, order, ran := out', order', ran';
      sem, phases := Slots(sem, i, phases[i], next), phases[i := next];
      left := StepsLeft(phases);
    }
    AllGone(phases, batches, out, order, ran, deadline);
  }

  // ---- the schedule does not matter -----------------------------------------------------------------

  lemma OrderWithout(s: seq<nat>, n: nat, j: nat)
    requires Order(s, n) && j < |s|
    ensures Order(Without(s, j), n) && forall i :: i in Without(s, j) <==> i in s && i != s[j]
  {
    assert s == s[..j] + [s[j]] + s[j + 1..];
  }

  lemma GatherNext(batches: seq<seq<Match>>, order: seq<nat>, i: nat)
    requires i < |batches| && forall j | 0 <= j < |order| :: order[j] < |batches|
    ensures Gather(batches, order + [i]) == Gather(batches, order) + batches[i]
  {
    assert (order + [i])[..|order|] == order;
  }

  lemma SumUp(all: seq<Match>, rest: seq<Match>, taken: seq<Match>, last: seq<Match>)
    requires multiset(all) == multiset(rest) + multiset(taken)
    ensures multiset(all + last) == multiset(rest + last) + multiset(taken)
  {
  }

  lemma {:induction false} GatherWithout(batches: seq<seq<Match>>, order: seq<nat>, j: nat)
    requires forall i | 0 <= i < |order| :: order[i] < |batches|
    requires j < |order|
    ensures multiset(Gather(batches, order)) == multiset(Gather(batches, Without(order, j))) + multiset(batches[order[j]])
  {
    var front, last := order[..|order| - 1], order[|order| - 1];
    LastApart(order);
    GatherNext(batches, front, last);
    TakeOutLast(front, last, j);
    if j < |front| {
      GatherWithout(batches, front, j);
      GatherNext(batches, Without(front, j), last);
      SumUp(Gather(batches, front), Gather(batches, Without(front, j)), batches[order[j]], batches[last]);
    }
  }

  /** Some of the sources gather some of the matches. */
  lemma {:induction false} GatherSome(batches: seq<seq<Match>>, s: seq<nat>, t: seq<nat>)
    requires Order(s, |batches|) && Order(t, |batches|)
    requires forall i | i in s :: i in t
    ensures multiset(Gather(batches, s)) <= multiset(Gather(batches, t))
    decreases |s|
  {
    if s != [] {
      assert s[0] in t;
      var j :| 0 <= j < |t| && t[j] == s[0];
      OrderWithout(s, |batches|, 0);
      OrderWithout(t, |batches|, j);
      GatherSome(batches, Without(s, 0), Without(t, j));
      GatherWithout(batches, s, 0);
      GatherWithout(batches, t, j);
    }
  }

  /** Every order of the same sources gathers the same matches. */
  lemma GatherPermutation(batches: seq<seq<Match>>, s: seq<nat>, t: seq<nat>)
    requires Order(s, |batches|) && Order(t, |batches|)
    requires forall i :: i in s <==> i in t
    ensures multiset(Gather(batches, s)) == multiset(Gather(batches, t))
  {
    GatherSome(batches, s, t);
    GatherSome(batches, t, s);
  }

  function Upto(n: nat): (s: seq<nat>)
    ensures Order(s, n) && forall i: nat :: i in s <==> i < n
  {
    if n == 0 then [] else Upto(n - 1) + [n - 1]
  }

  /** All batches in the order of the registry. */
  function Flat(batches: seq<seq<Match>>): seq<Match> { Gather(batches, Upto(|batches|)) }

  /** When every source has appended, the confidences returned are the best of
      all matches together, whatever the schedule; so are the matches above
      the last of them. */
  lemma ScheduleIndependent(batches: seq<seq<Match>>, order: seq<nat>)
    requires Order(order, |batches|) && forall i: nat | i < |batches| :: i in order
    ensures Confidences(Top(Gather(batches, order))) == Confidences(Top(Flat(batches)))
    ensures forall m: Match | |Top(Flat(batches))| > 0 && m.confidence > Top(Flat(batches))[|Top(Flat(batches))| - 1].confidence ::
              multiset(Top(Flat(batches)))[m] == multiset(Top(Gather(batches, order)))[m]
  {
    forall i ensures i in order <==> i in Upto(|batches|) {
    }
    GatherPermutation(batches, Upto(|batches|), order);
    TopIgnoresArrival(Flat(batches), Gather(batches, order));
  }

  // ---- the search -------------------------------------------------------------------------------------

  function Enabled(all: seq<Source>): seq<Source> {
    if all == [] then []
    else Enabled(all[..|all| - 1]) + if all[|all| - 1].enabled then [all[|all| - 1]] else []
  }

  lemma {:induction false} EnabledRegistry(all: seq<Source>)
    requires Registry(all)
    ensures Registry(Enabled(all)) && forall s :: s in Enabled(all) <==> s in all && s.enabled
  {
    if all != [] {
      var front, last := all[..|all| - 1], all[|all| - 1];
      EnabledRegistry(front);
      assert all == front + [last];
      forall i | 0 <= i < |Enabled(front)| ensures Enabled(front)[i].id != last.id {
        assert Enabled(front)[i] in front;
      }
    }
  }

  /** What each enabled source finds in the cache as the search meets it. */
  function Batches(rows: C.Rows, ttl: int, gs: seq<Source>, r: Request): (batches: seq<seq<Match>>)
    ensures Planned(rows, ttl, gs, r, batches)
  {
    Each(Finder(rows, ttl, r), gs)
  }

  function Finder(rows: C.Rows, ttl: int, r: Request): Source -> seq<Match> { s => Found(rows, ttl, s, r) }

  // ---- what every registered source contributes ---------------------------------------------------------

  lemma {:induction false} GatherFront(batches: seq<seq<Match>>, last: seq<Match>, order: seq<nat>)
    requires forall i | 0 <= i < |order| :: order[i] < |batches|
    ensures Gather(batches + [last], order) == Gather(batches, order)
  {
    if order != [] {
      GatherFront(batches, last, order[..|order| - 1]);
    }
  }

  lemma {:induction false} FlatIsConcat(batches: seq<seq<Match>>)
    ensures Flat(batches) == Concat(batches)
  {
    if batches != [] {
      var front, last := batches[..|batches| - 1], batches[|batches| - 1];
      FlatIsConcat(front);
      LastApart(batches);
      GatherFront(front, last, Upto(|front|));
      GatherNext(front + [last], Upto(|front|), |front|);
      ConcatNext(front, last);
    }
  }

  /** A source that is disabled contributes nothing. */
  function Given(f: Source -> seq<Match>, s: Source): seq<Match> { if s.enabled then f(s) else [] }

  function GivenAll(f: Source -> seq<Match>, all: seq<Source>): (given: seq<seq<Match>>)
    ensures |given| == |all| && forall i | 0 <= i < |all| :: given[i] == Given(f, all[i])
  {
    Each(s => Given(f, s), all)
  }

  lemma {:induction false} EnabledGive(f: Source -> seq<Match>, all: seq<Source>)
    ensures Concat(GivenAll(f, all)) == Concat(Each(f, Enabled(all)))
  {
    if all != [] {
      var front, last := all[..|all| - 1], all[|all| - 1];
      EnabledGive(f, front);
      LastApart(all);
      GivenNext(f, front, last);
      if last.enabled {
        assert Each(f, Enabled(front) + [last]) == Each(f, Enabled(front)) + [f(last)];
        ConcatNext(Each(f, Enabled(front)), f(last));
      } else {
        assert Enabled(front) + [] == Enabled(front);
      }
    }
  }

  lemma GivenNext(f: Source -> seq<Match>, front: seq<Source>, last: Source)
    ensures Concat(GivenAll(f, front + [last])) == Concat(GivenAll(f, front)) + Given(f, last)
  {
    assert GivenAll(f, front + [last]) == GivenAll(f, front) + [Given(f, last)];
    ConcatNext(GivenAll(f, front), Given(f, last));
  }

  lemma Contributions(rows: C.Rows, ttl: int, all: seq<Source>, r: Request) returns (given: seq<seq<Match>>)
    ensures given == GivenAll(Finder(rows, ttl, r), all) && Contributed(rows, ttl, all, r, given)
  {
    given := GivenAll(Finder(rows, ttl, r), all);
    forall i | 0 <= i < |all| ensures Contributes(rows, ttl, all[i], r, given[i]) {
      FoundDelivers(rows, ttl, all[i], r);
    }
  }

  predicate Contributes(rows: C.Rows, ttl: int, s: Source, r: Request, ms: seq<Match>) {
    if s.enabled then Delivers(rows, ttl, s, r, ms) else ms == []
  }

  /** One list per registered source: what an enabled one delivers, and nothing
      from a disabled one. */
  predicate Contributed(rows: C.Rows, ttl: int, all: seq<Source>, r: Request, given: seq<seq<Match>>) {
    |given| == |all| && forall i {:trigger Contributes(rows, ttl, all[i], r, given[i])} | 0 <= i < |all| ::
      Contributes(rows, ttl, all[i], r, given[i])
  }

  /** In terms of what every source contributes, some of it is gathered ... */
  lemma SomeIsGathered(f: Source -> seq<Match>, all: seq<Source>, order: seq<nat>)
    requires Order(order, |Enabled(all)|)
    ensures multiset(Gather(Each(f, Enabled(all)), order)) <= multiset(Concat(GivenAll(f, all)))
  {
    var batches := Each(f, Enabled(all));
    EnabledGive(f, all);
    FlatIsConcat(batches);
    GatherSome(batches, order, Upto(|batches|));
  }

  /** ... and all of it when every source has appended. */
  lemma AllIsGathered(f: Source -> seq<Match>, all: seq<Source>, order: seq<nat>)
    requires Order(order, |Enabled(all)|) && forall i: nat | i < |Enabled(all)| :: i in order
    ensures multiset(Gather(Each(f, Enabled(all)), order)) == multiset(Concat(GivenAll(f, all)))
  {
    var batches := Each(f, Enabled(all));
    EnabledGive(f, all);
    FlatIsConcat(batches);
    GatherPermutation(batches, order, Upto(|batches|));
  }

  /** What comes back of the matches that were gathered. */
  lemma TopOfSome(out: seq<Match>, given: seq<Match>)
    requires multiset(out) <= multiset(given)
    ensures multiset(Top(out)) <= multiset(given) && |Top(out)| <= 20
    ensures multiset(out) == multiset(given) ==> BestOf(Top(out), given)
  {
    TopIsBest(out);
    if multiset(out) == multiset(given) {
      BestOfSame(Top(out), out, given);
    }
  }

  lemma Outcome(rows: C.Rows, ttl: int, all: seq<Source>, r: Request, order: seq<nat>, deadline: bool)
    returns (given: seq<seq<Match>>)
    requires Order(order, |Enabled(all)|) && (!deadline ==> forall i: nat | i < |Enabled(all)| :: i in order)
    ensures var batches := Batches(rows, ttl, Enabled(all), r);
      var ms := Top(Gather(batches, order));
      && Contributed(rows, ttl, all, r, given)
      && multiset(ms) <= multiset(Concat(given)) && (!deadline ==> BestOf(ms, Concat(given)))
      && (!deadline ==> Confidences(ms) == Confidences(Top(Flat(batches))))
      && |ms| <= 20
  {
    var f := Finder(rows, ttl, r);
    given := Contributions(rows, ttl, all, r);
    SomeIsGathered(f, all, order);
    if !deadline {
      AllIsGathered(f, all, order);
      ScheduleIndependent(Batches(rows, ttl, Enabled(all), r), order);
    }
    TopOfSome(Gather(Batches(rows, ttl, Enabled(all), r), order), Concat(given));
  }

  method EnabledSources(all: seq<Source>) returns (gs: seq<Source>)
    ensures gs == Enabled(all)
  {
    gs := [];
    for i := 0 to |all|
      invariant gs == Enabled(all[..i])
    {
      assert all[..i + 1][..i] == all[..i];
      if !all[i].enabled {
        continue;
      }
      gs := gs + [all[i]];
    }
    assert all[..|all|] == all;
  }

  method Search(cache: C.Cache, all: seq<Source>, r: Request, deadline: bool)
    returns (ms: seq<Match>, ghost moves: seq<Move>, ghost order: seq<nat>, ghost ran: set<nat>, ghost given: seq<seq<Match>>)
    requires Registry(all)
    modifies cache
    ensures Contributed(old(cache.rows), cache.ttl, all, r, given)
    ensures multiset(ms) <= multiset(Concat(given)) && (!deadline ==> BestOf(ms, Concat(given)))
    ensures Schedule(|Enabled(all)|, moves, deadline) && order == Appenders(|Enabled(all)|, moves)
    ensures forall i: nat | i < |Enabled(all)| :: PhasesAfter(|Enabled(all)|, moves)[i].Done?
    ensures var batches := Batches(old(cache.rows), cache.ttl, Enabled(all), r);
      && Order(order, |batches|) && ms == Top(Gather(batches, order))
      && (!deadline ==> Confidences(ms) == Confidences(Top(Flat(batches))))
    ensures !deadline ==> forall i: nat | i < |Enabled(all)| :: i in order
    ensures |ms| <= 20
    ensures forall i: nat | i < |Enabled(all)| :: i in ran <==> i in order
    ensures Shared(cache.rows, old(cache.rows), cache.ttl, Enabled(all), r, ran)
  {
    var gs := EnabledSources(all);
    EnabledRegistry(all);
    ghost var batches := Batches(cache.rows, cache.ttl, gs, r);
    var out;
    out, moves, order, ran := FanOut(cache, gs, r, deadline, batches);
    given := Outcome(old(cache.rows), cache.ttl, all, r, order, deadline);
    ms := Sorted(out);
    if |ms| > MAX_RESULTS {
      ms := ms[..MAX_RESULTS];
    }
  }
}
