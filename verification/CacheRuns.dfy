/** Whole runs over the lookup cache: any number of searches in flight, an
    upstream that changes its mind, failing writes, evictions, and time. */
module CacheRuns {
  import opened Collections
  import opened Cache
  import Ebooks

  /** What the sources answer, and when; None is an error. */
  type Upstream = (Ask, int) -> Option<seq<Ebooks.Candidate>>

  datatype Answer = Answer(ask: Ask, records: seq<Ebooks.Candidate>, askedAt: int)

  datatype Stored = Stored(answer: Answer, at: int)

  /** inFlight are answers not yet written, log every answer ever written. */
  datatype State = State(rows: Rows, now: int, inFlight: seq<Answer>, log: seq<Stored>)

  datatype Event =
    | Tick(seconds: nat)
    | Fetch(a: Ask)
    | Write(i: nat, fault: bool)
    | Evict

  predicate Enabled(s: State, e: Event) {
    match e
    case Fetch(a) => ':' !in a.source
    case Write(i, _) => i < |s.inFlight|
    case _ => true
  }

  /** The put of searchOne: an empty answer is a negative row. */
  function Written(rows: Rows, a: Answer, now: int): Rows {
    Put(rows, KeyOf(a.ask), a.ask.source, a.ask.region,
        if a.records == [] then Other else List(a.records), a.records == [], now)
  }

  function Apply(s: State, e: Event, up: Upstream, ttl: int): State
    requires Enabled(s, e)
  {
    match e
    case Tick(seconds) => s.(now := s.now + seconds)
    case Fetch(a) =>
      var r := up(a, s.now);
      if r.None? then s else s.(inFlight := s.inFlight + [Answer(a, r.value, s.now)])
    case Write(i, fault) =>
      var a := s.inFlight[i];
      var t := s.(inFlight := s.inFlight[..i] + s.inFlight[i + 1..]);
      if fault || NUL in a.ask.region then t
      else t.(rows := Written(s.rows, a, s.now), log := s.log + [Stored(a, s.now)])
    case Evict => s.(rows := s.rows - Stale(s.rows, ttl, s.now))
  }

  // ---- the ideal memo ---------------------------------------------------------------------

  /** The last answer written for a question. */
  function Last(log: seq<Stored>, a: Ask): Option<Stored> {
    if log == [] then None
    else if log[|log| - 1].answer.ask == a then Some(log[|log| - 1])
    else Last(log[..|log| - 1], a)
  }

  function Life(records: seq<Ebooks.Candidate>, ttl: int): int {
    if records == [] then NOT_FOUND_TTL else ttl
  }

  /** The last answer written for this very question, while it is young enough. */
  function Remembered(log: seq<Stored>, a: Ask, ttl: int, now: int): Option<seq<Ebooks.Candidate>> {
    var last := Last(log, a);
    if last.None? || now - last.value.at > Life(last.value.answer.records, ttl) then None
    else Some(last.value.answer.records)
  }

  /** What searchOne finds: None sends it to the source. */
  function Hit(rows: Rows, a: Ask, ttl: int, now: int): Option<seq<Ebooks.Candidate>> {
    var e := Live(rows, ttl, KeyOf(a), now);
    if e.None? then None
    else if e.value.notFound then Some([])
    else if e.value.response.List? then Some(e.value.response.records)
    else None
  }

  // ---- the invariant -----------------------------------------------------------------------

  /** The row of one question against the log. */
  predicate Agrees(s: State, a: Ask, ttl: int) {
    var last, key := Last(s.log, a), KeyOf(a);
    && (key in s.rows ==> last.Some? && Shows(s.rows[key], last.value))
    && (key !in s.rows && last.Some? ==> s.now - last.value.at > Life(last.value.answer.records, ttl))
  }

  predicate Shows(e: Entry, r: Stored) {
    && e.fetchedAt == r.at
    && e.notFound == (r.answer.records == [])
    && (r.answer.records != [] ==> e.response == List(r.answer.records))
  }

  predicate Truthful(a: Answer, up: Upstream, now: int) {
    && ':' !in a.ask.source && a.askedAt <= now
    && up(a.ask, a.askedAt) == Some(a.records)
  }

  /** Everything fetched was answered, everything written was fetched. */
  predicate Honest(s: State, up: Upstream) {
    && (forall i | 0 <= i < |s.inFlight| :: Truthful(s.inFlight[i], up, s.now))
    && (forall i | 0 <= i < |s.log| :: Truthful(s.log[i].answer, up, s.log[i].at) && s.log[i].at <= s.now)
  }

  ghost predicate Sound(s: State, up: Upstream, ttl: int) {
    Honest(s, up) && forall a: Ask | ':' !in a.source && Safe(a) :: Agrees(s, a, ttl)
  }

  lemma LastIsInLog(log: seq<Stored>, a: Ask)
    ensures Last(log, a).Some? ==> Last(log, a).value in log && Last(log, a).value.answer.ask == a
  {
  }

  lemma WriteAgrees(s: State, b: Answer, a: Ask, ttl: int)
    requires ':' !in a.source && Safe(a) && Agrees(s, a, ttl)
    requires ':' !in b.ask.source && NUL !in b.ask.region
    ensures Agrees(s.(rows := Written(s.rows, b, s.now), log := s.log + [Stored(b, s.now)]), a, ttl)
  {
    assert (s.log + [Stored(b, s.now)])[..|s.log|] == s.log;
    if KeyOf(b.ask) == KeyOf(a) {
      SafeIsAlone(a, b.ask);
    }
  }

  lemma StepKeepsHonest(s: State, e: Event, up: Upstream, ttl: int)
    requires Honest(s, up) && Enabled(s, e)
    ensures Honest(Apply(s, e, up, ttl), up)
  {
    if e.Write? {
      var t := Apply(s, e, up, ttl);
      assert Truthful(s.inFlight[e.i], up, s.now);
      assert forall i | 0 <= i < |t.inFlight| :: t.inFlight[i] == s.inFlight[if i < e.i then i else i + 1];
    }
  }

  lemma StepAgrees(s: State, e: Event, up: Upstream, ttl: int, a: Ask)
    requires Honest(s, up) && Enabled(s, e)
    requires ':' !in a.source && Safe(a) && Agrees(s, a, ttl)
    ensures Agrees(Apply(s, e, up, ttl), a, ttl)
  {
    if e.Write? && !e.fault && NUL !in s.inFlight[e.i].ask.region {
      assert Truthful(s.inFlight[e.i], up, s.now);
      WriteAgrees(s, s.inFlight[e.i], a, ttl);
    }
  }

  lemma StepKeepsSound(s: State, e: Event, up: Upstream, ttl: int)
    requires Sound(s, up, ttl) && Enabled(s, e)
    ensures Sound(Apply(s, e, up, ttl), up, ttl)
  {
    StepKeepsHonest(s, e, up, ttl);
    forall a: Ask | ':' !in a.source && Safe(a) ensures Agrees(Apply(s, e, up, ttl), a, ttl) {
      StepAgrees(s, e, up, ttl, a);
    }
  }

  ghost predicate IsRun(states: seq<State>, es: seq<Event>, up: Upstream, ttl: int) {
    && |states| == |es| + 1
    && states[0].rows == map[] && states[0].inFlight == [] && states[0].log == []
    && forall i | 0 <= i < |es| :: Enabled(states[i], es[i]) && states[i + 1] == Apply(states[i], es[i], up, ttl)
  }

  lemma {:induction false} AlwaysSound(states: seq<State>, es: seq<Event>, up: Upstream, ttl: int, n: nat)
    requires IsRun(states, es, up, ttl) && n <= |es|
    ensures Sound(states[n], up, ttl)
  {
    if n > 0 {
      AlwaysSound(states, es, up, ttl, n - 1);
      StepKeepsSound(states[n - 1], es[n - 1], up, ttl);
    }
  }

  // ---- theorems ------------------------------------------------------------------------------

  /** In every reachable state a lookup finds exactly the last answer written
      for the same source, region and query while it is young enough, and
      nothing otherwise: keys, negative rows and evictions leave no trace. */
  lemma CacheIsIdealMemo(states: seq<State>, es: seq<Event>, up: Upstream, ttl: int, n: nat, a: Ask)
    requires IsRun(states, es, up, ttl) && n <= |es|
    requires ':' !in a.source && Safe(a)
    ensures Hit(states[n].rows, a, ttl, states[n].now) == Remembered(states[n].log, a, ttl, states[n].now)
  {
    AlwaysSound(states, es, up, ttl, n);
    assert Agrees(states[n], a, ttl);
  }

  /** A cached answer is one the source itself gave to this question, without
      error, before it was written at most one TTL ago. */
  lemma HitsAreRecentAnswers(states: seq<State>, es: seq<Event>, up: Upstream, ttl: int, n: nat, a: Ask)
    returns (askedAt: int, writtenAt: int)
    requires IsRun(states, es, up, ttl) && n <= |es|
    requires ':' !in a.source && Safe(a)
    requires Hit(states[n].rows, a, ttl, states[n].now).Some?
    ensures up(a, askedAt) == Hit(states[n].rows, a, ttl, states[n].now)
    ensures askedAt <= writtenAt <= states[n].now
    ensures states[n].now - writtenAt <= Life(Hit(states[n].rows, a, ttl, states[n].now).value, ttl)
  {
    AlwaysSound(states, es, up, ttl, n);
    CacheIsIdealMemo(states, es, up, ttl, n, a);
    var last := Last(states[n].log, a).value;
    LastIsInLog(states[n].log, a);
    var i :| 0 <= i < |states[n].log| && states[n].log[i] == last;
    assert Truthful(states[n].log[i].answer, up, last.at);
    askedAt, writtenAt := last.answer.askedAt, last.at;
  }

  /** Outside that condition it fails: for every unsafe question there is a run
      that never asked it and yet finds another question's answer. */
  lemma UnsafeReadsAnother(a: Ask, records: seq<Ebooks.Candidate>, ttl: nat)
    returns (b: Ask, up: Upstream, states: seq<State>, es: seq<Event>)
    requires ':' !in a.source && !Safe(a)
    ensures IsRun(states, es, up, ttl) && |es| == 2 && b != a
    ensures forall t :: up(a, t) == None
    ensures Hit(states[2].rows, a, ttl, states[2].now) == Some(records)
    ensures Remembered(states[2].log, a, ttl, states[2].now) == None
  {
    b := Twin(a);
    up := (x: Ask, t: int) => if x == b then Some(records) else None;
    es := [Fetch(b), Write(0, false)];
    var s := State(map[], 0, [], []);
    var t := Apply(s, es[0], up, ttl);
    states := [s, t, Apply(t, es[1], up, ttl)];
    assert states[2].log == [Stored(Answer(b, records, 0), 0)];
    LastIsInLog(states[2].log, a);
  }
}
