/** The migration runner: check, apply and record each version in one
    transaction, possibly by several processes at once. */
module Migrate {

  predicate Distinct(s: seq<string>) {
    forall i, j | 0 <= i < j < |s| :: s[i] != s[j]
  }

  // ---- any number of runners, one SQL statement a step ------------------------------------------------

  /** Where a Run stands with version number k: about to look for its record,
      about to apply it, body applied but not recorded, record inserted but not
      committed. */
  datatype Phase =
    | Checking(k: nat)
    | Applying(k: nat)
    | Recording(k: nat)
    | Committing(k: nat)
    | Returned(ok: bool)

  /** What is committed: the records, and the bodies that took effect, in order. */
  datatype State = State(recorded: seq<string>, bodies: seq<string>, runs: map<nat, Phase>)

  datatype Event =
    | Start(r: nat)
    | Check(r: nat)
    | Apply(r: nat)
    | Insert(r: nat)
    | Commit(r: nat, answered: bool) // unanswered: committed, but the reply is lost
    | Abort(r: nat) // any error, a crash or a lost connection; the transaction rolls back

  /** A second insert of the same key waits for the first transaction to end. */
  predicate Enabled(vs: seq<string>, s: State, e: Event) {
    match e
    case Start(r) => r !in s.runs
    case Check(r) => r in s.runs && s.runs[r].Checking?
    case Apply(r) => r in s.runs && s.runs[r].Applying?
    case Insert(r) =>
      && r in s.runs && s.runs[r].Recording?
      && forall q | q in s.runs && s.runs[q].Committing? :: s.runs[q].k != s.runs[r].k
    case Commit(r, _) => r in s.runs && s.runs[r].Committing?
    case Abort(r) => r in s.runs && !s.runs[r].Returned?
  }

  function Next(vs: seq<string>, s: State, e: Event): State
    requires Bounded(vs, s) && Enabled(vs, s, e)
  {
    match e
    case Start(r) => s.(runs := s.runs[r := Checking(0)])
    case Check(r) =>
      var k := s.runs[r].k;
      s.(runs := s.runs[r :=
        if k == |vs| then Returned(true) else if vs[k] in s.recorded then Checking(k + 1) else Applying(k)])
    case Apply(r) => s.(runs := s.runs[r := Recording(s.runs[r].k)])
    case Insert(r) =>
      var k := s.runs[r].k;
      s.(runs := s.runs[r := if vs[k] in s.recorded then Returned(false) else Committing(k)])
    case Commit(r, answered) =>
      var k := s.runs[r].k;
      State(s.recorded + [vs[k]], s.bodies + [vs[k]],
            s.runs[r := if answered then Checking(k + 1) else Returned(false)])
    case Abort(r) => s.(runs := s.runs[r := Returned(false)])
  }

  predicate InRange(vs: seq<string>, p: Phase) {
    match p
    case Returned(_) => true
    case Checking(k) => k <= |vs|
    case Applying(k) => k < |vs|
    case Recording(k) => k < |vs|
    case Committing(k) => k < |vs|
  }

  predicate Bounded(vs: seq<string>, s: State) {
    forall r | r in s.runs :: InRange(vs, s.runs[r])
  }

  predicate RecordedUpTo(vs: seq<string>, recorded: seq<string>, k: nat) {
    k <= |vs| && forall j | 0 <= j < k :: vs[j] in recorded
  }

  /** Everything before the version a run stands at is recorded; a version about
      to be committed is not. */
  predicate Passed(vs: seq<string>, recorded: seq<string>, p: Phase) {
    match p
    case Checking(k) => RecordedUpTo(vs, recorded, k)
    case Applying(k) => k < |vs| && RecordedUpTo(vs, recorded, k)
    case Recording(k) => k < |vs| && RecordedUpTo(vs, recorded, k)
    case Committing(k) => k < |vs| && RecordedUpTo(vs, recorded, k) && vs[k] !in recorded
    case Returned(ok) => ok ==> RecordedUpTo(vs, recorded, |vs|)
  }

  predicate Sound(vs: seq<string>, s: State) {
    && s.bodies == s.recorded && Distinct(s.recorded)
    && (forall r | r in s.runs :: Passed(vs, s.recorded, s.runs[r]))
    && (forall q, r | q in s.runs && r in s.runs && q != r && s.runs[q].Committing? && s.runs[r].Committing? ::
          s.runs[q].k != s.runs[r].k)
  }

  lemma SoundIsBounded(vs: seq<string>, s: State)
    requires Sound(vs, s)
    ensures Bounded(vs, s)
  {
    forall r | r in s.runs ensures InRange(vs, s.runs[r]) {
      assert Passed(vs, s.recorded, s.runs[r]);
    }
  }

  lemma CommitKeepsSound(vs: seq<string>, s: State, r: nat, answered: bool)
    requires Distinct(vs) && Sound(vs, s) && Bounded(vs, s) && Enabled(vs, s, Commit(r, answered))
    ensures Sound(vs, Next(vs, s, Commit(r, answered)))
  {
    var t := Next(vs, s, Commit(r, answered));
    var k := s.runs[r].k;
    assert Passed(vs, s.recorded, s.runs[r]);
    assert forall v :: v in t.recorded <==> v in s.recorded || v == vs[k];
    forall q | q in t.runs ensures Passed(vs, t.recorded, t.runs[q]) {
      if q != r {
        assert Passed(vs, s.recorded, s.runs[q]);
      }
    }
  }

  lemma StepKeepsSound(vs: seq<string>, s: State, e: Event)
    requires Distinct(vs) && Sound(vs, s) && Bounded(vs, s) && Enabled(vs, s, e)
    ensures Sound(vs, Next(vs, s, e))
  {
    if e.Commit? {
      CommitKeepsSound(vs, s, e.r, e.answered);
    } else {
      var t := Next(vs, s, e);
      forall q | q in t.runs ensures Passed(vs, t.recorded, t.runs[q]) {
        if q in s.runs {
          assert Passed(vs, s.recorded, s.runs[q]);
        }
      }
    }
  }

  /** With the records a prefix of the list, a run that commits stands exactly
      at its end, so the records grow along the list. */
  predicate Prefix(vs: seq<string>, recorded: seq<string>) { recorded <= vs }

  lemma EndOfPrefix(vs: seq<string>, recorded: seq<string>, k: nat)
    requires Distinct(vs) && recorded <= vs && k < |vs| && vs[k] !in recorded
    requires RecordedUpTo(vs, recorded, k)
    ensures k == |recorded|
  {
    assert forall j | 0 <= j < |recorded| :: vs[j] == recorded[j];
    forall j | |recorded| <= j < |vs| ensures vs[j] !in recorded {
    }
    assert vs[|recorded|] !in recorded;
  }

  lemma CommitExtends(vs: seq<string>, s: State, r: nat)
    requires Distinct(vs) && Sound(vs, s) && Prefix(vs, s.recorded)
    requires r in s.runs && s.runs[r].Committing?
    ensures s.runs[r].k == |s.recorded|
  {
    assert Passed(vs, s.recorded, s.runs[r]);
    EndOfPrefix(vs, s.recorded, s.runs[r].k);
  }

  ghost predicate IsRun(vs: seq<string>, states: seq<State>, es: seq<Event>) {
    && |states| == |es| + 1 && Distinct(vs)
    && states[0].runs == map[] && states[0].bodies == states[0].recorded && Distinct(states[0].recorded)
    && forall i | 0 <= i < |es| :: Stepped(vs, states[i], es[i], states[i + 1])
  }

  predicate Stepped(vs: seq<string>, s: State, e: Event, t: State) {
    Bounded(vs, s) && Enabled(vs, s, e) && t == Next(vs, s, e)
  }

  /** In every interleaving, with failures and crashes anywhere, each version is
      committed at most once and together with its record; a Run that has
      returned nil leaves every version recorded for good. */
  lemma {:induction false} OnceWithItsRecord(vs: seq<string>, states: seq<State>, es: seq<Event>, n: nat)
    requires IsRun(vs, states, es) && n <= |es|
    ensures states[n].bodies == states[n].recorded && Distinct(states[n].bodies)
    ensures forall r, v | r in states[n].runs && states[n].runs[r] == Returned(true) && v in vs :: v in states[n].recorded
    ensures Sound(vs, states[n]) && Bounded(vs, states[n])
  {
    if n > 0 {
      OnceWithItsRecord(vs, states, es, n - 1);
      assert Stepped(vs, states[n - 1], es[n - 1], states[n]);
      StepKeepsSound(vs, states[n - 1], es[n - 1]);
    }
    SoundIsBounded(vs, states[n]);
    forall r, v | r in states[n].runs && states[n].runs[r] == Returned(true) && v in vs ensures v in states[n].recorded {
      assert Passed(vs, states[n].recorded, states[n].runs[r]);
    }
  }

  /** The records are a prefix of the sorted list for ever exactly if they start
      as one (a file added later may sort before a recorded one); then at most
      one transaction is about to commit. */
  lemma {:induction false} AlwaysPrefix(vs: seq<string>, states: seq<State>, es: seq<Event>, n: nat)
    requires IsRun(vs, states, es) && n <= |es|
    ensures states[0].recorded <= states[n].recorded
    ensures Prefix(vs, states[n].recorded) <==> Prefix(vs, states[0].recorded)
    ensures Prefix(vs, states[0].recorded) ==> OneCommitting(states[n])
  {
    OnceWithItsRecord(vs, states, es, n);
    if n > 0 {
      AlwaysPrefix(vs, states, es, n - 1);
      OnceWithItsRecord(vs, states, es, n - 1);
      var s, e := states[n - 1], es[n - 1];
      assert Stepped(vs, s, e, states[n]);
      if e.Commit? && Prefix(vs, s.recorded) {
        CommitExtends(vs, s, e.r);
      }
    }
    if Prefix(vs, states[n].recorded) {
      NextIsUnique(vs, states[n]);
    }
  }

  predicate OneCommitting(s: State) {
    forall q, r | q in s.runs && r in s.runs && s.runs[q].Committing? && s.runs[r].Committing? :: q == r
  }

  lemma NextIsUnique(vs: seq<string>, s: State)
    requires Distinct(vs) && Sound(vs, s) && Prefix(vs, s.recorded)
    ensures OneCommitting(s)
  {
    forall q, r | q in s.runs && r in s.runs && s.runs[q].Committing? && s.runs[r].Committing? ensures q == r {
      CommitExtends(vs, s, q);
      CommitExtends(vs, s, r);
    }
  }

  // ---- one Run ---------------------------------------------------------------------------------------------

  /** What the other runs may do to the records between two statements of this
      one: extend them along the list, but not while this one is about to commit. */
  predicate OthersRan(vs: seq<string>, before: seq<string>, after: seq<string>, committing: bool) {
    before <= after <= vs && (committing ==> after == before)
  }

  /** Every step of another run is such an interference. */
  lemma OthersStep(vs: seq<string>, s: State, e: Event, me: nat)
    requires Distinct(vs) && Sound(vs, s) && Bounded(vs, s) && Prefix(vs, s.recorded)
    requires Enabled(vs, s, e) && e.r != me
    ensures OthersRan(vs, s.recorded, Next(vs, s, e).recorded, me in s.runs && s.runs[me].Committing?)
  {
    if e.Commit? {
      CommitExtends(vs, s, e.r);
      if me in s.runs && s.runs[me].Committing? {
        CommitExtends(vs, s, me);
      }
    }
  }

  datatype CommitFate = Commits | Refused | ReplyLost

  /** Which statements fail, for reasons of their own. */
  datatype Trouble = Trouble(connect: bool, bookkeeping: bool, check: string -> bool, read: string -> bool,
                             begin: string -> bool, body: string -> bool, insert: string -> bool,
                             commit: string -> CommitFate)

  datatype Outcome =
    | Nil
    | ConnectError
    | BookkeepingError
    | CheckError(version: string)
    | ReadError(version: string)
    | BeginError(version: string)
    | ApplyError(version: string)
    | RecordError(version: string)
    | CommitError(version: string)

  predicate Applies(t: Trouble, v: string) {
    !t.read(v) && !t.begin(v) && !t.body(v) && !t.insert(v) && t.commit(v).Commits?
  }

  class Database {
    var recorded: seq<string>
    var bodies: seq<string>

    predicate Valid(vs: seq<string>)
      reads this
    {
      Distinct(vs) && bodies == recorded <= vs
    }

    /** The other runs take their turns; this one only knows what OthersRan says. */
    method OthersRun(vs: seq<string>, committing: bool, alone: bool)
      requires Valid(vs)
      modifies this
      ensures Valid(vs) && OthersRan(vs, old(recorded), recorded, committing)
      ensures alone ==> recorded == old(recorded)
    {
    }

    /** One version, once it was not found. */
    method ApplyAndRecord(vs: seq<string>, k: nat, t: Trouble, alone: bool) returns (o: Outcome)
      requires Valid(vs) && k < |vs| && k <= |recorded|
      modifies this
      ensures Valid(vs) && old(recorded) <= recorded
      ensures o.Nil? ==> k < |recorded|
      ensures alone && k == |old(recorded)| ==>
        && (o.Nil? <==> Applies(t, vs[k]))
        && recorded == old(recorded) + if o.Nil? || (o.CommitError? && t.commit(vs[k]).ReplyLost?) then [vs[k]] else []
      ensures o.RecordError? && !t.insert(vs[k]) ==> vs[k] in recorded
    {
      var v := vs[k];
      if t.read(v) {
        return ReadError(v);
      }
      if t.begin(v) {
        return BeginError(v);
      }
      OthersRun(vs, false, alone);
      if t.body(v) {
        return ApplyError(v);
      }
      OthersRun(vs, false, alone);
      if t.insert(v) || v in recorded {
        return RecordError(v);
      }
      OthersRun(vs, true, alone);
      match t.commit(v)
      case Refused => return CommitError(v);
      case ReplyLost =>
        RecordNext(vs, k);
        recorded, bodies := recorded + [v], bodies + [v];
        return CommitError(v);
      case Commits =>
        RecordNext(vs, k);
        recorded, bodies := recorded + [v], bodies + [v];
        return Nil;
    }

    lemma RecordNext(vs: seq<string>, k: nat)
      requires Valid(vs) && k < |vs| && k <= |recorded| && vs[k] !in recorded
      ensures k == |recorded| && recorded + [vs[k]] <= vs
    {
    }

    /** Nil means everything is recorded, whatever the others do. Left alone, a
        Run returns nil exactly if nothing fails that it needs. */
    method Run(vs: seq<string>, t: Trouble, alone: bool) returns (o: Outcome)
      requires Valid(vs)
      modifies this
      ensures Valid(vs) && old(recorded) <= recorded
      ensures o.Nil? ==> recorded == vs
      ensures alone ==>
        (o.Nil? <==> !t.connect && !t.bookkeeping && (forall i | 0 <= i < |vs| :: !t.check(vs[i]))
                     && forall i | |old(recorded)| <= i < |vs| :: Applies(t, vs[i]))
    {
      if t.connect {
        return ConnectError;
      }
      if t.bookkeeping {
        return BookkeepingError;
      }
      ghost var before := recorded;
      for k := 0 to |vs|
        invariant Valid(vs) && before <= recorded && k <= |recorded|
        invariant alone ==> |recorded| == (if k <= |before| then |before| else k)
        invariant alone ==> (forall i | 0 <= i < k :: !t.check(vs[i])) && forall i | |before| <= i < k :: Applies(t, vs[i])
      {
        OthersRun(vs, false, alone);
        if t.check(vs[k]) {
          return CheckError(vs[k]);
        }
        if vs[k] in recorded {
          continue;
        }
        o := ApplyAndRecord(vs, k, t, alone);
        if !o.Nil? {
          return;
        }
      }
      o := Nil;
    }
  }
}
