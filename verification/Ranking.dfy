/** Ordering and cutting the matches of a search: sort.SliceStable by
    descending confidence, then the first twenty. */
module Ranking {
  import opened Collections
  import Ebooks

  datatype Match = Match(source: string, confidence: nat, candidate: Ebooks.Candidate)

  const MAX_RESULTS := 20

  function Confidences(ms: seq<Match>): seq<nat> { Each((m: Match) => m.confidence, ms) }

  predicate Descending(ms: seq<Match>) {
    forall i, j | 0 <= i < j < |ms| :: ms[i].confidence >= ms[j].confidence
  }

  function Tail(m: Match, c: nat): seq<Match> { if m.confidence == c then [m] else [] }

  /** The matches of one confidence, in their order. */
  function Of(ms: seq<Match>, c: nat): seq<Match> {
    if ms == [] then []
    else Of(ms[..|ms| - 1], c) + Tail(ms[|ms| - 1], c)
  }

  // ---- the stable sort -----------------------------------------------------------------------

  /** m goes behind everything that is at least as good. */
  function Place(ms: seq<Match>, m: Match): seq<Match> {
    if ms == [] || ms[|ms| - 1].confidence >= m.confidence then ms + [m]
    else Place(ms[..|ms| - 1], m) + [ms[|ms| - 1]]
  }

  function Sorted(ms: seq<Match>): seq<Match> {
    if ms == [] then [] else Place(Sorted(ms[..|ms| - 1]), ms[|ms| - 1])
  }

  /** What makes a sort by descending confidence stable. */
  ghost predicate StableSortOf(s: seq<Match>, t: seq<Match>) {
    Descending(t) && multiset(t) == multiset(s) && forall c :: Of(t, c) == Of(s, c)
  }

  lemma {:induction false} PlaceDescends(ms: seq<Match>, m: Match)
    requires Descending(ms)
    ensures Descending(Place(ms, m)) && forall x | x in Place(ms, m) :: x in ms || x == m
  {
    if !(ms == [] || ms[|ms| - 1].confidence >= m.confidence) {
      PlaceDescends(ms[..|ms| - 1], m);
      var front := Place(ms[..|ms| - 1], m);
      forall i | 0 <= i < |front| ensures front[i].confidence >= ms[|ms| - 1].confidence {
        assert front[i] in front;
      }
    }
  }

  lemma {:induction false} PlaceMultiset(ms: seq<Match>, m: Match)
    ensures multiset(Place(ms, m)) == multiset(ms) + multiset{m}
  {
    if !(ms == [] || ms[|ms| - 1].confidence >= m.confidence) {
      PlaceMultiset(ms[..|ms| - 1], m);
      assert ms == ms[..|ms| - 1] + [ms[|ms| - 1]];
    }
  }

  lemma OfNext(ms: seq<Match>, m: Match, c: nat)
    ensures Of(ms + [m], c) == Of(ms, c) + Tail(m, c)
  {
    assert (ms + [m])[..|ms|] == ms;
  }

  lemma SwapTails(ms: seq<Match>, m: Match, n: Match, c: nat)
    requires m.confidence != n.confidence
    ensures ms + Tail(m, c) + Tail(n, c) == ms + Tail(n, c) + Tail(m, c)
  {
  }

  lemma {:induction false} PlaceOf(ms: seq<Match>, m: Match, c: nat)
    ensures Of(Place(ms, m), c) == Of(ms, c) + Tail(m, c)
  {
    if ms == [] || ms[|ms| - 1].confidence >= m.confidence {
      OfNext(ms, m, c);
    } else {
      var front, last := ms[..|ms| - 1], ms[|ms| - 1];
      PlaceOf(front, m, c);
      OfNext(Place(front, m), last, c);
      SwapTails(Of(front, c), m, last, c);
    }
  }

  lemma {:induction false} SortedIsStable(ms: seq<Match>)
    ensures StableSortOf(ms, Sorted(ms))
  {
    if ms != [] {
      var front, last := ms[..|ms| - 1], ms[|ms| - 1];
      SortedIsStable(front);
      PlaceDescends(Sorted(front), last);
      PlaceMultiset(Sorted(front), last);
      assert ms == front + [last];
      forall c: nat ensures Of(Sorted(ms), c) == Of(ms, c) {
        PlaceOf(Sorted(front), last, c);
      }
    }
  }

  lemma LastConfidence(s: seq<Match>, t: seq<Match>)
    requires Descending(s) && multiset(s) == multiset(t) && s != [] && t != []
    ensures s[|s| - 1].confidence <= t[|t| - 1].confidence
  {
    assert t[|t| - 1] in multiset(s);
  }

  lemma OfFront(s: seq<Match>, t: seq<Match>, c: nat)
    requires s != [] && t != [] && s[|s| - 1] == t[|t| - 1] && Of(s, c) == Of(t, c)
    ensures Of(s[..|s| - 1], c) == Of(t[..|t| - 1], c)
  {
    DropTail(Of(s[..|s| - 1], c), Of(t[..|t| - 1], c), Tail(s[|s| - 1], c));
  }

  lemma SameLast(s: seq<Match>, t: seq<Match>)
    requires Descending(s) && Descending(t) && s != [] && t != []
    requires multiset(s) == multiset(t) && forall c :: Of(s, c) == Of(t, c)
    ensures s[|s| - 1] == t[|t| - 1]
  {
    LastConfidence(s, t);
    LastConfidence(t, s);
    var c := s[|s| - 1].confidence;
    assert Of(s, c) == Of(t, c);
    SameTip(Of(s[..|s| - 1], c), s[|s| - 1], Of(t[..|t| - 1], c), t[|t| - 1]);
  }

  lemma SameFronts(s: seq<Match>, t: seq<Match>)
    requires s != [] && t != [] && s[|s| - 1] == t[|t| - 1] && multiset(s) == multiset(t)
    ensures multiset(s[..|s| - 1]) == multiset(t[..|t| - 1])
  {
    TakeOutBoth(s, |s| - 1, t, |t| - 1);
    assert Without(s, |s| - 1) == s[..|s| - 1] && Without(t, |t| - 1) == t[..|t| - 1];
  }

  /** A stable sort has one possible result, so it is this one. */
  lemma {:induction false} StableSortIsUnique(s: seq<Match>, t: seq<Match>)
    requires Descending(s) && Descending(t)
    requires multiset(s) == multiset(t) && forall c :: Of(s, c) == Of(t, c)
    ensures s == t
  {
    SameLength(s, t);
    if s != [] {
      SameLast(s, t);
      SameFronts(s, t);
      var f, g := s[..|s| - 1], t[..|t| - 1];
      forall d: nat ensures Of(f, d) == Of(g, d) {
        OfFront(s, t, d);
      }
      StableSortIsUnique(f, g);
      LastApart(s);
      LastApart(t);
    }
  }

  // ---- the cut ---------------------------------------------------------------------------------

  function Cut(ms: seq<Match>): seq<Match> {
    if |ms| > MAX_RESULTS then ms[..MAX_RESULTS] else ms
  }

  function Top(ms: seq<Match>): seq<Match> { Cut(Sorted(ms)) }

  lemma SameConfidences(s: seq<Match>, t: seq<Match>)
    requires Descending(s) && Descending(t) && multiset(s) == multiset(t)
    ensures Confidences(s) == Confidences(t)
  {
    EachMultiset((m: Match) => m.confidence, s, t);
    FallingUnique(Confidences(s), Confidences(t));
  }

  /** Nothing better than the last of the first twenty lies behind them. */
  lemma BetterIsInside(s: seq<Match>, m: Match)
    requires Descending(s) && |s| > MAX_RESULTS && m.confidence > s[MAX_RESULTS - 1].confidence
    ensures multiset(Cut(s))[m] == multiset(s)[m]
  {
    var front, rest := s[..MAX_RESULTS], s[MAX_RESULTS..];
    assert s == front + rest;
    assert forall x | x in rest :: x.confidence <= s[MAX_RESULTS - 1].confidence;
    assert m !in multiset(rest);
  }

  /** The twenty best of all: no match left out is better than one returned. */
  ghost predicate BestOf(ms: seq<Match>, all: seq<Match>) {
    && multiset(ms) <= multiset(all) && |ms| == (if |all| <= 20 then |all| else 20)
    && (forall i, j | 0 <= i < j < |ms| :: ms[i].confidence >= ms[j].confidence)
    && (forall m, x | m in ms && x in multiset(all) - multiset(ms) :: m.confidence >= x.confidence)
  }

  lemma NoneBetter(front: seq<Match>, rest: seq<Match>)
    requires Descending(front + rest)
    ensures forall m, x | m in front && x in rest :: m.confidence >= x.confidence
  {
    forall m, x | m in front && x in rest ensures m.confidence >= x.confidence {
      var i :| 0 <= i < |front| && front[i] == m;
      var j :| 0 <= j < |rest| && rest[j] == x;
      assert (front + rest)[i] == m && (front + rest)[|front| + j] == x;
    }
  }

  lemma Remainder(front: seq<Match>, rest: seq<Match>)
    ensures multiset(front) <= multiset(front + rest)
    ensures forall x :: x in multiset(front + rest) - multiset(front) <==> x in rest
  {
    assert multiset(front + rest) - multiset(front) == multiset(rest);
  }

  lemma FrontIsBest(front: seq<Match>, rest: seq<Match>)
    requires Descending(front + rest) && |front| <= MAX_RESULTS && (rest == [] || |front| == MAX_RESULTS)
    ensures BestOf(front, front + rest)
  {
    Remainder(front, rest);
    NoneBetter(front, rest);
    forall i, j | 0 <= i < j < |front| ensures front[i].confidence >= front[j].confidence {
      assert (front + rest)[i] == front[i] && (front + rest)[j] == front[j];
    }
  }

  lemma CutIsBest(t: seq<Match>)
    requires Descending(t)
    ensures BestOf(Cut(t), t)
  {
    var n := if |t| > MAX_RESULTS then MAX_RESULTS else |t|;
    assert t == t[..n] + t[n..] && Cut(t) == t[..n];
    FrontIsBest(t[..n], t[n..]);
  }

  lemma BestOfSame(ms: seq<Match>, s: seq<Match>, t: seq<Match>)
    requires multiset(s) == multiset(t) && BestOf(ms, s)
    ensures BestOf(ms, t)
  {
    SameLength(s, t);
  }

  lemma TopIsBest(s: seq<Match>)
    ensures BestOf(Top(s), s)
  {
    SortedIsStable(s);
    CutIsBest(Sorted(s));
    BestOfSame(Top(s), Sorted(s), s);
  }

  /** The order in which matches arrive changes neither the confidences that
      come out nor the matches above the last of them: only ties at the cut vary. */
  lemma TopIgnoresArrival(s: seq<Match>, t: seq<Match>)
    requires multiset(s) == multiset(t)
    ensures Confidences(Top(s)) == Confidences(Top(t))
    ensures forall m: Match | |Top(s)| > 0 && m.confidence > Top(s)[|Top(s)| - 1].confidence ::
              multiset(Top(s))[m] == multiset(Top(t))[m]
  {
    SortedIsStable(s);
    SortedIsStable(t);
    CutIgnoresTies(Sorted(s), Sorted(t));
  }

  lemma CutIgnoresTies(u: seq<Match>, v: seq<Match>)
    requires Descending(u) && Descending(v) && multiset(u) == multiset(v)
    ensures Confidences(Cut(u)) == Confidences(Cut(v))
    ensures forall m: Match | |Cut(u)| > 0 && m.confidence > Cut(u)[|Cut(u)| - 1].confidence ::
              multiset(Cut(u))[m] == multiset(Cut(v))[m]
  {
    SameLength(u, v);
    SameConfidences(u, v);
    assert forall i | 0 <= i < |u| :: Confidences(u)[i] == u[i].confidence && Confidences(v)[i] == v[i].confidence;
    if |u| > MAX_RESULTS {
      forall m: Match | m.confidence > u[MAX_RESULTS - 1].confidence
        ensures multiset(Cut(u))[m] == multiset(Cut(v))[m]
      {
        BetterIsInside(u, m);
        BetterIsInside(v, m);
      }
    }
  }
}
