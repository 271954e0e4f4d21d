/** The confidence formula. Shares are exact integer floors. */
module Confidence {
  import opened Collections
  import opened Ebooks
  import Isbn
  import Names
  import Text

  predicate OccursAt(s: string, sub: string, i: nat) {
    i + |sub| <= |s| && s[i..i + |sub|] == sub
  }

  /** strings.Contains. */
  predicate Contains(s: string, sub: string) {
    exists i: nat | i <= |s| :: OccursAt(s, sub, i)
  }

  predicate EitherContains(a: string, b: string) {
    Contains(a, b) || Contains(b, a)
  }

  function Folded(s: string): string { Text.Lower(Names.Trim(s)) }

  /** strings.Fields. */
  function Words(s: string): seq<string> {
    if s == "" then []
    else
      var n := |s| - 1;
      if Names.IsSpace(s[n]) then Words(s[..n])
      else if n == 0 || Names.IsSpace(s[n - 1]) then Words(s[..n]) + [[s[n]]]
      else
        var ws := Words(s[..n]);
        if ws == [] then [[s[n]]] else ws[..|ws| - 1] + [ws[|ws| - 1] + [s[n]]]
  }

  lemma WordsOfNone()
    ensures Words("") == []
  {
  }

  /** Text without white space is one word. */
  lemma {:induction false} WordsOfWord(w: string)
    requires w != "" && forall c | c in w :: !Names.IsSpace(c)
    ensures Words(w) == [w]
  {
    var front, last := w[..|w| - 1], w[|w| - 1];
    LastApart(w);
    if front != "" {
      WordsOfWord(front);
    }
  }

  lemma {:induction false} WordAtEnd(s: string)
    requires s != "" && !Names.IsSpace(s[|s| - 1])
    ensures Words(s) != []
  {
  }

  lemma WordsNext(s: string, c: char)
    ensures Words(s + [c]) ==
      if Names.IsSpace(c) then Words(s)
      else if s == "" || Names.IsSpace(s[|s| - 1]) then Words(s) + [[c]]
      else if Words(s) == [] then [[c]]
      else Words(s)[..|Words(s)| - 1] + [Words(s)[|Words(s)| - 1] + [c]]
  {
    var t := s + [c];
    assert t[..|t| - 1] == s && t[|t| - 1] == c;
    assert s != "" ==> t[|t| - 2] == s[|s| - 1];
  }

  lemma LongerLast<T>(a: seq<seq<T>>, b: seq<seq<T>>, x: T)
    requires b != []
    ensures (a + b)[..|a + b| - 1] + [(a + b)[|a + b| - 1] + [x]] == a + (b[..|b| - 1] + [b[|b| - 1] + [x]])
  {
  }

  /** White space separates words, however much there is of it. */
  lemma {:induction false} WordsSplit(a: string, space: char, b: string)
    requires Names.IsSpace(space)
    ensures Words(a + [space] + b) == Words(a) + Words(b)
  {
    if b == "" {
      WordsNext(a, space);
      assert a + [space] + b == a + [space];
    } else {
      var front, c := b[..|b| - 1], b[|b| - 1];
      WordsSplit(a, space, front);
      LastApart(b);
      var s := a + [space] + front;
      assert a + [space] + b == s + [c];
      assert s[|s| - 1] == if front == "" then space else front[|front| - 1];
      WordsNext(s, c);
      WordsNext(front, c);
      if !Names.IsSpace(c) {
        if front == "" || Names.IsSpace(front[|front| - 1]) {
          Regroup(Words(a), Words(front), [[c]]);
        } else {
          WordAtEnd(front);
          LongerLast(Words(a), Words(front), c);
        }
      }
    }
  }

  /** Integer division, rounding down, by counting; written so that the score
      arithmetic stays linear. */
  function Quotient(a: nat, b: nat): nat
    requires b > 0
  {
    if a < b then 0 else 1 + Quotient(a - b, b)
  }

  lemma {:induction false} QuotientIsDivision(a: nat, b: nat)
    requires b > 0
    ensures Quotient(a, b) * b <= a < Quotient(a, b) * b + b
  {
    if a >= b {
      QuotientIsDivision(a - b, b);
      var q := Quotient(a - b, b);
      assert (1 + q) * b == b + q * b;
    }
  }

  // ---- title ------------------------------------------------------------------------

  predicate WordMatches(w: string, ts: seq<string>) {
    exists t | t in ts :: EitherContains(t, w)
  }

  function MatchedWords(qs: seq<string>, ts: seq<string>): (n: nat)
    ensures n <= |qs|
  {
    if qs == [] then 0
    else MatchedWords(qs[..|qs| - 1], ts) + if WordMatches(qs[|qs| - 1], ts) then 1 else 0
  }

  function TitleScore(query: string, title: string): nat {
    var q, t := Folded(query), Folded(title);
    if q == t then 30
    else if EitherContains(t, q) then 22
    else if Words(q) == [] then 0
    else Quotient(MatchedWords(Words(q), Words(t)) * 30, |Words(q)|)
  }

  /** A word counts if a word of the title contains it or is contained in it. */
  lemma {:induction false} MatchedWordsMeans(qs: seq<string>, ts: seq<string>)
    ensures MatchedWords(qs, ts) == |set i: nat | i < |qs| && (exists j :: 0 <= j < |ts| && EitherContains(ts[j], qs[i]))|
  {
    MatchedWordsPlaces(qs, ts);
    assert Places((w: string) => WordMatches(w, ts), qs)
        == set i: nat | i < |qs| && (exists j :: 0 <= j < |ts| && EitherContains(ts[j], qs[i]));
  }

  lemma {:induction false} MatchedWordsPlaces(qs: seq<string>, ts: seq<string>)
    ensures MatchedWords(qs, ts) == |Places((w: string) => WordMatches(w, ts), qs)|
  {
    var f := (w: string) => WordMatches(w, ts);
    if qs == [] {
      assert Places(f, qs) == {};
    } else {
      var front, last := qs[..|qs| - 1], qs[|qs| - 1];
      MatchedWordsPlaces(front, ts);
      LastApart(qs);
      PlacesNext(f, front, last);
    }
  }

  /** What a title is worth: 30 if it is the query up to case and outer white
      space, 22 if one contains the other, and else the share of the query's
      words it has, rounded down. */
  lemma TitleMeans(query: string, title: string)
    ensures var q, t, score := Text.Lower(Names.Trim(query)), Text.Lower(Names.Trim(title)), TitleScore(query, title);
      var qs, ts := Words(q), Words(t);
      if q == t then score == 30
      else if Contains(t, q) || Contains(q, t) then score == 22
      else if qs == [] then score == 0
      else
        var m := |set i: nat | i < |qs| && (exists j :: 0 <= j < |ts| && EitherContains(ts[j], qs[i]))|;
        score * |qs| <= m * 30 < score * |qs| + |qs|
  {
    var qs, ts := Words(Folded(query)), Words(Folded(title));
    MatchedWordsMeans(qs, ts);
    if qs != [] {
      QuotientIsDivision(MatchedWords(qs, ts) * 30, |qs|);
    }
  }

  method CountMatchedWords(qs: seq<string>, ts: seq<string>) returns (matched: nat)
    ensures matched == MatchedWords(qs, ts)
  {
    matched := 0;
    for i := 0 to |qs|
      invariant matched == MatchedWords(qs[..i], ts)
    {
      var found := false;
      for j := 0 to |ts|
        invariant found <==> exists k | 0 <= k < j :: EitherContains(ts[k], qs[i])
      {
        if EitherContains(ts[j], qs[i]) {
          found := true;
          break;
        }
      }
      if found {
        matched := matched + 1;
      }
      assert found <==> WordMatches(qs[i], ts);
      assert qs[..i + 1][..i] == qs[..i];
    }
    assert qs[..|qs|] == qs;
  }

  method ScoreTitle(query: string, title: string) returns (score: nat)
    ensures score == TitleScore(query, title)
  {
    var q, t := Folded(query), Folded(title);
    if q == t {
      return 30;
    }
    if Contains(t, q) || Contains(q, t) {
      return 22;
    }
    var qw, tw := Words(q), Words(t);
    if |qw| == 0 {
      return 0;
    }
    var matched := CountMatchedWords(qw, tw);
    score := Quotient(matched * 30, |qw|);
  }

  // ---- authors -------------------------------------------------------------------------

  predicate NameMatches(o: string, candidates: seq<string>) {
    Folded(o) != "" && exists c | c in candidates :: Folded(c) != "" && EitherContains(Folded(c), Folded(o))
  }

  function MatchingNames(original: seq<string>, candidates: seq<string>): (n: nat)
    ensures n <= |original|
    ensures n == 0 <==> forall o | o in original :: !NameMatches(o, candidates)
  {
    if original == [] then 0
    else
      var m := |original| - 1;
      assert original == original[..m] + [original[m]];
      MatchingNames(original[..m], candidates) + if NameMatches(original[m], candidates) then 1 else 0
  }

  lemma {:induction false} MatchingNamesPlaces(original: seq<string>, candidates: seq<string>)
    ensures MatchingNames(original, candidates) == |Places((o: string) => NameMatches(o, candidates), original)|
  {
    var f := (o: string) => NameMatches(o, candidates);
    if original == [] {
      assert Places(f, original) == {};
    } else {
      var front, last := original[..|original| - 1], original[|original| - 1];
      MatchingNamesPlaces(front, candidates);
      LastApart(original);
      PlacesNext(f, front, last);
    }
  }

  /** Two names agree if one contains the other, up to case and outer white
      space; an empty name agrees with none. */
  predicate NamesAgree(a: string, b: string) {
    var x, y := Text.Lower(Names.Trim(a)), Text.Lower(Names.Trim(b));
    x != "" && y != "" && (Contains(x, y) || Contains(y, x))
  }

  predicate AgreesWithSome(o: string, candidates: seq<string>) {
    exists j :: 0 <= j < |candidates| && NamesAgree(candidates[j], o)
  }

  lemma NameMatchesMeans(o: string, candidates: seq<string>)
    ensures NameMatches(o, candidates) <==> AgreesWithSome(o, candidates)
  {
    if NameMatches(o, candidates) {
      var c :| c in candidates && Folded(c) != "" && EitherContains(Folded(c), Folded(o));
      var j :| 0 <= j < |candidates| && candidates[j] == c;
      assert NamesAgree(candidates[j], o);
    }
    if AgreesWithSome(o, candidates) {
      var j :| 0 <= j < |candidates| && NamesAgree(candidates[j], o);
      assert candidates[j] in candidates;
    }
  }

  lemma MatchingNamesMeans(original: seq<string>, candidates: seq<string>)
    ensures MatchingNames(original, candidates) == |set i: nat | i < |original| && AgreesWithSome(original[i], candidates)|
  {
    MatchingNamesPlaces(original, candidates);
    forall o ensures NameMatches(o, candidates) <==> AgreesWithSome(o, candidates) {
      NameMatchesMeans(o, candidates);
    }
    assert Places((o: string) => NameMatches(o, candidates), original)
        == set i: nat | i < |original| && AgreesWithSome(original[i], candidates);
  }

  /** The inner loop: does any candidate name match o? */
  method NameFound(o: string, candidates: seq<string>) returns (found: bool)
    requires Folded(o) != ""
    ensures found <==> NameMatches(o, candidates)
  {
    var ol := Folded(o);
    for j := 0 to |candidates|
      invariant forall k | 0 <= k < j :: Folded(candidates[k]) == "" || !EitherContains(Folded(candidates[k]), ol)
    {
      var cl := Folded(candidates[j]);
      if cl == "" {
        continue;
      }
      if Contains(cl, ol) || Contains(ol, cl) {
        assert candidates[j] in candidates;
        return true;
      }
    }
    found := false;
  }

  method CountMatchingNames(original: seq<string>, candidates: seq<string>) returns (n: nat)
    ensures n == MatchingNames(original, candidates)
  {
    n := 0;
    for i := 0 to |original|
      invariant n == MatchingNames(original[..i], candidates)
    {
      assert original[..i + 1][..i] == original[..i];
      if Folded(original[i]) == "" {
        continue;
      }
      var found := NameFound(original[i], candidates);
      if found {
        n := n + 1;
      }
    }
    assert original[..|original|] == original;
  }

  // ---- completeness ---------------------------------------------------------------------

  /** Whether each of the nine counted fields is filled; ASIN and ISBN are one. */
  function Filled(c: Candidate): (flags: seq<bool>)
    ensures |flags| == 9
  {
    [c.title != "", c.authors != [], c.description != "", c.coverURL != "", c.asin != "" || c.isbn != "",
     c.publisher != "", c.language != "", c.pageCount > 0, c.genres != []]
  }

  function Trues(flags: seq<bool>): (n: nat)
    ensures n <= |flags|
    ensures n == |flags| <==> forall i | 0 <= i < |flags| :: flags[i]
  {
    if flags == [] then 0 else Trues(flags[..|flags| - 1]) + if flags[|flags| - 1] then 1 else 0
  }

  lemma {:induction false} TruesMeans(flags: seq<bool>)
    ensures Trues(flags) == |set i: nat | i < |flags| && flags[i]|
  {
    TruesPlaces(flags);
    assert Places((b: bool) => b, flags) == set i: nat | i < |flags| && flags[i];
  }

  lemma {:induction false} TruesPlaces(flags: seq<bool>)
    ensures Trues(flags) == |Places((b: bool) => b, flags)|
  {
    var f := (b: bool) => b;
    if flags == [] {
      assert Places(f, flags) == {};
    } else {
      var front, last := flags[..|flags| - 1], flags[|flags| - 1];
      TruesPlaces(front);
      LastApart(flags);
      PlacesNext(f, front, last);
    }
  }

  function Completeness(c: Candidate): nat { Trues(Filled(c)) * 10 / 9 }

  /** All nine fields are needed for the full ten points. */
  predicate Complete(c: Candidate) {
    && c.title != "" && c.authors != [] && c.description != "" && c.coverURL != ""
    && (c.asin != "" || c.isbn != "") && c.publisher != "" && c.language != ""
    && c.pageCount > 0 && c.genres != []
  }

  lemma CompletenessRange(c: Candidate)
    ensures Completeness(c) <= 10
    ensures Completeness(c) == 10 <==> Complete(c)
  {
    var f := Filled(c);
    assert Complete(c) <==> f[0] && f[1] && f[2] && f[3] && f[4] && f[5] && f[6] && f[7] && f[8];
  }

  // ---- the score ---------------------------------------------------------------------------

  /** The row as a comparison baseline. */
  datatype Baseline = Baseline(isbn: string, asin: string, authors: seq<string>)

  function TitlePart(query: string, c: Candidate): nat {
    if c.title != "" && query != "" then TitleScore(query, c.title) else 0
  }

  function IsbnPart(c: Candidate, o: Option<Baseline>): nat {
    if o.Some? && o.value.isbn != "" && c.isbn != "" && Isbn.IsbnsMatch(o.value.isbn, c.isbn) then 35 else 0
  }

  function AuthorPart(c: Candidate, o: Option<Baseline>): nat {
    if o.Some? && o.value.authors != [] && c.authors != []
    then Quotient(MatchingNames(o.value.authors, c.authors) * 20, |o.value.authors|) else 0
  }

  function AsinPart(c: Candidate, o: Option<Baseline>): nat {
    if o.Some? && o.value.asin != "" && c.asin != "" && Text.EqualFold(o.value.asin, c.asin) then 5 else 0
  }

  function Score(query: string, c: Candidate, o: Option<Baseline>): nat {
    TitlePart(query, c) + IsbnPart(c, o) + AuthorPart(c, o) + AsinPart(c, o) + Completeness(c)
  }

  method CalculateConfidence(query: string, c: Candidate, o: Option<Baseline>) returns (score: nat)
    ensures score == Score(query, c, o) <= 100
  {
    score := 0;
    if c.title != "" && query != "" {
      var s := ScoreTitle(query, c.title);
      score := score + s;
    }
    if o.Some? && o.value.isbn != "" && c.isbn != "" {
      if Isbn.IsbnsMatch(o.value.isbn, c.isbn) {
        score := score + 35;
      }
    }
    if o.Some? && |o.value.authors| > 0 && |c.authors| > 0 {
      var m := CountMatchingNames(o.value.authors, c.authors);
      score := score + Quotient(m * 20, |o.value.authors|);
    }
    if o.Some? && o.value.asin != "" && c.asin != "" {
      if Text.EqualFold(o.value.asin, c.asin) {
        score := score + 5;
      }
    }
    score := score + Completeness(c);
    if score > 100 {
      score := 100;
    }
    ScoreRange(query, c, o);
  }

  // ---- what each part is worth ---------------------------------------------------------------

  /** A matching ISBN makes 35 points of difference, a matching ASIN five. */
  lemma IdentifiersCount(query: string, c: Candidate, b: Baseline)
    ensures Score(query, c, Some(b)) == Score(query, c, Some(b.(isbn := "")))
              + if b.isbn != "" && c.isbn != "" && Isbn.IsbnsMatch(b.isbn, c.isbn) then 35 else 0
    ensures Score(query, c, Some(b)) == Score(query, c, Some(b.(asin := "")))
              + if b.asin != "" && c.asin != "" && Text.EqualFold(b.asin, c.asin) then 5 else 0
  {
  }

  /** Authors make the share of the row's names that were found, of twenty
      points, rounded down. */
  lemma AuthorsCount(query: string, c: Candidate, b: Baseline)
    requires b.authors != [] && c.authors != []
    ensures var n := |b.authors|;
      var m := |set i: nat | i < n && AgreesWithSome(b.authors[i], c.authors)|;
      var points := Score(query, c, Some(b)) - Score(query, c, Some(b.(authors := [])));
      points * n <= m * 20 < points * n + n
  {
    MatchingNamesMeans(b.authors, c.authors);
    QuotientIsDivision(MatchingNames(b.authors, c.authors) * 20, |b.authors|);
  }

  /** Nothing to compare with, or nothing to compare, changes nothing. */
  lemma MissingIsSkipped(query: string, c: Candidate, b: Baseline)
    ensures Score(query, c, Some(Baseline("", "", []))) == Score(query, c, None)
    ensures c.authors == [] ==> Score(query, c, Some(b)) == Score(query, c, Some(b.(authors := [])))
    ensures Score(query, c, None) == Score("", c, None) + if c.title != "" && query != "" then TitleScore(query, c.title) else 0
  {
  }

  /** The rest is the share of nine fields that are filled, of ten points. */
  lemma FieldsCount(c: Candidate)
    ensures var filled := [c.title != "", c.authors != [], c.description != "", c.coverURL != "", c.asin != "" || c.isbn != "",
                           c.publisher != "", c.language != "", c.pageCount > 0, c.genres != []];
      var points, n := Score("", c, None), |set i: nat | i < |filled| && filled[i]|;
      points * 9 <= n * 10 < points * 9 + 9
  {
    TruesMeans(Filled(c));
    assert Score("", c, None) == Completeness(c);
  }

  lemma {:induction false} QuotientAtMost(a: nat, b: nat, k: nat)
    requires b > 0 && a <= k * b
    ensures Quotient(a, b) <= k
    ensures a < k * b ==> Quotient(a, b) < k
    ensures a == k * b ==> Quotient(a, b) == k
  {
    if a >= b {
      assert k != 0 by {
        assert 0 * b == 0;
      }
      assert (k - 1) * b == k * b - b;
      QuotientAtMost(a - b, b, k - 1);
    } else if k > 0 {
      assert (k - 1) * b >= 0;
      assert k * b == (k - 1) * b + b;
    }
  }

  lemma TitleScoreRange(query: string, title: string)
    ensures TitleScore(query, title) <= 30
  {
    var q, t := Folded(query), Folded(title);
    if Words(q) != [] {
      QuotientAtMost(MatchedWords(Words(q), Words(t)) * 30, |Words(q)|, 30);
    }
  }

  lemma AuthorPartRange(c: Candidate, o: Option<Baseline>)
    ensures AuthorPart(c, o) <= 20
    ensures o.Some? && MatchingNames(o.value.authors, c.authors) == 0 ==> AuthorPart(c, o) == 0
  {
    if o.Some? && o.value.authors != [] && c.authors != [] {
      QuotientAtMost(MatchingNames(o.value.authors, c.authors) * 20, |o.value.authors|, 20);
    }
  }

  /** The clamp at 100 never fires. */
  lemma ScoreRange(query: string, c: Candidate, o: Option<Baseline>)
    ensures Score(query, c, o) <= 100
  {
    if c.title != "" && query != "" {
      TitleScoreRange(query, c.title);
    }
    AuthorPartRange(c, o);
    CompletenessRange(c);
  }
}
