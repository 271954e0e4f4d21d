/** EnrichmentWorker.process: which upstream record, if any, a job writes back. */
module Enrichment {
  import opened Collections
  import opened Ebooks
  import opened Confidence
  import Names

  const MIN_TEXT_MATCH_CONFIDENCE := 40

  datatype SourceError = NoError | NotFound | Other(text: string)

  /** What one call to the source returned; records may come with an error. */
  datatype Answer = Answer(records: seq<Candidate>, error: SourceError)

  datatype Outcome =
    | NothingToSearch
    | SourceFailed(text: string)
    | Unchanged
    | Write(row: EbookRow)

  function TextQuery(f: Fields): string {
    Names.Trim(f.title + " " + f.author)
  }

  /** rowAsCandidate: what of the row the formula compares against. */
  function AsBaseline(f: Fields): Baseline {
    Baseline(f.isbn, f.asin, Names.AuthorsOf(f.author))
  }

  /** What a question that was answered with a leads to: the first record is
      written if there is one, no error came with it, and it is trusted. */
  predicate Follows(o: Outcome, row: EbookRow, a: Answer, trusted: bool) {
    match a.error
    case NotFound => o == Unchanged
    case Other(text) => o == SourceFailed(text)
    case NoError => if a.records == [] || !trusted then o == Unchanged else o.Write? && o.row == Matched(row, a.records[0])
  }

  /** The cascade ISBN, ASIN, title and author. */
  method Process(row: EbookRow, search: string -> Answer, get: string -> Answer) returns (o: Outcome)
    ensures row.fields.isbn != "" ==> Follows(o, row, search(row.fields.isbn), true)
    ensures row.fields.isbn == "" && row.fields.asin != "" ==> Follows(o, row, get(row.fields.asin), true)
    ensures row.fields.isbn == "" && row.fields.asin == "" ==>
      var q := Names.Trim(row.fields.title + " " + row.fields.author);
      if q == "" then o == NothingToSearch
      else
        var a := search(q);
        Follows(o, row, a, a.records != [] && Score(q, a.records[0], Some(Baseline("", "", Names.AuthorsOf(row.fields.author)))) >= 40)
    ensures o.NothingToSearch? <==> row.fields.isbn == "" && row.fields.asin == "" && TextQuery(row.fields) == ""
    ensures o.SourceFailed? ==> Asked(row.fields, search, get).error == Other(o.text)
    ensures !o.NothingToSearch? && Asked(row.fields, search, get).error.Other? ==> o.SourceFailed?
    ensures o.Write? <==>
      && !o.NothingToSearch? && Asked(row.fields, search, get).error.NoError?
      && Asked(row.fields, search, get).records != []
      && Accepted(row.fields, Asked(row.fields, search, get).records[0])
    ensures o.Write? ==> o.row == Matched(row, Asked(row.fields, search, get).records[0])
  {
    var f := row.fields;
    var candidate: Option<Candidate> := None;
    var err := NoError;
    if f.isbn != "" {
      var a := search(f.isbn);
      err := a.error;
      if |a.records| > 0 {
        candidate := Some(a.records[0]);
      }
    } else if f.asin != "" {
      var a := get(f.asin);
      err := a.error;
      if |a.records| > 0 {
        candidate := Some(a.records[0]);
      }
    } else {
      var q := TextQuery(f);
      if q == "" {
        return NothingToSearch;
      }
      var a := search(q);
      err := a.error;
      if |a.records| > 0 {
        var authors := Names.RowAuthors(f.author);
        var score := CalculateConfidence(q, a.records[0], Some(Baseline(f.isbn, f.asin, authors)));
        if score >= MIN_TEXT_MATCH_CONFIDENCE {
          candidate := Some(a.records[0]);
        }
      }
    }
    if err.NotFound? {
      return Unchanged;
    }
    if err.Other? {
      return SourceFailed(err.text);
    }
    if candidate.None? {
      return Unchanged;
    }
    var merged := ApplyMatch(row, candidate.value);
    o := Write(merged);
  }

  /** The one question a row is looked up with. */
  function Asked(f: Fields, search: string -> Answer, get: string -> Answer): Answer {
    if f.isbn != "" then search(f.isbn) else if f.asin != "" then get(f.asin) else search(TextQuery(f))
  }

  /** Identifier lookups are trusted; text matches must clear the floor. */
  predicate Accepted(f: Fields, c: Candidate) {
    f.isbn != "" || f.asin != "" || Score(TextQuery(f), c, Some(AsBaseline(f))) >= MIN_TEXT_MATCH_CONFIDENCE
  }

  /** Text-match gate: what a record found by title and author must look like
      to be written over the local metadata. */
  lemma TextMatchGate(f: Fields, c: Candidate)
    requires f.isbn == "" && f.asin == "" && Accepted(f, c)
    ensures TextQuery(f) != "" && c.title != "" && TitleScore(TextQuery(f), c.title) >= 10
    ensures MatchingNames(AsBaseline(f).authors, c.authors) == 0 ==> TitleScore(TextQuery(f), c.title) == 30 && Complete(c)
    ensures !Complete(c) ==> TitleScore(TextQuery(f), c.title) >= 12
  {
    var o := Some(AsBaseline(f));
    TitleScoreRange(TextQuery(f), c.title);
    AuthorPartRange(c, o);
    CompletenessRange(c);
  }

  /** Thirty points mean that title and query agree up to case and space, or
      that every word of the query was found although neither contains the other. */
  lemma FullTitleScore(query: string, title: string)
    ensures var q, t := Folded(query), Folded(title);
      TitleScore(query, title) == 30 <==>
        q == t || (!EitherContains(t, q) && Words(q) != [] && MatchedWords(Words(q), Words(t)) == |Words(q)|)
  {
    var q, t := Folded(query), Folded(title);
    if Words(q) != [] {
      QuotientAtMost(MatchedWords(Words(q), Words(t)) * 30, |Words(q)|, 30);
    }
  }
}
