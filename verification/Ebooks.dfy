/** The metadata columns of an ebook row and the two opposite rules that write
    them: a scan fills gaps, an enrichment overwrites. */
module Ebooks {
  import opened Collections
  import Names

  datatype Cover = Cover(contentType: string, bytes: seq<int>, source: string)

  /** The twelve metadata columns both rules touch. */
  datatype Fields = Fields(
    title: string, author: string, publisher: string, year: string, language: string, genre: string,
    isbn: string, asin: string, description: string, pageCount: int, series: string, seriesPos: string)

  const BLANK := Fields("", "", "", "", "", "", "", "", "", 0, "", "")

  /** What a parser delivers; year is "" when the file carries no date. */
  datatype Parsed = Parsed(
    format: string, title: string, authors: seq<string>, description: string, publisher: string,
    year: string, language: string, isbn: string, asin: string, series: string, seriesPos: string,
    genres: seq<string>, pageCount: int, cover: Option<Cover>)

  /** One record of an upstream source. */
  datatype Candidate = Candidate(
    source: string, title: string, authors: seq<string>, description: string, asin: string,
    isbn: string, coverURL: string, publishedAt: string, publisher: string, language: string,
    genres: seq<string>, pageCount: int, series: string, seriesPos: string)

  datatype EbookRow = EbookRow(id: string, format: string, fields: Fields)

  /** One column at a time, for stating what the rules do. */
  datatype Column = Title | Author | Publisher | Year | Language | Genre | Isbn | Asin | Description
                  | PageCount | Series | SeriesPos

  datatype Cell = Text(s: string) | Number(n: int)

  function At(f: Fields, c: Column): Cell {
    match c
    case Title => Text(f.title)
    case Author => Text(f.author)
    case Publisher => Text(f.publisher)
    case Year => Text(f.year)
    case Language => Text(f.language)
    case Genre => Text(f.genre)
    case Isbn => Text(f.isbn)
    case Asin => Text(f.asin)
    case Description => Text(f.description)
    case PageCount => Number(f.pageCount)
    case Series => Text(f.series)
    case SeriesPos => Text(f.seriesPos)
  }

  predicate Empty(c: Cell) { c == Text("") || c == Number(0) }

  /** Filled columns of a stay exactly as they are in b. */
  ghost predicate Untouched(a: Fields, b: Fields) {
    forall c: Column :: !Empty(At(a, c)) ==> At(b, c) == At(a, c)
  }

  /** Filled columns of a stay filled in b. */
  ghost predicate Retained(a: Fields, b: Fields) {
    forall c: Column :: !Empty(At(a, c)) ==> !Empty(At(b, c))
  }

  // ---- the scan's rule: ON CONFLICT ... CASE WHEN old = '' ----------------------

  function Or(row: string, found: string): string { if row == "" then found else row }

  function FillGaps(row: Fields, found: Fields): Fields {
    Fields(
      Or(row.title, found.title), Or(row.author, found.author), Or(row.publisher, found.publisher),
      Or(row.year, found.year), Or(row.language, found.language), Or(row.genre, found.genre),
      Or(row.isbn, found.isbn), Or(row.asin, found.asin), Or(row.description, found.description),
      if row.pageCount == 0 then found.pageCount else row.pageCount,
      Or(row.series, found.series), Or(row.seriesPos, found.seriesPos))
  }

  function FieldsOf(p: Parsed): Fields {
    Fields(p.title, Names.Join(p.authors, ", "), p.publisher, p.year, p.language, Names.Join(p.genres, ", "),
           p.isbn, p.asin, p.description, p.pageCount, p.series, p.seriesPos)
  }

  /** What a scan of a file makes of the columns of its row, one by one. */
  predicate GapsFilled(before: Fields, p: Parsed, after: Fields) {
    && after.title == (if before.title == "" then p.title else before.title)
    && after.author == (if before.author == "" then Names.Join(p.authors, ", ") else before.author)
    && after.publisher == (if before.publisher == "" then p.publisher else before.publisher)
    && after.year == (if before.year == "" then p.year else before.year)
    && after.language == (if before.language == "" then p.language else before.language)
    && after.genre == (if before.genre == "" then Names.Join(p.genres, ", ") else before.genre)
    && after.isbn == (if before.isbn == "" then p.isbn else before.isbn)
    && after.asin == (if before.asin == "" then p.asin else before.asin)
    && after.description == (if before.description == "" then p.description else before.description)
    && after.series == (if before.series == "" then p.series else before.series)
    && after.seriesPos == (if before.seriesPos == "" then p.seriesPos else before.seriesPos)
    && after.pageCount == (if before.pageCount == 0 then p.pageCount else before.pageCount)
  }

  lemma FillGapsFills(before: Fields, p: Parsed)
    ensures GapsFilled(before, p, FillGaps(before, FieldsOf(p)))
    ensures GapsFilled(BLANK, p, FieldsOf(p))
  {
  }

  /** A scan decides every column by whether it is filled: kept if so, taken
      from the file if not. */
  lemma FillGapsByColumn(row: Fields, found: Fields, c: Column)
    ensures At(FillGaps(row, found), c) == if Empty(At(row, c)) then At(found, c) else At(row, c)
  {
  }

  lemma FillGapsLaws(a: Fields, b: Fields, c: Fields)
    ensures Untouched(a, FillGaps(a, b))
    ensures FillGaps(FillGaps(a, b), b) == FillGaps(a, b)
    ensures FillGaps(FillGaps(a, b), c) == FillGaps(a, FillGaps(b, c))
    ensures FillGaps(BLANK, a) == a == FillGaps(a, BLANK)
  {
    forall col: Column ensures !Empty(At(a, col)) ==> At(FillGaps(a, b), col) == At(a, col) {
      FillGapsByColumn(a, b, col);
    }
  }

  // ---- the enrichment's rule: ApplyMatch -----------------------------------------

  /** yearOf(candidate.PublishedAt). */
  function YearOf(date: string): string { if |date| >= 4 then date[..4] else "" }

  /** What a match makes of the columns of a row, one by one. */
  predicate Overwritten(before: Fields, c: Candidate, after: Fields) {
    && after.title == (if c.title != "" then c.title else before.title)
    && after.author == (if Names.Join(c.authors, ", ") != "" then Names.Join(c.authors, ", ") else before.author)
    && after.publisher == (if c.publisher != "" then c.publisher else before.publisher)
    && after.language == (if c.language != "" then c.language else before.language)
    && after.genre == (if Names.Join(c.genres, ", ") != "" then Names.Join(c.genres, ", ") else before.genre)
    && after.isbn == (if c.isbn != "" then c.isbn else before.isbn)
    && after.asin == (if c.asin != "" then c.asin else before.asin)
    && after.description == (if c.description != "" then c.description else before.description)
    && after.series == (if c.series != "" then c.series else before.series)
    && after.seriesPos == (if c.seriesPos != "" then c.seriesPos else before.seriesPos)
    && after.year == (if |c.publishedAt| >= 4 then c.publishedAt[..4] else before.year)
    && after.pageCount == (if c.pageCount > 0 then c.pageCount else before.pageCount)
  }

  /** if offered != "" { column = offered } */
  method Overwrite(column: string, offered: string) returns (r: string)
    ensures r == Or(offered, column)
  {
    r := column;
    if offered != "" {
      r := offered;
    }
  }

  /** ApplyMatch, assigning field by field to a copy of the row. */
  method ApplyMatch(row: EbookRow, c: Candidate) returns (out: EbookRow)
    ensures out == Matched(row, c)
    ensures out.id == row.id && out.format == row.format && Overwritten(row.fields, c, out.fields)
  {
    var f := row.fields;
    var title := Overwrite(f.title, c.title);
    var author := Overwrite(f.author, Names.Join(c.authors, ", "));
    var publisher := Overwrite(f.publisher, c.publisher);
    var year := Overwrite(f.year, YearOf(c.publishedAt));
    var language := Overwrite(f.language, c.language);
    var genre := Overwrite(f.genre, Names.Join(c.genres, ", "));
    var isbn := Overwrite(f.isbn, c.isbn);
    var asin := Overwrite(f.asin, c.asin);
    var description := Overwrite(f.description, c.description);
    var pageCount := f.pageCount;
    if c.pageCount > 0 {
      pageCount := c.pageCount;
    }
    var series := Overwrite(f.series, c.series);
    var seriesPos := Overwrite(f.seriesPos, c.seriesPos);
    out := row.(fields := Fields(title, author, publisher, year, language, genre, isbn, asin, description,
                                 pageCount, series, seriesPos));
  }

  /** The columns a candidate speaks about; a non-positive page count says nothing. */
  function Offered(c: Candidate): Fields {
    Fields(c.title, Names.Join(c.authors, ", "), c.publisher, YearOf(c.publishedAt), c.language,
           Names.Join(c.genres, ", "), c.isbn, c.asin, c.description,
           if c.pageCount > 0 then c.pageCount else 0, c.series, c.seriesPos)
  }

  /** Overwriting with a candidate is filling the candidate's gaps from the
      row: the two merge rules are mirror images. */
  function Matched(row: EbookRow, c: Candidate): EbookRow {
    row.(fields := FillGaps(Offered(c), row.fields))
  }

  lemma MatchedByColumn(row: EbookRow, c: Candidate, col: Column)
    ensures At(Matched(row, c).fields, col) == if Empty(At(Offered(c), col)) then At(row.fields, col) else At(Offered(c), col)
    ensures Matched(row, c).id == row.id && Matched(row, c).format == row.format
  {
    FillGapsByColumn(Offered(c), row.fields, col);
  }

  /** Writing back a match computed from an older copy of the row loses a
      filled column exactly when that column was empty in the copy and the
      candidate does not offer it. */
  lemma StaleMatchRetains(current: Fields, loaded: EbookRow, c: Candidate)
    ensures Retained(current, Matched(loaded, c).fields)
        <==> forall col: Column :: !Empty(At(current, col)) ==> !Empty(At(loaded.fields, col)) || !Empty(At(Offered(c), col))
  {
    forall col: Column ensures
      Empty(At(Matched(loaded, c).fields, col)) <==> Empty(At(loaded.fields, col)) && Empty(At(Offered(c), col))
    {
      MatchedByColumn(loaded, c, col);
    }
  }

  /** So a match computed from the current row never empties a column. */
  lemma MatchRetains(row: EbookRow, c: Candidate)
    ensures Retained(row.fields, Matched(row, c).fields)
  {
    StaleMatchRetains(row.fields, row, c);
  }

  /** Retention chains over any sequence of writes. */
  lemma RetainedChain(a: Fields, b: Fields, c: Fields)
    requires Retained(a, b) && (Retained(b, c) || Untouched(b, c))
    ensures Retained(a, c)
  {
    forall col: Column | !Empty(At(a, col)) ensures !Empty(At(c, col)) {
      assert !Empty(At(b, col));
    }
  }
}
