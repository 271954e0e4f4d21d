/** Author and genre lists travel through one text column: joined with ", " on
    the way in, split on commas and semicolons on the way out. */
module Names {
  import opened Collections

  /** unicode.IsSpace. */
  predicate IsSpace(c: char) {
    || '\t' <= c <= '\r' || c == ' ' || c == '\U{85}' || c == '\U{A0}' || c == '\U{1680}'
    || '\U{2000}' <= c <= '\U{200A}' || c == '\U{2028}' || c == '\U{2029}' || c == '\U{202F}'
    || c == '\U{205F}' || c == '\U{3000}'
  }

  predicate Trimmed(s: string) {
    s == [] || (!IsSpace(s[0]) && !IsSpace(s[|s| - 1]))
  }

  function TrimLeft(s: string): (r: string)
    ensures r == [] || !IsSpace(r[0])
    ensures r <= s || |r| < |s|
    ensures forall c | c in r :: c in s
  {
    if s != [] && IsSpace(s[0]) then TrimLeft(s[1..]) else s
  }

  function TrimRight(s: string): (r: string)
    ensures r == [] || !IsSpace(r[|r| - 1])
    ensures r <= s
    ensures forall c | c in r :: c in s
  {
    if s != [] && IsSpace(s[|s| - 1]) then TrimRight(s[..|s| - 1]) else s
  }

  /** strings.TrimSpace. */
  function Trim(s: string): (r: string)
    ensures Trimmed(r)
    ensures Trimmed(s) ==> r == s
    ensures forall c | c in r :: c in s
  {
    var l := TrimLeft(s);
    assert TrimRight(l) != [] ==> TrimRight(l)[0] == l[0];
    TrimRight(l)
  }

  /** Trimming takes white space off both ends and nothing else. */
  lemma TrimMeans(s: string) returns (left: string, right: string)
    ensures s == left + Trim(s) + right
    ensures (forall c | c in left :: IsSpace(c)) && forall c | c in right :: IsSpace(c)
  {
    left := TrimLeftMeans(s);
    right := TrimRightMeans(TrimLeft(s));
    Regroup(left, Trim(s), right);
  }

  lemma {:induction false} TrimLeftMeans(s: string) returns (left: string)
    ensures s == left + TrimLeft(s) && forall c | c in left :: IsSpace(c)
  {
    left := "";
    if s != "" && IsSpace(s[0]) {
      var rest := TrimLeftMeans(s[1..]);
      left := [s[0]] + rest;
      FirstApart(s);
      Regroup([s[0]], rest, TrimLeft(s));
    }
  }

  lemma {:induction false} TrimRightMeans(s: string) returns (right: string)
    ensures s == TrimRight(s) + right && forall c | c in right :: IsSpace(c)
  {
    right := "";
    if s != "" && IsSpace(s[|s| - 1]) {
      var rest := TrimRightMeans(s[..|s| - 1]);
      right := rest + [s[|s| - 1]];
      LastApart(s);
      Regroup(TrimRight(s), rest, [s[|s| - 1]]);
    }
  }

  function Join(xs: seq<string>, sep: string): string {
    if xs == [] then "" else if |xs| == 1 then xs[0] else xs[0] + sep + Join(xs[1..], sep)
  }

  /** strings.Split for a one-character separator. */
  function Split(s: string, sep: char): (parts: seq<string>)
    ensures parts != []
    ensures forall p | p in parts :: sep !in p && forall c | c in p :: c in s
  {
    if s == [] then [""]
    else
      var rest := Split(s[1..], sep);
      assert forall p | p in rest[1..] :: p in rest;
      assert rest[0] in rest;
      if s[0] == sep then [""] + rest else [[s[0]] + rest[0]] + rest[1..]
  }

  function SemicolonsToCommas(s: string): (r: string)
    ensures |r| == |s| && ';' !in r
    ensures ';' !in s ==> r == s
  {
    seq(|s|, i requires 0 <= i < |s| => if s[i] == ';' then ',' else s[i])
  }

  function Kept(part: string): seq<string> {
    if Trim(part) == "" then [] else [Trim(part)]
  }

  /** Trim every part and keep the non-empty ones, in order. */
  function Tokens(parts: seq<string>): seq<string> {
    if parts == [] then [] else Kept(parts[0]) + Tokens(parts[1..])
  }

  lemma {:induction false} TokensConcat(parts: seq<string>)
    ensures Tokens(parts) == Concat(Each(Kept, parts))
  {
    if parts != [] {
      TokensConcat(parts[1..]);
      assert Each(Kept, parts)[1..] == Each(Kept, parts[1..]);
    }
  }

  lemma TokensAppend(a: seq<string>, b: seq<string>)
    ensures Tokens(a + b) == Tokens(a) + Tokens(b)
  {
    TokensConcat(a);
    TokensConcat(b);
    TokensConcat(a + b);
    EachConcatAppend(Kept, a, b);
  }

  lemma TokensSnoc(parts: seq<string>, i: nat)
    requires i < |parts|
    ensures Tokens(parts[..i + 1]) == Tokens(parts[..i]) + Kept(parts[i])
  {
    TokensAppend(parts[..i], [parts[i]]);
    TokensOfOne(parts[i]);
    assert parts[..i] + [parts[i]] == parts[..i + 1];
  }

  lemma TokensOfOne(part: string)
    ensures Tokens([part]) == Kept(part)
  {
    assert Tokens([part][1..]) == [];
  }

  function Listed(s: string): seq<string> {
    Tokens(Split(SemicolonsToCommas(s), ','))
  }

  method SplitCSV(s: string) returns (out: seq<string>)
    ensures out == Listed(s)
  {
    if s == "" {
      TokensOfOne("");
      return [];
    }
    out := CollectTokens(Split(SemicolonsToCommas(s), ','));
  }

  /** The loop that SplitCSV and RowAuthors share. */
  method CollectTokens(parts: seq<string>) returns (out: seq<string>)
    ensures out == Tokens(parts)
  {
    out := [];
    for i := 0 to |parts|
      invariant out == Tokens(parts[..i])
    {
      var t := Trim(parts[i]);
      TokensSnoc(parts, i);
      if t != "" {
        out := out + [t];
      }
    }
    assert parts[..|parts|] == parts;
  }

  /** The author list rowAsCandidate rebuilds: split on commas only. */
  function AuthorsOf(column: string): seq<string> {
    Tokens(Split(column, ','))
  }

  method RowAuthors(column: string) returns (authors: seq<string>)
    ensures authors == AuthorsOf(column)
  {
    authors := CollectTokens(Split(column, ','));
  }

  /** A name that survives the column. */
  predicate Clean(x: string) {
    x != "" && Trimmed(x) && ',' !in x && ';' !in x
  }

  lemma {:induction false} SplitAfterFirst(x: string, sep: char, rest: string)
    requires sep !in x
    ensures Split(x + [sep] + rest, sep) == [x] + Split(rest, sep)
  {
    if x == "" {
      assert ([sep] + rest)[1..] == rest && x + [sep] + rest == [sep] + rest;
    } else {
      SplitAfterFirst(x[1..], sep, rest);
      assert (x + [sep] + rest)[1..] == x[1..] + [sep] + rest;
      assert [x[0]] + x[1..] == x;
    }
  }

  lemma {:induction false} SplitWhole(x: string, sep: char)
    requires sep !in x
    ensures Split(x, sep) == [x]
  {
    if x != "" {
      SplitWhole(x[1..], sep);
      assert [x[0]] + x[1..] == x;
    }
  }

  /** The space after a separator does not reach the tokens. */
  lemma LeadingSpaceIsTrimmed(t: string)
    ensures Tokens(Split(" " + t, ',')) == Tokens(Split(t, ','))
  {
    var parts := Split(t, ',');
    assert (" " + t)[1..] == t;
    var spaced := [[' '] + parts[0]] + parts[1..];
    assert Split(" " + t, ',') == spaced;
    assert ([' '] + parts[0])[1..] == parts[0];
    assert Kept([' '] + parts[0]) == Kept(parts[0]);
    assert spaced[1..] == parts[1..];
  }

  lemma SplitNext(c: char, s: string, sep: char)
    ensures Split([c] + s, sep) == if c == sep then [""] + Split(s, sep) else [[c] + Split(s, sep)[0]] + Split(s, sep)[1..]
  {
    assert ([c] + s)[1..] == s;
  }

  lemma GrowFirst(c: char, ps: seq<string>, qs: seq<string>)
    requires ps != []
    ensures [""] + (ps + qs) == [""] + ps + qs
    ensures [[c] + (ps + qs)[0]] + (ps + qs)[1..] == [[c] + ps[0]] + ps[1..] + qs
  {
  }

  lemma SplitConcatNext(c: char, a: string, sep: char, b: string, whole: string)
    requires Split(whole, sep) == Split(a, sep) + Split(b, sep)
    ensures Split([c] + whole, sep) == Split([c] + a, sep) + Split(b, sep)
  {
    SplitNext(c, whole, sep);
    SplitNext(c, a, sep);
    GrowFirst(c, Split(a, sep), Split(b, sep));
  }

  lemma {:induction false} SplitConcat(a: string, sep: char, b: string)
    ensures Split(a + [sep] + b, sep) == Split(a, sep) + Split(b, sep)
  {
    if a == "" {
      SplitAfterFirst("", sep, b);
    } else {
      SplitConcat(a[1..], sep, b);
      SplitConcatNext(a[0], a[1..], sep, b, a[1..] + [sep] + b);
      FirstApart(a);
      assert a + [sep] + b == [a[0]] + (a[1..] + [sep] + b);
    }
  }

  /** A column is read part by part: commas and semicolons both separate. */
  lemma ListedConcat(a: string, sep: char, b: string)
    requires sep == ',' || sep == ';'
    ensures Listed(a + [sep] + b) == Listed(a) + Listed(b)
  {
    var x, y := SemicolonsToCommas(a), SemicolonsToCommas(b);
    assert SemicolonsToCommas(a + [sep] + b) == x + [','] + y;
    SplitConcat(x, ',', y);
    TokensAppend(Split(x, ','), Split(y, ','));
  }

  /** A part between separators is one entry, trimmed, or none if it is blank. */
  lemma ListedPart(part: string)
    requires ',' !in part && ';' !in part
    ensures Listed(part) == if Trim(part) == "" then [] else [Trim(part)]
  {
    SplitWhole(part, ',');
    TokensOfOne(part);
  }

  predicate Storable(xs: seq<string>) {
    forall x | x in xs :: x != "" && Trimmed(x) && ',' !in x
  }

  /** Joining and splitting on commas gives the list back. */
  lemma {:induction false} TokensOfJoin(xs: seq<string>)
    requires Storable(xs)
    ensures Tokens(Split(Join(xs, ", "), ',')) == xs
  {
    if xs == [] {
      TokensOfOne("");
    } else if |xs| == 1 {
      SplitWhole(xs[0], ',');
      TokensOfOne(xs[0]);
    } else {
      var tail := Join(xs[1..], ", ");
      assert Join(xs, ", ") == xs[0] + [','] + (" " + tail);
      SplitAfterFirst(xs[0], ',', " " + tail);
      LeadingSpaceIsTrimmed(tail);
      TokensOfJoin(xs[1..]);
      TokensOfOne(xs[0]);
      TokensAppend([xs[0]], Split(" " + tail, ','));
    }
  }

  lemma {:induction false} JoinHasNoSemicolon(xs: seq<string>)
    requires forall x | x in xs :: ';' !in x
    ensures ';' !in Join(xs, ", ")
  {
    if |xs| > 1 {
      JoinHasNoSemicolon(xs[1..]);
    }
  }

  /** What was written as a list is read as that list. */
  lemma SplitInvertsJoin(xs: seq<string>)
    requires forall x | x in xs :: Clean(x)
    ensures Listed(Join(xs, ", ")) == xs
    ensures AuthorsOf(Join(xs, ", ")) == xs
  {
    TokensOfJoin(xs);
    JoinHasNoSemicolon(xs);
  }

  lemma {:induction false} TokensAreClean(parts: seq<string>, t: string)
    requires forall p | p in parts :: ',' !in p && ';' !in p
    requires t in Tokens(parts)
    ensures Clean(t)
  {
    if t !in Kept(parts[0]) {
      TokensAreClean(parts[1..], t);
    }
  }

  /** Every list read from a column can be stored again without change, so
      reading, storing and reading is the same as reading once. */
  lemma SplitJoinSplit(s: string)
    ensures forall t | t in Listed(s) :: Clean(t)
    ensures Listed(Join(Listed(s), ", ")) == Listed(s)
  {
    forall t | t in Listed(s) ensures Clean(t) {
      TokensAreClean(Split(SemicolonsToCommas(s), ','), t);
    }
    SplitInvertsJoin(Listed(s));
  }
}
