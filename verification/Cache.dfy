/** metadata_cache: one row per lookup, with a short life for negative answers. */
module Cache {
  import opened Collections
  import Ebooks
  import Text

  // ---- keys ---------------------------------------------------------------------------

  datatype Kind = Asin | Isbn | Search

  /** One question to one source. */
  datatype Ask = Ask(source: string, region: string, query: string)

  const NUL := '\0'

  predicate CapitalOrDigit(c: char) { Text.IsDigit(c) || 'A' <= c <= 'Z' }

  predicate AsinShape(q: string) {
    |q| == 10 && q[..2] == "B0" && forall i | 2 <= i < 10 :: CapitalOrDigit(q[i])
  }

  predicate IsbnShape(q: string) {
    var n := |q|;
    && (n == 10 || (n == 13 && q[..3] in ["978", "979"]))
    && (forall i | n - 10 <= i < n - 1 :: Text.IsDigit(q[i]))
    && (Text.IsDigit(q[n - 1]) || q[n - 1] == 'X')
  }

  function Classify(q: string): Kind {
    if AsinShape(q) then Asin else if IsbnShape(q) then Isbn else Search
  }

  function KindText(k: Kind): string {
    match k
    case Asin => "asin"
    case Isbn => "isbn"
    case Search => "search"
  }

  /** The hash of the last field stands for its own input: an ideal hash. */
  function Key(source: string, kind: Kind, region: string, query: string): string {
    source + ":" + KindText(kind) + ":" + (region + [NUL] + query)
  }

  function KeyOf(a: Ask): string { Key(a.source, Classify(a.query), a.region, a.query) }

  lemma NulMeansSearch(q: string)
    ensures NUL in q ==> Classify(q).Search?
  {
    if AsinShape(q) {
      assert q == q[..2] + q[2..];
    } else if IsbnShape(q) {
      assert |q| == 13 ==> q == q[..3] + q[3..];
    }
  }

  /** Source and kind can always be read back from a key, and with them what was hashed. */
  lemma KeyFields(a: Ask, b: Ask)
    requires ':' !in a.source && ':' !in b.source && KeyOf(a) == KeyOf(b)
    ensures a.source == b.source && Classify(a.query) == Classify(b.query)
    ensures a.region + [NUL] + a.query == b.region + [NUL] + b.query
  {
    var ka, kb := KindText(Classify(a.query)), KindText(Classify(b.query));
    var pa, pb := a.region + [NUL] + a.query, b.region + [NUL] + b.query;
    assert KeyOf(a) == a.source + [':'] + (ka + [':'] + pa);
    assert KeyOf(b) == b.source + [':'] + (kb + [':'] + pb);
    Text.FirstSeparator(a.source, ka + [':'] + pa, b.source, kb + [':'] + pb, ':');
    Text.FirstSeparator(ka, pa, kb, pb, ':');
    assert |ka| == |kb| && ka[0] == kb[0];
  }

  /** No other question with a storable region has this key. */
  ghost predicate Alone(a: Ask) {
    forall b: Ask | ':' !in b.source && NUL !in b.region && KeyOf(b) == KeyOf(a) :: b == a
  }

  /** What a caller can check: the region is free of NUL, or the query is a
      product number. */
  predicate Safe(a: Ask) {
    NUL !in a.region || !Classify(a.query).Search?
  }

  lemma SafeIsAlone(a: Ask, b: Ask)
    requires ':' !in a.source && Safe(a)
    requires ':' !in b.source && NUL !in b.region && KeyOf(b) == KeyOf(a)
    ensures b == a
  {
    KeyFields(a, b);
    if NUL !in a.region {
      Text.FirstSeparator(a.region, a.query, b.region, b.query, NUL);
    } else {
      NulMovesToQuery(a.region, a.query, b.region, b.query);
      NulMeansSearch(b.query);
    }
  }

  lemma NulMovesToQuery(r: string, q: string, r': string, q': string)
    requires NUL in r && NUL !in r' && r + [NUL] + q == r' + [NUL] + q'
    ensures NUL in q'
  {
    var s, t := r + [NUL] + q, r' + [NUL] + q';
    var i :| 0 <= i < |r| && r[i] == NUL;
    assert s[i] == NUL && s[|r|] == NUL;
    assert forall j | 0 <= j < |r'| :: t[j] == r'[j];
    assert t[|r|] == q'[|r| - |r'| - 1];
  }

  lemma {:induction false} FirstNul(r: string) returns (i: nat)
    requires NUL in r
    ensures i < |r| && r[i] == NUL && NUL !in r[..i]
  {
    if r[0] == NUL {
      i := 0;
    } else {
      var j := FirstNul(r[1..]);
      i := j + 1;
      assert r[..i] == [r[0]] + r[1..][..j];
    }
  }

  /** Another question that shares the key of an unsafe one. */
  lemma Twin(a: Ask) returns (b: Ask)
    requires ':' !in a.source && !Safe(a)
    ensures ':' !in b.source && NUL !in b.region && KeyOf(b) == KeyOf(a) && b != a
  {
    var i := FirstNul(a.region);
    var query := a.region[i + 1..] + [NUL] + a.query;
    b := Ask(a.source, a.region[..i], query);
    assert query[|a.region| - i - 1] == NUL;
    NulMeansSearch(query);
    assert b.region + [NUL] + b.query == a.region + [NUL] + a.query by {
      assert a.region == a.region[..i] + [NUL] + a.region[i + 1..];
    }
  }

  /** Keys separate questions exactly as far as that. */
  lemma KeySeparates(a: Ask)
    requires ':' !in a.source
    ensures Alone(a) <==> Safe(a)
  {
    if Safe(a) {
      forall b: Ask | ':' !in b.source && NUL !in b.region && KeyOf(b) == KeyOf(a) ensures b == a {
        SafeIsAlone(a, b);
      }
    } else {
      var b := Twin(a);
    }
  }

  // ---- rows ----------------------------------------------------------------------------

  /** A stored payload: the list it encodes, or any other JSON. */
  datatype Json = List(records: seq<Ebooks.Candidate>) | Other

  datatype Entry = Entry(source: string, region: string, notFound: bool, response: Json, fetchedAt: int)

  type Rows = map<string, Entry>

  /** 24 hours, in seconds. */
  const NOT_FOUND_TTL := 86400

  predicate Expired(e: Entry, ttl: int, now: int) {
    now - e.fetchedAt > if e.notFound then NOT_FOUND_TTL else ttl
  }

  function Live(rows: Rows, ttl: int, key: string, now: int): Option<Entry> {
    if key !in rows || Expired(rows[key], ttl, now) then None else Some(rows[key])
  }

  /** On conflict only the answer and its time are replaced. A text column
      cannot hold NUL, so a row for such a region is refused. */
  function Put(rows: Rows, key: string, source: string, region: string, answer: Json, notFound: bool, now: int): Rows {
    if NUL in region then rows
    else if key in rows then rows[key := rows[key].(response := answer, notFound := notFound, fetchedAt := now)]
    else rows[key := Entry(source, region, notFound, answer, now)]
  }

  /** One row is written: its answer and time are new, where it comes from stays. */
  ghost predicate Stored(before: Rows, after: Rows, key: string, source: string, region: string,
                         answer: Json, notFound: bool, now: int) {
    && key in after && after[key].response == answer && after[key].notFound == notFound && after[key].fetchedAt == now
    && (if key in before then after[key].source == before[key].source && after[key].region == before[key].region
        else after[key].source == source && after[key].region == region)
    && forall other | other != key :: (other in after <==> other in before) && (other in before ==> after[other] == before[other])
  }

  function Stale(rows: Rows, ttl: int, now: int): set<string> {
    set k | k in rows && Expired(rows[k], ttl, now)
  }

  class Cache {
    var rows: Rows
    const ttl: int

    constructor (ttl: int)
      ensures rows == map[] && this.ttl == ttl
    {
      this.ttl := ttl;
      rows := map[];
    }

    /** None is ErrCacheMiss or any other error: the caller treats them alike. */
    method Get(key: string, now: int, fault: bool) returns (e: Option<Entry>)
      ensures e == if fault then None else Live(rows, ttl, key, now)
      ensures e.Some? <==> !fault && key in rows && now - rows[key].fetchedAt <= if rows[key].notFound then 86400 else ttl
      ensures e.Some? ==> e.value == rows[key]
    {
      if fault || key !in rows {
        return None;
      }
      var life := ttl;
      if rows[key].notFound {
        life := NOT_FOUND_TTL;
      }
      if now - rows[key].fetchedAt > life {
        return None;
      }
      e := Some(rows[key]);
    }

    method PutHit(key: string, source: string, region: string, response: Json, now: int, fault: bool)
      modifies this
      ensures rows == if fault then old(rows) else Put(old(rows), key, source, region, response, false, now)
      ensures if fault || NUL in region then rows == old(rows)
              else Stored(old(rows), rows, key, source, region, response, false, now)
    {
      if !fault && NUL !in region {
        var e := if key in rows then rows[key] else Entry(source, region, false, response, now);
        rows := rows[key := e.(response := response, notFound := false, fetchedAt := now)];
      }
    }

    method PutNotFound(key: string, source: string, region: string, now: int, fault: bool)
      modifies this
      ensures rows == if fault then old(rows) else Put(old(rows), key, source, region, Other, true, now)
      ensures if fault || NUL in region then rows == old(rows)
              else Stored(old(rows), rows, key, source, region, Other, true, now)
    {
      if !fault && NUL !in region {
        var e := if key in rows then rows[key] else Entry(source, region, true, Other, now);
        rows := rows[key := e.(response := Other, notFound := true, fetchedAt := now)];
      }
    }

    /** Removes exactly the rows Get would not serve, so no lookup now or later
        can tell that it ran. */
    method EvictExpired(now: int) returns (removed: nat)
      modifies this
      ensures rows == old(rows) - Stale(old(rows), ttl, now)
      ensures removed == |Stale(old(rows), ttl, now)|
      ensures forall key :: key in old(rows) && key !in rows <==> key in old(rows) && Live(old(rows), ttl, key, now) == None
      ensures forall key, later | later >= now :: Live(rows, ttl, key, later) == Live(old(rows), ttl, key, later)
    {
      var gone := set k | k in rows
        && ((!rows[k].notFound && rows[k].fetchedAt < now - ttl) || (rows[k].notFound && rows[k].fetchedAt < now - NOT_FOUND_TTL));
      assert gone == Stale(rows, ttl, now);
      removed := |gone|;
      rows := rows - gone;
    }
  }
}
