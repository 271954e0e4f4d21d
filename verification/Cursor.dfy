/** The opaque cursor of the catalog API: the next page number in decimal, in
    unpadded base64url (sections 3.2 and 5 of RFC 4648). */
module Cursor {
  import opened Collections
  import Text

  const MAX_INT := 0x7FFF_FFFF_FFFF_FFFF

  /** Two's complement wrap-around of a 64-bit int. */
  function Wrap64(x: int): int {
    (x + 0x8000_0000_0000_0000) % 0x1_0000_0000_0000_0000 - 0x8000_0000_0000_0000
  }

  // ---- base64url ------------------------------------------------------------------

  function Symbol(v: nat): char
    requires v < 64
  {
    if v < 26 then 'A' + v as char
    else if v < 52 then 'a' + (v - 26) as char
    else if v < 62 then '0' + (v - 52) as char
    else if v == 62 then '-' else '_'
  }

  function SymbolValue(c: char): Option<nat> {
    if 'A' <= c <= 'Z' then Some(c as int - 'A' as int)
    else if 'a' <= c <= 'z' then Some(c as int - 'a' as int + 26)
    else if '0' <= c <= '9' then Some(c as int - '0' as int + 52)
    else if c == '-' then Some(62)
    else if c == '_' then Some(63)
    else None
  }

  type Octet = x: nat | x < 256
  type Sextet = x: nat | x < 64

  /** Three octets make four sextets; a short last group is padded with zero bits. */
  function Sextets(os: seq<Octet>): seq<Sextet> {
    if |os| == 0 then []
    else if |os| == 1 then [os[0] / 4, os[0] % 4 * 16]
    else if |os| == 2 then [os[0] / 4, os[0] % 4 * 16 + os[1] / 16, os[1] % 16 * 4]
    else [os[0] / 4, os[0] % 4 * 16 + os[1] / 16, os[1] % 16 * 4 + os[2] / 64, os[2] % 64] + Sextets(os[3..])
  }

  function Symbols(vs: seq<Sextet>): string {
    if vs == [] then "" else [Symbol(vs[0])] + Symbols(vs[1..])
  }

  function Encode(os: seq<Octet>): string {
    Symbols(Sextets(os))
  }

  function Octet0(a: Sextet, b: Sextet): Octet { (a as int) * 4 + b / 16 }
  function Octet1(b: Sextet, c: Sextet): Octet { (b as int) % 16 * 16 + c / 4 }
  function Octet2(c: Sextet, d: Sextet): Octet { (c as int) % 4 * 64 + d }

  /** A single left-over symbol is an error; spare low bits of a short last
      group are ignored, as Go's decoder does. */
  function Octets(vs: seq<Sextet>): Option<seq<Octet>> {
    if |vs| == 0 then Some([])
    else if |vs| == 1 then None
    else if |vs| == 2 then Some([Octet0(vs[0], vs[1])])
    else if |vs| == 3 then Some([Octet0(vs[0], vs[1]), Octet1(vs[1], vs[2])])
    else
      var rest := Octets(vs[4..]);
      if rest.None? then None
      else Some([Octet0(vs[0], vs[1]), Octet1(vs[1], vs[2]), Octet2(vs[2], vs[3])] + rest.value)
  }

  /** Carriage returns and line feeds are skipped; any other stranger is an error. */
  function Scanned(s: string): Option<seq<Sextet>> {
    if s == "" then Some([])
    else
      var rest := Scanned(s[1..]);
      if s[0] == '\r' || s[0] == '\n' then rest
      else if rest.None? || SymbolValue(s[0]).None? then None
      else Some([SymbolValue(s[0]).value] + rest.value)
  }

  function Decode(s: string): Option<seq<Octet>> {
    var vs := Scanned(s);
    if vs.None? then None else Octets(vs.value)
  }

  lemma SymbolRoundTrip(v: Sextet)
    ensures SymbolValue(Symbol(v)) == Some(v) && Symbol(v) != '\r' && Symbol(v) != '\n'
  {
  }

  /** The alphabet of section 5 of RFC 4648: A-Z, a-z, 0-9, - and _ in that order. */
  lemma SymbolIs(v: Sextet, w: Sextet)
    ensures v < 26 <==> 'A' <= Symbol(v) <= 'Z'
    ensures 26 <= v < 52 <==> 'a' <= Symbol(v) <= 'z'
    ensures 52 <= v < 62 <==> '0' <= Symbol(v) <= '9'
    ensures (v == 62 <==> Symbol(v) == '-') && (v == 63 <==> Symbol(v) == '_')
    ensures v <= w && (w < 26 || 26 <= v <= w < 52 || 52 <= v <= w < 62) ==> Symbol(w) as int - Symbol(v) as int == w - v
  {
  }

  /** Three octets and their four symbols are the same 24 bits. */
  lemma GroupIs(a: Octet, b: Octet, c: Octet, rest: seq<Octet>)
    ensures var v, w, x, y := a / 4, a % 4 * 16 + b / 16, b % 16 * 4 + c / 64, c % 64;
      && v * 262144 + w * 4096 + x * 64 + y == a * 65536 + b * 256 + c
      && Encode([a, b, c] + rest) == [Symbol(v), Symbol(w), Symbol(x), Symbol(y)] + Encode(rest)
  {
    var v, w, x, y := a / 4, a % 4 * 16 + b / 16, b % 16 * 4 + c / 64, c % 64;
    SameBits(a, b, c);
    SextetsOfGroup(a, b, c, rest);
    SymbolsAppend([v, w, x, y], Sextets(rest));
    SymbolsOfGroup(v, w, x, y);
  }

  /** A short last group is the one padded with zero octets, cut after its own bits. */
  lemma ShortGroupsAre(a: Octet, b: Octet)
    ensures Encode([a, b]) <= Encode([a, b, 0]) && |Encode([a, b])| == 3
    ensures Encode([a]) <= Encode([a, 0, 0]) && |Encode([a])| == 2
  {
    GroupIs(a, b, 0, []);
    GroupIs(a, 0, 0, []);
    assert [a, b, 0] + [] == [a, b, 0] && [a, 0, 0] + [] == [a, 0, 0];
    var two: seq<Sextet> := [a / 4, a % 4 * 16 + b / 16, b % 16 * 4];
    assert Sextets([a, b]) == two;
    SymbolsOfGroup(a / 4, a % 4 * 16 + b / 16, b % 16 * 4, 0);
    var one: seq<Sextet> := [a / 4, a % 4 * 16];
    assert Sextets([a]) == one;
    SymbolsOfGroup(a / 4, a % 4 * 16, 0, 0);
  }

  lemma SameBits(a: Octet, b: Octet, c: Octet)
    ensures a / 4 * 262144 + (a % 4 * 16 + b / 16) * 4096 + (b % 16 * 4 + c / 64) * 64 + c % 64 == a * 65536 + b * 256 + c
  {
    assert a == a / 4 * 4 + a % 4 && b == b / 16 * 16 + b % 16 && c == c / 64 * 64 + c % 64;
  }

  lemma SymbolsOfGroup(v: Sextet, w: Sextet, x: Sextet, y: Sextet)
    ensures Symbols([v, w]) == [Symbol(v), Symbol(w)]
    ensures Symbols([v, w, x]) == [Symbol(v), Symbol(w), Symbol(x)]
    ensures Symbols([v, w, x, y]) == [Symbol(v), Symbol(w), Symbol(x), Symbol(y)]
  {
    SymbolsNext([], v);
    SymbolsNext([v], w);
    SymbolsNext([v, w], x);
    SymbolsNext([v, w, x], y);
    assert [] + [v] == [v] && [v] + [w] == [v, w] && [v, w] + [x] == [v, w, x] && [v, w, x] + [y] == [v, w, x, y];
  }

  lemma SymbolsNext(vs: seq<Sextet>, v: Sextet)
    ensures Symbols(vs + [v]) == Symbols(vs) + [Symbol(v)]
  {
    SymbolsAppend(vs, [v]);
    assert Symbols([v]) == [Symbol(v)] + Symbols([]);
  }

  lemma {:induction false} SymbolsAppend(vs: seq<Sextet>, ws: seq<Sextet>)
    ensures Symbols(vs + ws) == Symbols(vs) + Symbols(ws)
  {
    if vs == [] {
      assert vs + ws == ws;
    } else {
      SymbolsAppend(vs[1..], ws);
      assert (vs + ws)[1..] == vs[1..] + ws;
      Regroup([Symbol(vs[0])], Symbols(vs[1..]), Symbols(ws));
    }
  }

  lemma {:induction false} ScannedSymbols(vs: seq<Sextet>)
    ensures Scanned(Symbols(vs)) == Some(vs)
  {
    if vs != [] {
      SymbolRoundTrip(vs[0]);
      ScannedSymbols(vs[1..]);
      assert Symbols(vs)[1..] == Symbols(vs[1..]);
      assert vs == [vs[0]] + vs[1..];
    }
  }

  lemma GroupRoundTrip(a: Octet, b: Octet, c: Octet)
    ensures Octet0(a / 4, a % 4 * 16 + b / 16) == a == Octet0(a / 4, a % 4 * 16)
    ensures Octet1(a % 4 * 16 + b / 16, b % 16 * 4 + c / 64) == b == Octet1(a % 4 * 16 + b / 16, b % 16 * 4)
    ensures Octet2(b % 16 * 4 + c / 64, c % 64) == c
  {
  }

  lemma SextetsOfGroup(a: Octet, b: Octet, c: Octet, rest: seq<Octet>)
    ensures Sextets([a, b, c] + rest) == [a / 4, a % 4 * 16 + b / 16, b % 16 * 4 + c / 64, c % 64] + Sextets(rest)
  {
    assert ([a, b, c] + rest)[3..] == rest;
  }

  lemma OctetsOfGroup(v: Sextet, w: Sextet, x: Sextet, y: Sextet, rest: seq<Sextet>)
    requires Octets(rest).Some?
    ensures Octets([v, w, x, y] + rest) == Some([Octet0(v, w), Octet1(w, x), Octet2(x, y)] + Octets(rest).value)
  {
    assert ([v, w, x, y] + rest)[4..] == rest;
  }

  lemma FullGroup(a: Octet, b: Octet, c: Octet, rest: seq<Octet>)
    requires Octets(Sextets(rest)) == Some(rest)
    ensures Octets(Sextets([a, b, c] + rest)) == Some([a, b, c] + rest)
  {
    SextetsOfGroup(a, b, c, rest);
    OctetsOfGroup(a / 4, a % 4 * 16 + b / 16, b % 16 * 4 + c / 64, c % 64, Sextets(rest));
    GroupRoundTrip(a, b, c);
  }

  lemma ShortGroups(a: Octet, b: Octet)
    ensures Octets(Sextets([a])) == Some([a])
    ensures Octets(Sextets([a, b])) == Some([a, b])
  {
    GroupRoundTrip(a, 0, 0);
    GroupRoundTrip(a, b, 0);
    var one: seq<Sextet> := [a / 4, a % 4 * 16];
    assert Sextets([a]) == one;
    var two: seq<Sextet> := [a / 4, a % 4 * 16 + b / 16, b % 16 * 4];
    assert Sextets([a, b]) == two;
  }

  lemma {:induction false} OctetsOfSextets(os: seq<Octet>)
    ensures Octets(Sextets(os)) == Some(os)
  {
    if |os| == 1 {
      assert [os[0]] == os;
      ShortGroups(os[0], 0);
    } else if |os| == 2 {
      assert [os[0], os[1]] == os;
      ShortGroups(os[0], os[1]);
    } else if |os| >= 3 {
      var a, b, c, rest := os[0], os[1], os[2], os[3..];
      assert [a, b, c] + rest == os;
      OctetsOfSextets(rest);
      FullGroup(a, b, c, rest);
    }
  }

  /** Decoding inverts encoding for every byte string. */
  lemma Base64RoundTrip(os: seq<Octet>)
    ensures Decode(Encode(os)) == Some(os)
    ensures os != [] ==> Encode(os) != ""
  {
    ScannedSymbols(Sextets(os));
    OctetsOfSextets(os);
  }

  function AsOctets(s: string): seq<Octet>
    requires forall c | c in s :: c as int < 256
  {
    if s == "" then [] else
    assert s[0] in s && forall c | c in s[1..] :: c in s;
    [s[0] as int] + AsOctets(s[1..])
  }

  function AsText(os: seq<Octet>): string {
    if os == [] then "" else [os[0] as char] + AsText(os[1..])
  }

  lemma {:induction false} TextRoundTrip(s: string)
    requires forall c | c in s :: c as int < 256
    ensures AsText(AsOctets(s)) == s
    ensures |AsOctets(s)| == |s|
  {
    if s != "" {
      assert s[0] in s && forall c | c in s[1..] :: c in s;
      TextRoundTrip(s[1..]);
      assert AsOctets(s)[1..] == AsOctets(s[1..]);
      assert s == [s[0]] + s[1..];
    }
  }

  // ---- strconv.Atoi -------------------------------------------------------------------

  predicate AllDigits(s: string) {
    s != "" && forall c | c in s :: Text.IsDigit(c)
  }

  /** The number and whether there was no error. A syntax error gives 0, a
      number out of range the nearest one in range. */
  function Atoi(s: string): (int, bool) {
    var signed := s != "" && (s[0] == '-' || s[0] == '+');
    var digits := if signed then s[1..] else s;
    if !AllDigits(digits) then (0, false)
    else if signed && s[0] == '-' then
      if Text.Value(digits) > MAX_INT + 1 then (-MAX_INT - 1, false) else (-(Text.Value(digits) as int), true)
    else
      if Text.Value(digits) > MAX_INT then (MAX_INT, false) else (Text.Value(digits), true)
  }

  lemma AtoiInvertsItoa(n: int)
    requires -MAX_INT - 1 <= n <= MAX_INT
    ensures Atoi(Text.Itoa(n)) == (n, true)
  {
    var d := Text.Digits(if n < 0 then -n else n);
    Text.ValueOfDigits(if n < 0 then -n else n);
    assert Text.IsDigit(d[0]);
    assert n < 0 ==> Text.Itoa(n)[1..] == d;
  }

  // ---- the cursor ------------------------------------------------------------------------

  function DecodeCursor(s: string): int {
    if s == "" then 0
    else
      var b := Decode(s);
      if b.None? then 0
      else
        var (n, ok) := Atoi(AsText(b.value));
        if !ok || n < 1 then 0 else n
  }

  function PageCursor(page: int): string {
    assert forall c | c in Text.Itoa(page) :: c as int < 256;
    Encode(AsOctets(Text.Itoa(page)))
  }

  function NextCursor(page: int, limit: int, total: int): string {
    if limit <= 0 || page <= 0 || Wrap64(page * limit) >= total then "" else PageCursor(Wrap64(page + 1))
  }

  lemma PageCursorRoundTrip(n: int)
    requires 1 <= n <= MAX_INT
    ensures PageCursor(n) != "" && DecodeCursor(PageCursor(n)) == n
  {
    var text := Text.Itoa(n);
    assert forall c | c in text :: c as int < 256;
    Base64RoundTrip(AsOctets(text));
    TextRoundTrip(text);
    AtoiInvertsItoa(n);
  }

  /** No cursor is the empty string, which would mean the end. */
  lemma PageCursorNonempty(n: int)
    ensures PageCursor(n) != ""
  {
    var text := Text.Itoa(n);
    assert forall c | c in text :: c as int < 256;
    Base64RoundTrip(AsOctets(text));
    TextRoundTrip(text);
    assert text != "" && AsText([]) == "";
    assert Decode("") == Some([]);
  }

  lemma WrapFits(x: int)
    requires x >= 0
    ensures Wrap64(x) == x <==> x <= MAX_INT
    ensures Wrap64(x) <= MAX_INT
  {
  }

  /** What nextCursor answers, for every page and limit: a cursor exactly if the
      product, cut to 64 bits, is below the total; it leads to the next page,
      which after the last 64-bit number is the first. */
  lemma CursorLeadsToNextPage(page: int, limit: int, total: int)
    requires 1 <= page <= MAX_INT && 1 <= limit
    ensures NextCursor(page, limit, total) == "" <==> Wrap64(page * limit) >= total
    ensures NextCursor(page, limit, total) != "" ==>
              DecodeCursor(NextCursor(page, limit, total)) == if page < MAX_INT then page + 1 else 0
  {
    PageCursorNonempty(Wrap64(page + 1));
    if page < MAX_INT {
      assert Wrap64(page + 1) == page + 1;
      PageCursorRoundTrip(page + 1);
    } else {
      NegativeCursor(Wrap64(page + 1));
    }
  }

  lemma NegativeCursor(n: int)
    requires -MAX_INT - 1 <= n < 1
    ensures DecodeCursor(PageCursor(n)) == 0
  {
    var text := Text.Itoa(n);
    assert forall c | c in text :: c as int < 256;
    Base64RoundTrip(AsOctets(text));
    TextRoundTrip(text);
    AtoiInvertsItoa(n);
  }

  /** So the cursor is absent exactly at the end of the list, exactly if the
      product fits into 64 bits or its cut-off value still reaches the total. */
  lemma CursorEndsTheList(page: int, limit: int, total: int)
    requires 1 <= page <= MAX_INT && 1 <= limit && 0 <= page * limit && total <= MAX_INT
    ensures (NextCursor(page, limit, total) == "" <==> page * limit >= total)
       <==> page * limit <= MAX_INT || Wrap64(page * limit) >= total
  {
    CursorLeadsToNextPage(page, limit, total);
    WrapFits(page * limit);
  }
}
