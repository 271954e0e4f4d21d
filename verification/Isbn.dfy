/** When two ISBN strings name the same book. */
module Isbn {
  import Text

  predicate Kept(c: char) { Text.IsDigit(c) || c == 'X' || c == 'x' }

  function Upper(c: char): char { if c == 'x' then 'X' else c }

  /** The digits and X of a string, in order, with x made X. */
  function Normal(s: string): (r: string)
    ensures forall c | c in r :: Text.IsDigit(c) || c == 'X'
  {
    if s == "" then ""
    else
      var n, c := |s| - 1, s[|s| - 1];
      if Kept(c) then Normal(s[..n]) + [Upper(c)] else Normal(s[..n])
  }

  method NormalizeISBN(s: string) returns (out: string)
    ensures out == Normal(s)
  {
    out := "";
    for i := 0 to |s|
      invariant out == Normal(s[..i])
    {
      var c := s[i];
      if Text.IsDigit(c) || c == 'X' || c == 'x' {
        if c == 'x' {
          c := 'X';
        }
        out := out + [c];
      }
      assert s[..i + 1][..i] == s[..i];
    }
    assert s[..|s|] == s;
  }

  /** Characters are kept or dropped one by one. */
  lemma {:induction false} NormalConcat(a: string, b: string)
    ensures Normal(a + b) == Normal(a) + Normal(b)
  {
    if b == "" {
      assert a + b == a;
    } else {
      var n := |b| - 1;
      NormalConcat(a, b[..n]);
      assert (a + b)[..|a + b| - 1] == a + b[..n];
    }
  }

  lemma NormalOne(c: char)
    ensures Normal([c]) == if '0' <= c <= '9' || c == 'X' then [c] else if c == 'x' then "X" else ""
  {
    assert [c][..0] == "";
  }

  /** Normalising is idempotent: a normal form is its own. */
  lemma {:induction false} NormalIdempotent(s: string)
    requires forall c | c in s :: Text.IsDigit(c) || c == 'X'
    ensures Normal(s) == s
  {
    if s != "" {
      var front, c := s[..|s| - 1], s[|s| - 1];
      assert s == front + [c] && c in s;
      assert forall x | x in front :: x in s;
      NormalIdempotent(front);
    }
  }

  /** isbnsMatch: equal normal forms, or an ISBN-10 and a 978 ISBN-13 with the
      same nine-digit core. */
  predicate IsbnsMatch(a: string, b: string) {
    var an, bn := Normal(a), Normal(b);
    if an == "" || bn == "" then false
    else if an == bn then true
    else if |an| == 10 && |bn| == 13 && bn[..3] == "978" then an[..9] == bn[3..12]
    else if |bn| == 10 && |an| == 13 && an[..3] == "978" then bn[..9] == an[3..12]
    else false
  }

  // ---- check digits ----------------------------------------------------------------

  function Digit(c: char): nat { if Text.IsDigit(c) then Text.DigitValue(c) else 10 }

  /** Weights 1, 3, 1, 3, ... (Annex C of ISO 2108:2005). */
  function Sum13(s: string): nat {
    if s == "" then 0 else Sum13(s[..|s| - 1]) + Digit(s[|s| - 1]) * if |s| % 2 == 1 then 1 else 3
  }

  /** Weights 10, 9, 8, ... */
  function Sum10(s: string): nat
    requires |s| <= 10
  {
    if s == "" then 0 else Sum10(s[..|s| - 1]) + Digit(s[|s| - 1]) * (11 - |s|)
  }

  predicate Valid13(n: string) {
    |n| == 13 && (forall c | c in n :: Text.IsDigit(c)) && (Sum13(n[..12]) + Digit(n[12])) % 10 == 0
  }

  predicate Valid10(n: string) {
    && |n| == 10 && (forall i | 0 <= i < 9 :: Text.IsDigit(n[i])) && (Text.IsDigit(n[9]) || n[9] == 'X')
    && (Sum10(n[..9]) + Digit(n[9])) % 11 == 0
  }

  predicate Valid(s: string) {
    Valid10(Normal(s)) || Valid13(Normal(s))
  }

  function CheckDigit13(first12: string): char {
    Text.Digit((10 - Sum13(first12) % 10) % 10)
  }

  /** The one ISBN-13 a valid number stands for. */
  function Canonical(n: string): string
    requires Valid10(n) || Valid13(n)
  {
    if |n| == 13 then n else "978" + n[..9] + [CheckDigit13("978" + n[..9])]
  }

  lemma DigitInjective(c: char, d: char)
    requires (Text.IsDigit(c) || c == 'X') && (Text.IsDigit(d) || d == 'X') && Digit(c) == Digit(d)
    ensures c == d
  {
    assert Text.IsDigit(c) ==> c as int == Digit(c) + '0' as int;
    assert Text.IsDigit(d) ==> d as int == Digit(d) + '0' as int;
  }

  /** A valid ISBN-13 is its first twelve digits and their check digit. */
  lemma Valid13Shape(n: string)
    requires Valid13(n)
    ensures n == n[..12] + [CheckDigit13(n[..12])]
  {
    assert n[12] in n;
    var s, d := Sum13(n[..12]), Digit(n[12]);
    assert d == (10 - s % 10) % 10;
    DigitInjective(n[12], CheckDigit13(n[..12]));
    assert n == n[..12] + [n[12]];
  }

  /** Two valid ISBN-10s with the same core are the same. */
  lemma Valid10Shape(m: string, n: string)
    requires Valid10(m) && Valid10(n) && m[..9] == n[..9]
    ensures m == n
  {
    var s := Sum10(m[..9]);
    assert (s + Digit(m[9])) % 11 == 0 && (s + Digit(n[9])) % 11 == 0;
    DigitInjective(m[9], n[9]);
    assert m == m[..9] + [m[9]] && n == n[..9] + [n[9]];
  }

  lemma CrossMatch(ten: string, thirteen: string)
    requires Valid10(ten) && Valid13(thirteen)
    ensures Canonical(ten) == thirteen <==> thirteen[..3] == "978" && ten[..9] == thirteen[3..12]
  {
    var p := "978" + ten[..9];
    if thirteen[..3] == "978" && ten[..9] == thirteen[3..12] {
      assert p == thirteen[..12];
      Valid13Shape(thirteen);
    }
    if p + [CheckDigit13(p)] == thirteen {
      assert thirteen[..3] == "978" && thirteen[3..12] == ten[..9];
    }
  }

  lemma SameTens(m: string, n: string)
    requires Valid10(m) && Valid10(n) && Canonical(m) == Canonical(n)
    ensures m == n
  {
    assert Canonical(m)[3..12] == m[..9] && Canonical(n)[3..12] == n[..9];
    Valid10Shape(m, n);
  }

  /** ISBN identity: on valid numbers, matching is equality of the canonical
      ISBN-13, and so an equivalence. */
  lemma MatchIsIdentity(a: string, b: string)
    requires Valid(a) && Valid(b)
    ensures IsbnsMatch(a, b) <==> Canonical(Normal(a)) == Canonical(Normal(b))
  {
    var an, bn := Normal(a), Normal(b);
    if |an| == 10 && |bn| == 10 {
      if Canonical(an) == Canonical(bn) {
        SameTens(an, bn);
      }
    } else if |an| == 10 {
      CrossMatch(an, bn);
    } else if |bn| == 10 {
      CrossMatch(bn, an);
    }
  }

  /** On arbitrary strings matching is still symmetric, but a chain of two
      matches closes exactly when it does not end in two different normal
      forms of the same length. */
  lemma MatchChains(a: string, b: string, c: string)
    requires IsbnsMatch(a, b) && IsbnsMatch(b, c)
    ensures IsbnsMatch(b, a)
    ensures IsbnsMatch(a, c) <==> (|Normal(a)| == |Normal(c)| ==> Normal(a) == Normal(c))
  {
  }

  predicate AllDigits(s: string) {
    forall c | c in s :: Text.IsDigit(c)
  }

  /** An ISBN-10 and a 978 number over the same core match, whatever their last places. */
  lemma CoreMatch(core: string, ten: string, thirteen: string)
    requires |core| == 9 && |ten| == 10 && |thirteen| == 13 && AllDigits(ten) && AllDigits(thirteen)
    requires ten[..9] == core && thirteen[..3] == "978" && thirteen[3..12] == core
    ensures Normal(ten) == ten && Normal(thirteen) == thirteen
    ensures IsbnsMatch(ten, thirteen) && IsbnsMatch(thirteen, ten)
  {
    NormalIdempotent(ten);
    NormalIdempotent(thirteen);
  }

  /** Without valid check digits transitivity fails: two ISBN-10s that differ in
      the last place both match every 978 number over their core. */
  lemma ChainBreaks(core: string, a: string, b: string, c: string)
    requires |core| == 9 && |a| == |c| == 10 && |b| == 13 && AllDigits(a) && AllDigits(b) && AllDigits(c)
    requires a[..9] == core == c[..9] && b[..3] == "978" && b[3..12] == core && a != c
    ensures IsbnsMatch(a, b) && IsbnsMatch(b, c) && !IsbnsMatch(a, c)
  {
    CoreMatch(core, a, b);
    CoreMatch(core, c, b);
  }

  lemma BreakingChain() returns (a: string, b: string, c: string)
    ensures IsbnsMatch(a, b) && IsbnsMatch(b, c) && !IsbnsMatch(a, c)
  {
    var core := "123456789";
    a, b, c := core + "0", "978" + core + "7", core + "1";
    assert a[..9] == core == c[..9] && b[..3] == "978" && b[3..12] == core;
    assert a[9] != c[9];
    ChainBreaks(core, a, b, c);
  }
}
