/** Strings of Unicode scalars: two orders on them that turn out to be one, and decimal numbers. */
module Text {
  import opened Sorting
  import opened Options

  predicate PrintableAscii(s: string) {
    forall c <- s :: ' ' <= c <= '~'
  }

  /** Lexicographic order; the shorter of two strings that agree so far comes first. */
  predicate Lex(a: seq<int>, b: seq<int>) {
    a == [] || (b != [] && (a[0] < b[0] || (a[0] == b[0] && Lex(a[1..], b[1..]))))
  }

  lemma {:induction false} LexTotal(a: seq<int>, b: seq<int>)
    ensures Lex(a, b) || Lex(b, a)
  {
    if a != [] && b != [] { LexTotal(a[1..], b[1..]); }
  }

  lemma {:induction false} LexAntisymmetric(a: seq<int>, b: seq<int>)
    requires Lex(a, b) && Lex(b, a)
    ensures a == b
  {
    if a != [] && b != [] {
      LexAntisymmetric(a[1..], b[1..]);
      assert a == [a[0]] + a[1..] && b == [b[0]] + b[1..];
    }
  }

  lemma {:induction false} LexTransitive(a: seq<int>, b: seq<int>, c: seq<int>)
    requires Lex(a, b) && Lex(b, c)
    ensures Lex(a, c)
  {
    if a != [] && a[0] == b[0] == c[0] {
      LexTransitive(a[1..], b[1..], c[1..]);
    }
  }

  /** One list comes before another if it is a beginning of it, or is smaller where they first differ. */
  lemma {:induction false} LexExactly(a: seq<int>, b: seq<int>)
    ensures Lex(a, b) <==> a <= b || exists i :: 0 <= i < |a| && i < |b| && a[..i] == b[..i] && a[i] < b[i]
  {
    if a != [] && b != [] && a[0] == b[0] {
      LexExactly(a[1..], b[1..]);
      assert a == [a[0]] + a[1..] && b == [b[0]] + b[1..];
      forall i | 0 <= i < |a[1..]| && i < |b[1..]|
        ensures a[1..][..i] == b[1..][..i] <==> a[..i + 1] == b[..i + 1]
      {
        assert a[..i + 1] == [a[0]] + a[1..][..i] && b[..i + 1] == [b[0]] + b[1..][..i];
      }
    }
  }

  function CodePoints(s: string): seq<int> {
    seq(|s|, i requires 0 <= i < |s| => s[i] as int)
  }

  /** The order Python's `sort_keys` and tuple comparison use. */
  predicate ByCodePoint(a: string, b: string) {
    Lex(CodePoints(a), CodePoints(b))
  }

  lemma ByCodePointIsTotalOrder()
    ensures TotalOrder(ByCodePoint)
  {
    forall a, b ensures ByCodePoint(a, b) || ByCodePoint(b, a) {
      LexTotal(CodePoints(a), CodePoints(b));
    }
    forall a, b, c | ByCodePoint(a, b) && ByCodePoint(b, c) ensures ByCodePoint(a, c) {
      LexTransitive(CodePoints(a), CodePoints(b), CodePoints(c));
    }
    forall a, b | ByCodePoint(a, b) && ByCodePoint(b, a) ensures a == b {
      LexAntisymmetric(CodePoints(a), CodePoints(b));
      forall i | 0 <= i < |a| ensures a[i] == b[i] {
        assert CodePoints(a)[i] == CodePoints(b)[i];
      }
    }
  }

  /** Section 3 of RFC 3629. */
  function Utf8Char(c: char): (bytes: seq<int>)
    ensures 1 <= |bytes| <= 4 && forall b <- bytes :: 0 <= b < 256
  {
    var p := c as int;
    if p < 0x80 then [p]
    else if p < 0x800 then [0xC0 + p / 64, 0x80 + p % 64]
    else if p < 0x10000 then [0xE0 + p / 4096, 0x80 + p / 64 % 64, 0x80 + p % 64]
    else [0xF0 + p / 262144, 0x80 + p / 4096 % 64, 0x80 + p / 64 % 64, 0x80 + p % 64]
  }

  function Utf8(s: string): seq<int> {
    if s == [] then [] else Utf8Char(s[0]) + Utf8(s[1..])
  }

  /** The order of Go's `sort.Strings`. */
  predicate ByUtf8(a: string, b: string) {
    Lex(Utf8(a), Utf8(b))
  }

  lemma LexCommonPrefix(p: seq<int>, a: seq<int>, b: seq<int>)
    ensures Lex(p + a, p + b) <==> Lex(a, b)
  {
    if p == [] {
      assert p + a == a && p + b == b;
    } else {
      LexCommonPrefix(p[1..], a, b);
      assert (p + a)[1..] == p[1..] + a && (p + b)[1..] == p[1..] + b;
    }
  }

  /** `k` is where two byte strings first differ, and `a` has the smaller byte there. */
  predicate DiffersAt(a: seq<int>, b: seq<int>, k: nat) {
    && k < |a| && k < |b| && a[k] < b[k]
    && forall i :: 0 <= i < k ==> a[i] == b[i]
  }

  /** The first difference decides the order, whatever follows. */
  lemma LexFirstDifference(a: seq<int>, b: seq<int>, k: nat)
    requires DiffersAt(a, b, k)
    ensures Lex(a, b) && !Lex(b, a)
  {
    if k > 0 {
      LexFirstDifference(a[1..], b[1..], k - 1);
    }
  }

  /** Base-64 digits compare like the numbers they write. */
  lemma DigitsOrder(p: nat, q: nat)
    requires p < q
    ensures p / 64 < q / 64 || (p / 64 == q / 64 && p % 64 < q % 64)
  {
  }

  lemma LongerEncodingIsGreater(c: char, d: char)
    requires |Utf8Char(c)| < |Utf8Char(d)|
    ensures Utf8Char(c)[0] < Utf8Char(d)[0]
  {
  }

  lemma SameLengthOrder2(c: char, d: char) returns (k: nat)
    requires 0x80 <= c as int < d as int < 0x800
    ensures DiffersAt(Utf8Char(c), Utf8Char(d), k)
  {
    DigitsOrder(c as int, d as int);
    k := if c as int / 64 == d as int / 64 then 1 else 0;
  }

  lemma SameLengthOrder3(c: char, d: char) returns (k: nat)
    requires 0x800 <= c as int < d as int < 0x10000
    ensures DiffersAt(Utf8Char(c), Utf8Char(d), k)
  {
    var p, q := c as int / 64, d as int / 64;
    assert c as int / 4096 == p / 64 && d as int / 4096 == q / 64;
    DigitsOrder(c as int, d as int);
    if p == q {
      k := 2;
    } else {
      DigitsOrder(p, q);
      k := if p / 64 == q / 64 then 1 else 0;
    }
  }

  lemma SameLengthOrder4(c: char, d: char) returns (k: nat)
    requires 0x10000 <= c as int < d as int
    ensures DiffersAt(Utf8Char(c), Utf8Char(d), k)
  {
    var p, q := c as int / 64, d as int / 64;
    var p', q' := p / 64, q / 64;
    assert c as int / 4096 == p' && d as int / 4096 == q';
    assert c as int / 262144 == p' / 64 && d as int / 262144 == q' / 64;
    DigitsOrder(c as int, d as int);
    if p == q {
      k := 3;
    } else {
      DigitsOrder(p, q);
      if p' == q' {
        k := 2;
      } else {
        DigitsOrder(p', q');
        k := if p' / 64 == q' / 64 then 1 else 0;
      }
    }
  }

  lemma CharOrder(c: char, d: char, x: seq<int>, y: seq<int>)
    requires c < d
    ensures Lex(Utf8Char(c) + x, Utf8Char(d) + y) && !Lex(Utf8Char(d) + y, Utf8Char(c) + x)
  {
    var k: nat := 0;
    if |Utf8Char(c)| < |Utf8Char(d)| {
      LongerEncodingIsGreater(c, d);
    } else if c as int >= 0x10000 {
      k := SameLengthOrder4(c, d);
    } else if c as int >= 0x800 {
      k := SameLengthOrder3(c, d);
    } else if c as int >= 0x80 {
      k := SameLengthOrder2(c, d);
    }
    LexFirstDifference(Utf8Char(c) + x, Utf8Char(d) + y, k);
  }

  /** Section 1 of RFC 3629: byte order is code point order, so Go and Python sort keys alike. */
  lemma {:induction false} Utf8OrderIsCodePointOrder(a: string, b: string)
    ensures ByUtf8(a, b) <==> ByCodePoint(a, b)
  {
    if a != [] && b != [] {
      assert CodePoints(a)[1..] == CodePoints(a[1..]) && CodePoints(b)[1..] == CodePoints(b[1..]);
      if a[0] == b[0] {
        Utf8OrderIsCodePointOrder(a[1..], b[1..]);
        LexCommonPrefix(Utf8Char(a[0]), Utf8(a[1..]), Utf8(b[1..]));
      } else if a[0] < b[0] {
        CharOrder(a[0], b[0], Utf8(a[1..]), Utf8(b[1..]));
      } else {
        CharOrder(b[0], a[0], Utf8(b[1..]), Utf8(a[1..]));
      }
    }
  }

  predicate IsDigit(c: char) {
    '0' <= c <= '9'
  }

  function Digit(n: nat): char
    requires n < 10
  {
    ('0' as int + n) as char
  }

  function NatToString(n: nat): (s: string)
    ensures s != [] && forall c <- s :: IsDigit(c)
  {
    if n < 10 then [Digit(n)] else NatToString(n / 10) + [Digit(n % 10)]
  }

  function IntToString(n: int): (s: string)
    ensures s != [] && forall c <- s :: IsDigit(c) || c == '-'
  {
    if n < 0 then "-" + NatToString(-n) else NatToString(n)
  }

  function ParseNat(s: string): int
    requires forall c <- s :: IsDigit(c)
  {
    if s == [] then 0
    else 10 * ParseNat(s[..|s| - 1]) + (s[|s| - 1] as int - '0' as int)
  }

  /** The value of a decimal literal, if it is one. */
  function ParseInt(s: string): (r: Option<int>) {
    var digits := if s != [] && s[0] == '-' then s[1..] else s;
    if digits == [] || exists c <- digits :: !IsDigit(c) then None
    else Some(if digits == s then ParseNat(digits) else -ParseNat(digits))
  }

  lemma {:induction false} ParseNatOfString(n: nat)
    ensures ParseNat(NatToString(n)) == n
  {
    if n >= 10 {
      ParseNatOfString(n / 10);
      assert NatToString(n)[..|NatToString(n)| - 1] == NatToString(n / 10);
    }
  }

  lemma ParseIntOfString(n: int)
    ensures ParseInt(IntToString(n)) == Some(n)
  {
    var m := if n < 0 then -n else n;
    ParseNatOfString(m);
    assert NatToString(m)[0] != '-' by { assert NatToString(m)[0] in NatToString(m); }
    if n < 0 {
      assert IntToString(n)[1..] == NatToString(m);
    }
  }

  /** A number is written without a sign unless it is negative, and without leading zeros. */
  lemma {:induction false} NatIsPlain(n: nat)
    ensures |NatToString(n)| > 1 ==> NatToString(n)[0] != '0'
  {
    if n >= 10 {
      NatIsPlain(n / 10);
      if n < 100 { assert NatToString(n / 10) == [Digit(n / 10)]; }
    }
  }

  lemma IntIsPlain(n: int)
    ensures var s := IntToString(n);
      && (s[0] == '-' <==> n < 0)
      && var digits := if n < 0 then s[1..] else s;
      && digits != [] && (forall c <- digits :: '0' <= c <= '9') && (|digits| > 1 ==> digits[0] != '0')
  {
    NatIsPlain(if n < 0 then -n else n);
    assert IntToString(n)[0] in IntToString(n);
    if n >= 0 { assert NatToString(n)[0] in NatToString(n); }
  }
}
