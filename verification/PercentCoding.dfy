/** UTF-8 and percent-encoding (section 2.1 of RFC 3986) as the URL quoting of request paths uses them. */
module PercentCoding {
  import opened History
  import opened Text

  type Octets = seq<nat>

  /** The UTF-8 octets of a character. */
  function Utf8Char(c: char): (r: Octets)
    ensures |r| == Utf8Width(c) && forall i :: 0 <= i < |r| ==> r[i] < 256
  {
    var n := c as nat;
    if n < 0x80 then [n]
    else if n < 0x800 then [0xC0 + n / 64, 0x80 + n % 64]
    else if n < 0x10000 then [0xE0 + n / 64 / 64, 0x80 + n / 64 % 64, 0x80 + n % 64]
    else [0xF0 + n / 64 / 64 / 64, 0x80 + n / 64 / 64 % 64, 0x80 + n / 64 % 64, 0x80 + n % 64]
  }

  function Utf8(s: string): Octets {
    if s == "" then [] else Utf8Char(s[0]) + Utf8(s[1..])
  }

  /** The length the other text rules speak of. */
  lemma {:induction false} Utf8Octets(s: string)
    ensures |Utf8(s)| == Utf8Length(s)
    decreases |s|
  {
    if s != "" { Utf8Octets(s[1..]); }
  }

  /** The leading octet tells how many octets there are. */
  function Width(first: nat): nat {
    if first < 0x80 then 1 else if first < 0xE0 then 2 else if first < 0xF0 then 3 else 4
  }

  lemma WidthFromFirst(c: char)
    ensures |Utf8Char(c)| == Width(Utf8Char(c)[0])
  {}

  lemma Sixes(n: nat)
    ensures n == n / 64 * 64 + n % 64
  {}

  lemma CodePoint(c: char)
    ensures var n, r := c as nat, Utf8Char(c);
            && (|r| == 1 ==> n == r[0])
            && (|r| == 2 ==> n == (r[0] - 0xC0) * 64 + (r[1] - 0x80))
            && (|r| == 3 ==> n == ((r[0] - 0xE0) * 64 + (r[1] - 0x80)) * 64 + (r[2] - 0x80))
            && (|r| == 4 ==> n == (((r[0] - 0xF0) * 64 + (r[1] - 0x80)) * 64 + (r[2] - 0x80)) * 64 + (r[3] - 0x80))
  {
    var n := c as nat;
    Sixes(n);
    Sixes(n / 64);
    Sixes(n / 64 / 64);
  }

  lemma SameChar(c: char, d: char)
    requires Utf8Char(c) == Utf8Char(d)
    ensures c == d
  {
    CodePoint(c);
    CodePoint(d);
  }

  lemma CharSplits(c: char, d: char, x: Octets, y: Octets)
    requires Utf8Char(c) + x == Utf8Char(d) + y
    ensures c == d && x == y
  {
    var p, q := Utf8Char(c), Utf8Char(d);
    assert p[0] == (p + x)[0] == (q + y)[0] == q[0];
    WidthFromFirst(c);
    WidthFromFirst(d);
    assert p == (p + x)[..|p|] == q && x == (p + x)[|p|..] == y;
    SameChar(c, d);
  }

  /** Different texts have different octets. */
  lemma {:induction false} Utf8Injective(s: string, t: string)
    requires Utf8(s) == Utf8(t)
    ensures s == t
    decreases |s|
  {
    if s != "" && t != "" {
      CharSplits(s[0], t[0], Utf8(s[1..]), Utf8(t[1..]));
      Utf8Injective(s[1..], t[1..]);
      assert s == [s[0]] + s[1..] && t == [t[0]] + t[1..];
    }
  }

  lemma {:induction false} Utf8Concat(s: string, t: string)
    ensures Utf8(s + t) == Utf8(s) + Utf8(t)
    decreases |s|
  {
    if s == "" {
      assert s + t == t;
    } else {
      assert (s + t)[1..] == s[1..] + t;
      Utf8Concat(s[1..], t);
    }
  }

  // ----- quoting -----

  function HexDigit(d: nat): char
    requires d < 16
  {
    if d < 10 then '0' + d as char else 'A' + (d - 10) as char
  }

  function HexValue(c: char): Option<nat> {
    if '0' <= c <= '9' then Some((c - '0') as nat)
    else if 'A' <= c <= 'F' then Some((c - 'A') as nat + 10)
    else if 'a' <= c <= 'f' then Some((c - 'a') as nat + 10)
    else None
  }

  function Percent(b: nat): string
    requires b < 256
  {
    ['%', HexDigit(b / 16), HexDigit(b % 16)]
  }

  function PercentAll(b: Octets): string
    requires forall i :: 0 <= i < |b| ==> b[i] < 256
  {
    if b == [] then "" else Percent(b[0]) + PercentAll(b[1..])
  }

  /** Characters quoting leaves alone: unreserved ones and those safe in a path. */
  predicate PathSafe(c: char) {
    || 'a' <= c <= 'z' || 'A' <= c <= 'Z' || '0' <= c <= '9'
    || c == '_' || c == '.' || c == '-' || c == '~'
    || c == '/' || c == ':' || c == '@' || c == '!' || c == '$' || c == '&' || c == '\'' || c == '(' || c == ')'
    || c == '*' || c == '+' || c == ',' || c == ';' || c == '='
  }

  function QuoteChar(c: char): string {
    if PathSafe(c) then [c] else PercentAll(Utf8Char(c))
  }

  function Quote(s: string): string {
    if s == "" then "" else QuoteChar(s[0]) + Quote(s[1..])
  }

  lemma {:induction false} QuoteConcat(s: string, t: string)
    ensures Quote(s + t) == Quote(s) + Quote(t)
    decreases |s|
  {
    if s == "" {
      assert s + t == t;
    } else {
      assert (s + t)[1..] == s[1..] + t;
      QuoteConcat(s[1..], t);
    }
  }

  // ----- decoding -----

  function Prepend(b: Octets, rest: Option<Octets>): Option<Octets> {
    if rest == None then None else Some(b + rest.value)
  }

  /** None for a percent sign without two hexadecimal digits. */
  function Unquote(raw: string): Option<Octets>
    decreases |raw|
  {
    if raw == "" then Some([])
    else if raw[0] != '%' then Prepend(Utf8Char(raw[0]), Unquote(raw[1..]))
    else if |raw| < 3 || HexValue(raw[1]) == None || HexValue(raw[2]) == None then None
    else Prepend([HexValue(raw[1]).value * 16 + HexValue(raw[2]).value], Unquote(raw[3..]))
  }

  lemma PrependNothing(rest: Option<Octets>)
    ensures Prepend([], rest) == rest
  {
    if rest.Some? { assert [] + rest.value == rest.value; }
  }

  lemma PrependTwice(a: Octets, b: Octets, rest: Option<Octets>)
    ensures Prepend(a, Prepend(b, rest)) == Prepend(a + b, rest)
  {
    if rest.Some? { assert a + (b + rest.value) == (a + b) + rest.value; }
  }

  lemma HexBack(d: nat)
    requires d < 16
    ensures HexValue(HexDigit(d)) == Some(d)
  {}

  lemma UnquotePercent(b: nat, rest: string)
    requires b < 256
    ensures Unquote(Percent(b) + rest) == Prepend([b], Unquote(rest))
  {
    HexBack(b / 16);
    HexBack(b % 16);
    var raw := Percent(b) + rest;
    assert raw[0] == '%' && raw[1] == HexDigit(b / 16) && raw[2] == HexDigit(b % 16) && raw[3..] == rest;
  }

  lemma {:induction false} UnquotePercentAll(b: Octets, rest: string)
    requires forall i :: 0 <= i < |b| ==> b[i] < 256
    ensures Unquote(PercentAll(b) + rest) == Prepend(b, Unquote(rest))
    decreases |b|
  {
    if b == [] {
      assert PercentAll(b) + rest == rest;
      PrependNothing(Unquote(rest));
    } else {
      assert PercentAll(b) + rest == Percent(b[0]) + (PercentAll(b[1..]) + rest);
      UnquotePercent(b[0], PercentAll(b[1..]) + rest);
      UnquotePercentAll(b[1..], rest);
      PrependTwice([b[0]], b[1..], Unquote(rest));
      assert b == [b[0]] + b[1..];
    }
  }

  lemma UnquoteChar(c: char, rest: string)
    ensures Unquote(QuoteChar(c) + rest) == Prepend(Utf8Char(c), Unquote(rest))
  {
    if PathSafe(c) {
      var raw := [c] + rest;
      assert raw[0] == c && raw[1..] == rest;
    } else {
      UnquotePercentAll(Utf8Char(c), rest);
    }
  }

  /** Unquoting a quoted text in front of anything gives the text's octets. */
  lemma {:induction false} UnquoteQuote(s: string, rest: string)
    ensures Unquote(Quote(s) + rest) == Prepend(Utf8(s), Unquote(rest))
    decreases |s|
  {
    if s == "" {
      assert Quote(s) + rest == rest;
      PrependNothing(Unquote(rest));
    } else {
      assert Quote(s) + rest == QuoteChar(s[0]) + (Quote(s[1..]) + rest);
      UnquoteChar(s[0], Quote(s[1..]) + rest);
      UnquoteQuote(s[1..], rest);
      PrependTwice(Utf8Char(s[0]), Utf8(s[1..]), Unquote(rest));
    }
  }

  /** A text without percent signs stands for itself. */
  lemma {:induction false} UnquoteLiteral(s: string)
    requires '%' !in s
    ensures Unquote(s) == Some(Utf8(s))
    decreases |s|
  {
    if s != "" { UnquoteLiteral(s[1..]); }
  }
}
