/** The canonical JSON text of an audit event: sorted keys, no spaces, non-ASCII left as it is.
    It determines the event, and it cannot outgrow the writer's bound. */
module CanonicalJson {
  import opened Text

  datatype Value = Text(text: string) | Null | Number(value: nat)

  function EscapeChar(c: char): string {
    if c == '"' then ['\\', '"']
    else if c == '\\' then ['\\', '\\']
    else if c == '\n' then ['\\', 'n']
    else if c == '\r' then ['\\', 'r']
    else if c == '\t' then ['\\', 't']
    else if c as int == 8 then ['\\', 'b']
    else if c as int == 12 then ['\\', 'f']
    else if c as int < 0x20 then ['\\', 'u', '0', '0', DigitChar(c as int / 16), DigitChar(c as int % 16)]
    else [c]
  }

  function Escape(s: string): string {
    if s == "" then "" else EscapeChar(s[0]) + Escape(s[1..])
  }

  function Quote(s: string): string {
    ['"'] + Escape(s) + ['"']
  }

  function Decimal(n: nat): (s: string)
    ensures |s| >= 1 && forall i :: 0 <= i < |s| ==> '0' <= s[i] <= '9'
  {
    if n < 10 then [DigitChar(n)] else Decimal(n / 10) + [DigitChar(n % 10)]
  }

  function Encode(v: Value): string {
    match v
    case Text(s) => Quote(s)
    case Null => ['n', 'u', 'l', 'l']
    case Number(n) => Decimal(n)
  }

  function Member(key: string, v: Value, rest: string): string {
    Quote(key) + ([':'] + (Encode(v) + rest))
  }

  /** The members of an object and its closing brace. */
  function Members(keys: seq<string>, values: seq<Value>): string
    requires |keys| == |values| > 0
  {
    Member(keys[0], values[0], if |keys| == 1 then ['}'] else [','] + Members(keys[1..], values[1..]))
  }

  function Object(keys: seq<string>, values: seq<Value>): string
    requires |keys| == |values| > 0
  {
    ['{'] + Members(keys, values)
  }

  // ----- the text determines the values -----

  lemma DigitCharInjective(d: nat, e: nat)
    requires d < 16 && e < 16 && DigitChar(d) == DigitChar(e)
    ensures d == e
  {}

  lemma ShortEscape(c: char, d: char)
    requires EscapeChar(c) == EscapeChar(d)
    ensures c == d
  {
    if |EscapeChar(c)| == 6 {
      assert EscapeChar(c)[4] == EscapeChar(d)[4] && EscapeChar(c)[5] == EscapeChar(d)[5];
      DigitCharInjective(c as int / 16, d as int / 16);
      DigitCharInjective(c as int % 16, d as int % 16);
    } else if |EscapeChar(c)| == 2 {
      assert EscapeChar(c)[1] == EscapeChar(d)[1];
    } else {
      assert EscapeChar(c)[0] == EscapeChar(d)[0];
    }
  }

  lemma EscapeWidth(c: char)
    ensures var e := EscapeChar(c);
            && |e| in {1, 2, 6} && e[0] != '"'
            && (|e| == 1 <==> e[0] != '\\')
            && (|e| > 1 ==> (|e| == 6 <==> e[1] == 'u'))
  {}

  lemma CharSplits(c: char, d: char, x: string, y: string)
    requires EscapeChar(c) + x == EscapeChar(d) + y
    ensures c == d && x == y
  {
    var p, q := EscapeChar(c), EscapeChar(d);
    EscapeWidth(c);
    EscapeWidth(d);
    assert (p + x)[0] == p[0] && (q + y)[0] == q[0];
    if |p| > 1 && |q| > 1 { assert (p + x)[1] == p[1] && (q + y)[1] == q[1]; }
    assert |p| == |q|;
    assert p == (p + x)[..|p|] == q;
    assert x == (p + x)[|p|..] == y;
    ShortEscape(c, d);
  }

  /** What is left to read of a string literal and what follows it. */
  function Remaining(s: string, x: string): string {
    Escape(s) + (['"'] + x)
  }

  lemma RemainingStep(s: string, x: string)
    ensures Remaining(s, x) != "" && (s == "" <==> Remaining(s, x)[0] == '"')
    ensures if s == "" then Remaining(s, x) == ['"'] + x
            else Remaining(s, x) == EscapeChar(s[0]) + Remaining(s[1..], x)
  {
    if s != "" { EscapeWidth(s[0]); }
  }

  /** A quoted string ends at its first unescaped quote. */
  lemma {:induction false} StringSplits(s: string, t: string, x: string, y: string)
    requires Remaining(s, x) == Remaining(t, y)
    ensures s == t && x == y
    decreases |s|
  {
    RemainingStep(s, x);
    RemainingStep(t, y);
    if s == "" {
      assert x == (['"'] + x)[1..] && y == (['"'] + y)[1..];
    } else {
      CharSplits(s[0], t[0], Remaining(s[1..], x), Remaining(t[1..], y));
      StringSplits(s[1..], t[1..], x, y);
      assert s == [s[0]] + s[1..] && t == [t[0]] + t[1..];
    }
  }

  predicate Digits(s: string) {
    forall i :: 0 <= i < |s| ==> '0' <= s[i] <= '9'
  }

  predicate Delimited(x: string) {
    x != "" && (x[0] == ',' || x[0] == '}')
  }

  lemma DigitsSplit(p: string, q: string, x: string, y: string)
    requires Digits(p) && Digits(q) && Delimited(x) && Delimited(y) && p + x == q + y
    ensures p == q && x == y
  {
    var z := p + x;
    assert z[|p|] == x[0] && z[|q|] == (q + y)[|q|] == y[0];
    assert Digits(z[..|p|]) && Digits(z[..|q|]) by { assert z[..|p|] == p && z[..|q|] == q; }
    assert |p| == |q| by {
      assert forall i :: 0 <= i < |p| ==> '0' <= z[i] <= '9';
      assert forall i :: 0 <= i < |q| ==> '0' <= z[i] <= '9' by { assert forall i :: 0 <= i < |q| ==> z[i] == q[i]; }
    }
    assert p == (p + x)[..|p|] && q == (q + y)[..|q|];
    assert x == (p + x)[|p|..] && y == (q + y)[|q|..];
  }

  lemma {:induction false} DecimalInjective(m: nat, n: nat)
    requires Decimal(m) == Decimal(n)
    ensures m == n
    decreases m
  {
    var p, q := Decimal(m), Decimal(n);
    if m >= 10 { assert |p| == |Decimal(m / 10)| + 1; }
    if n >= 10 { assert |q| == |Decimal(n / 10)| + 1; }
    assert p[|p| - 1] == DigitChar(m % 10) && q[|q| - 1] == DigitChar(n % 10);
    DigitCharInjective(m % 10, n % 10);
    if m >= 10 && n >= 10 {
      assert Decimal(m / 10) == p[..|p| - 1] && Decimal(n / 10) == q[..|q| - 1];
      DecimalInjective(m / 10, n / 10);
    }
  }

  lemma ValueKind(v: Value)
    ensures var p := Encode(v);
            && p != "" && (v.Text? <==> p[0] == '"') && (v.Null? <==> p[0] == 'n')
            && (v.Number? ==> Digits(p))
  {}

  lemma TextSplits(s: string, t: string, x: string, y: string)
    requires Quote(s) + x == Quote(t) + y
    ensures s == t && x == y
  {
    assert Quote(s) + x == ['"'] + Remaining(s, x);
    assert Quote(t) + y == ['"'] + Remaining(t, y);
    SameFront(['"'], Remaining(s, x), Remaining(t, y));
    StringSplits(s, t, x, y);
  }

  lemma NumberSplits(m: nat, n: nat, x: string, y: string)
    requires Delimited(x) && Delimited(y) && Decimal(m) + x == Decimal(n) + y
    ensures m == n && x == y
  {
    DigitsSplit(Decimal(m), Decimal(n), x, y);
    DecimalInjective(m, n);
  }

  lemma ValueSplits(v: Value, w: Value, x: string, y: string)
    requires Delimited(x) && Delimited(y) && Encode(v) + x == Encode(w) + y
    ensures v == w && x == y
  {
    var p, q := Encode(v), Encode(w);
    ValueKind(v);
    ValueKind(w);
    assert p[0] == (p + x)[0] == (q + y)[0] == q[0];
    match v
    case Text(s) => TextSplits(s, w.text, x, y);
    case Null => assert x == (p + x)[4..] && y == (q + y)[4..];
    case Number(n) => NumberSplits(n, w.value, x, y);
  }

  lemma SameFront(p: string, x: string, y: string)
    requires p + x == p + y
    ensures x == y
  {
    assert x == (p + x)[|p|..] && y == (p + y)[|p|..];
  }

  lemma MemberSplits(key: string, v: Value, w: Value, x: string, y: string)
    requires Delimited(x) && Delimited(y) && Member(key, v, x) == Member(key, w, y)
    ensures v == w && x == y
  {
    SameFront(Quote(key), [':'] + (Encode(v) + x), [':'] + (Encode(w) + y));
    SameFront([':'], Encode(v) + x, Encode(w) + y);
    ValueSplits(v, w, x, y);
  }

  lemma {:induction false} MembersInjective(keys: seq<string>, vs: seq<Value>, ws: seq<Value>)
    requires |keys| == |vs| == |ws| > 0 && Members(keys, vs) == Members(keys, ws)
    ensures vs == ws
    decreases |keys|
  {
    if |keys| == 1 {
      MemberSplits(keys[0], vs[0], ws[0], ['}'], ['}']);
    } else {
      var x, y := Members(keys[1..], vs[1..]), Members(keys[1..], ws[1..]);
      MemberSplits(keys[0], vs[0], ws[0], [','] + x, [','] + y);
      SameFront([','], x, y);
      MembersInjective(keys[1..], vs[1..], ws[1..]);
      assert vs == [vs[0]] + vs[1..] && ws == [ws[0]] + ws[1..];
    }
  }

  lemma ObjectInjective(keys: seq<string>, vs: seq<Value>, ws: seq<Value>)
    requires |keys| == |vs| == |ws| > 0 && Object(keys, vs) == Object(keys, ws)
    ensures vs == ws
  {
    SameFront(['{'], Members(keys, vs), Members(keys, ws));
    MembersInjective(keys, vs, ws);
  }

  // ----- the size of the text -----

  lemma {:induction false} Utf8Concat(a: string, b: string)
    ensures Utf8Length(a + b) == Utf8Length(a) + Utf8Length(b)
    decreases |a|
  {
    if a == "" {
      assert a + b == b;
    } else {
      assert (a + b)[1..] == a[1..] + b;
      Utf8Concat(a[1..], b);
    }
  }

  lemma EscapeCharSize(c: char)
    ensures Utf8Length(EscapeChar(c)) <= 6
    ensures c as int >= 0x20 ==> Utf8Length(EscapeChar(c)) <= 2 * Utf8Width(c)
  {
    var e := EscapeChar(c);
    forall i | 0 <= i < |e| ensures Utf8Width(e[i]) <= 4 && (|e| > 1 ==> Utf8Width(e[i]) == 1) {}
    if |e| == 1 { assert e[1..] == ""; }
    else { AsciiSize(e); }
  }

  lemma {:induction false} AsciiSize(s: string)
    requires forall i :: 0 <= i < |s| ==> Utf8Width(s[i]) == 1
    ensures Utf8Length(s) == |s|
    decreases |s|
  {
    if s != "" { AsciiSize(s[1..]); }
  }

  lemma {:induction false} EscapeSize(s: string)
    ensures Utf8Length(Escape(s)) <= 6 * |s|
    ensures (forall i :: 0 <= i < |s| ==> s[i] as int >= 0x20) ==> Utf8Length(Escape(s)) <= 2 * Utf8Length(s)
    decreases |s|
  {
    if s != "" {
      EscapeCharSize(s[0]);
      EscapeSize(s[1..]);
      Utf8Concat(EscapeChar(s[0]), Escape(s[1..]));
    }
  }

  lemma QuoteSize(s: string)
    ensures Utf8Length(Quote(s)) <= 6 * |s| + 2
    ensures (forall i :: 0 <= i < |s| ==> s[i] as int >= 0x20) ==> Utf8Length(Quote(s)) <= 2 * Utf8Length(s) + 2
  {
    EscapeSize(s);
    AsciiSize(['"']);
    Utf8Concat(['"'], Escape(s));
    Utf8Concat(['"'] + Escape(s), ['"']);
  }

  lemma {:induction false} DecimalSize(n: nat, digits: nat, bound: nat)
    requires digits >= 1 && n < bound && bound == PowerOfTen(digits)
    ensures Utf8Length(Decimal(n)) == |Decimal(n)| <= digits
    decreases digits
  {
    AsciiSize(Decimal(n));
    if n >= 10 {
      assert digits > 1;
      DecimalSize(n / 10, digits - 1, PowerOfTen(digits - 1));
    }
  }

  function PowerOfTen(digits: nat): nat {
    if digits == 0 then 1 else 10 * PowerOfTen(digits - 1)
  }

  function TotalSize(values: seq<Value>): nat {
    if values == [] then 0 else Utf8Length(Encode(values[0])) + TotalSize(values[1..])
  }

  lemma MemberSize(key: string, v: Value, rest: string, each: nat)
    requires 6 * |key| + 4 <= each
    ensures Utf8Length(Member(key, v, rest)) + 1 <= each + Utf8Length(Encode(v)) + Utf8Length(rest)
  {
    QuoteSize(key);
    AsciiSize([':']);
    Utf8Concat(Encode(v), rest);
    Utf8Concat([':'], Encode(v) + rest);
    Utf8Concat(Quote(key), [':'] + (Encode(v) + rest));
  }

  function Allowance(members: nat, each: nat): nat {
    if members == 0 then 0 else each + Allowance(members - 1, each)
  }

  lemma TotalStep(values: seq<Value>)
    requires values != []
    ensures TotalSize(values) == Utf8Length(Encode(values[0])) + TotalSize(values[1..])
  {}

  lemma FirstMember(keys: seq<string>, values: seq<Value>, each: nat)
    requires |keys| == |values| > 1 && 6 * |keys[0]| + 4 <= each
    ensures Utf8Length(Members(keys, values))
            <= each + Utf8Length(Encode(values[0])) + Utf8Length(Members(keys[1..], values[1..]))
  {
    var rest := Members(keys[1..], values[1..]);
    AsciiSize([',']);
    Utf8Concat([','], rest);
    MemberSize(keys[0], values[0], [','] + rest, each);
  }

  /** An object of short keys costs little more than its values. */
  lemma {:induction false} MembersSize(keys: seq<string>, values: seq<Value>, each: nat)
    requires |keys| == |values| > 0 && forall i :: 0 <= i < |keys| ==> 6 * |keys[i]| + 4 <= each
    ensures Utf8Length(Members(keys, values)) <= TotalSize(values) + Allowance(|keys|, each)
    decreases |keys|
  {
    TotalStep(values);
    if |keys| == 1 {
      AsciiSize(['}']);
      MemberSize(keys[0], values[0], ['}'], each);
    } else {
      FirstMember(keys, values, each);
      MembersSize(keys[1..], values[1..], each);
    }
  }
}
