/** The database stores times as canonical UTC isoformat() text and digests as hexadecimal text,
    and orders and compares both as text.  Here that order is shown to be time order and numeric
    order, so that the other modules may use numbers. */
module TextOrder {
  import opened Text

  /** Order of text by code point, a prefix first. */
  predicate TextLess(a: string, b: string) {
    if a == "" then b != ""
    else b != "" && (a[0] < b[0] || (a[0] == b[0] && TextLess(a[1..], b[1..])))
  }

  /** Text of equal width in front decides first. */
  lemma {:induction false} FrontDecides(p: string, q: string, x: string, y: string)
    requires |p| == |q|
    ensures TextLess(p + x, q + y) <==> TextLess(p, q) || (p == q && TextLess(x, y))
  {
    if p == "" {
      assert p + x == x && q + y == y;
    } else {
      assert (p + x)[1..] == p[1..] + x && (q + y)[1..] == q[1..] + y;
      FrontDecides(p[1..], q[1..], x, y);
      assert p == [p[0]] + p[1..] && q == [q[0]] + q[1..];
    }
  }

  lemma SameFront(p: string, x: string, y: string)
    ensures TextLess(p + x, p + y) <==> TextLess(x, y)
  {
    FrontDecides(p, p, x, y);
    Irreflexive(p);
  }

  lemma {:induction false} Irreflexive(a: string)
    ensures !TextLess(a, a)
  {
    if a != "" { Irreflexive(a[1..]); }
  }

  lemma {:induction false} TextTotal(a: string, b: string)
    ensures a == b || TextLess(a, b) || TextLess(b, a)
  {
    if a != "" && b != "" {
      TextTotal(a[1..], b[1..]);
      assert a == [a[0]] + a[1..] && b == [b[0]] + b[1..];
    }
  }

  lemma {:induction false} TextTransitive(a: string, b: string, c: string)
    requires TextLess(a, b) && TextLess(b, c)
    ensures TextLess(a, c)
  {
    if a != "" && a[0] == b[0] == c[0] { TextTransitive(a[1..], b[1..], c[1..]); }
  }

  // ----- fixed-width numerals -----

  function Power(base: nat, width: nat): nat {
    if width == 0 then 1 else base * Power(base, width - 1)
  }

  function Numeral(n: nat, width: nat, base: nat): (s: string)
    requires 2 <= base <= 16
    ensures |s| == width
  {
    if width == 0 then "" else Numeral(n / base, width - 1, base) + [DigitChar(n % base)]
  }

  lemma QuotientFits(n: nat, width: nat, base: nat)
    requires 2 <= base <= 16 && width > 0 && n < Power(base, width)
    ensures n / base < Power(base, width - 1)
  {
    var q := n / base;
    if q >= Power(base, width - 1) {
      MulMonotone(base, Power(base, width - 1), q);
    }
  }

  lemma MulMonotone(a: nat, b: nat, c: nat)
    requires b <= c
    ensures a * b <= a * c
  {}

  lemma DivisionOrder(m: nat, n: nat, base: nat)
    requires base >= 2
    ensures m < n <==> m / base < n / base || (m / base == n / base && m % base < n % base)
  {
    var a, b := m / base, n / base;
    assert m == base * a + m % base && n == base * b + n % base;
    if a < b { MulMonotone(base, a + 1, b); }
    if b < a { MulMonotone(base, b + 1, a); }
  }

  lemma DigitOrder(d: nat, e: nat)
    requires d < 16 && e < 16
    ensures TextLess([DigitChar(d)], [DigitChar(e)]) <==> d < e
    ensures [DigitChar(d)] == [DigitChar(e)] ==> d == e
  {
    var x, y := [DigitChar(d)], [DigitChar(e)];
    assert x[1..] == "" && y[1..] == "";
    assert x[0] == DigitChar(d) && y[0] == DigitChar(e);
  }

  /** The last digit split off. */
  lemma Divided(n: nat, width: nat, base: nat) returns (q: nat, d: nat)
    requires 2 <= base <= 16 && width > 0 && n < Power(base, width)
    ensures q == n / base && d == n % base && d < base && q < Power(base, width - 1)
    ensures Numeral(n, width, base) == Numeral(q, width - 1, base) + [DigitChar(d)]
  {
    q, d := n / base, n % base;
    QuotientFits(n, width, base);
  }

  lemma {:induction false} NumeralOrder(m: nat, n: nat, width: nat, base: nat)
    requires 2 <= base <= 16 && m < Power(base, width) && n < Power(base, width)
    ensures TextLess(Numeral(m, width, base), Numeral(n, width, base)) <==> m < n
    ensures Numeral(m, width, base) == Numeral(n, width, base) ==> m == n
    decreases width
  {
    if width > 0 {
      var a, d := Divided(m, width, base);
      var b, e := Divided(n, width, base);
      NumeralOrder(a, b, width - 1, base);
      LastDigit(a, b, d, e, width, base);
      DivisionOrder(m, n, base);
    }
  }

  lemma LastDigit(a: nat, b: nat, d: nat, e: nat, width: nat, base: nat)
    requires 2 <= base <= 16 && d < base && e < base && width > 0
    requires var p, q := Numeral(a, width - 1, base), Numeral(b, width - 1, base);
             (TextLess(p, q) <==> a < b) && (p == q ==> a == b)
    ensures var x, y := Numeral(a, width - 1, base) + [DigitChar(d)], Numeral(b, width - 1, base) + [DigitChar(e)];
            && (TextLess(x, y) <==> a < b || (a == b && d < e))
            && (x == y ==> a == b && d == e)
  {
    var p, q := Numeral(a, width - 1, base), Numeral(b, width - 1, base);
    var x, y := [DigitChar(d)], [DigitChar(e)];
    DigitOrder(d, e);
    FrontDecides(p, q, x, y);
    if p + x == q + y { SplitFront(p, q, x, y); }
  }

  /** Digests compare as text exactly as they compare as numbers. */
  lemma DigestOrder(a: nat, b: nat)
    requires a < Power(16, 64) && b < Power(16, 64)
    ensures TextLess(Numeral(a, 64, 16), Numeral(b, 64, 16)) <==> a < b
    ensures Numeral(a, 64, 16) == Numeral(b, 64, 16) ==> a == b
  {
    NumeralOrder(a, b, 64, 16);
  }

  // ----- timestamps -----

  datatype Stamp = Stamp(year: nat, month: nat, day: nat, hour: nat, minute: nat, second: nat, micro: nat)

  function DaysIn(year: nat, month: nat): nat {
    if month in {4, 6, 9, 11} then 30
    else if month == 2 then if year % 4 == 0 && (year % 100 != 0 || year % 400 == 0) then 29 else 28
    else 31
  }

  predicate IsStamp(t: Stamp) {
    && 1 <= t.year <= 9999 && 1 <= t.month <= 12 && 1 <= t.day <= DaysIn(t.year, t.month)
    && t.hour < 24 && t.minute < 60 && t.second < 60 && t.micro < 1_000_000
  }

  predicate Earlier(a: Stamp, b: Stamp) {
    a.year < b.year || (a.year == b.year && (
    a.month < b.month || (a.month == b.month && (
    a.day < b.day || (a.day == b.day && (
    a.hour < b.hour || (a.hour == b.hour && (
    a.minute < b.minute || (a.minute == b.minute && (
    a.second < b.second || (a.second == b.second && a.micro < b.micro)))))))))))
  }

  function Fraction(micro: nat): string {
    if micro == 0 then "+00:00" else "." + Numeral(micro, 6, 10) + "+00:00"
  }

  function Clock(t: Stamp): string {
    Numeral(t.hour, 2, 10) + (":" + (Numeral(t.minute, 2, 10) + (":" + (Numeral(t.second, 2, 10)
    + ("" + Fraction(t.micro))))))
  }

  function Iso(t: Stamp): string {
    Numeral(t.year, 4, 10) + ("-" + (Numeral(t.month, 2, 10) + ("-" + (Numeral(t.day, 2, 10) + ("T" + Clock(t))))))
  }

  lemma Powers()
    ensures Power(10, 2) == 100 && Power(10, 4) == 10_000 && Power(10, 6) == 1_000_000
  {
    assert Power(10, 1) == 10;
    assert Power(10, 2) == 100;
    assert Power(10, 3) == 1000;
    assert Power(10, 4) == 10_000;
    assert Power(10, 5) == 100_000;
  }

  /** One field in front of the rest, with its separator. */
  lemma FieldOrder(m: nat, n: nat, width: nat, separator: string, x: string, y: string)
    requires m < Power(10, width) && n < Power(10, width)
    ensures TextLess(Numeral(m, width, 10) + (separator + x), Numeral(n, width, 10) + (separator + y))
            <==> m < n || (m == n && TextLess(x, y))
    ensures Numeral(m, width, 10) + (separator + x) == Numeral(n, width, 10) + (separator + y) ==> m == n && x == y
  {
    NumeralOrder(m, n, width, 10);
    var p, q := Numeral(m, width, 10), Numeral(n, width, 10);
    FrontDecides(p, q, separator + x, separator + y);
    SameFront(separator, x, y);
    if p + (separator + x) == q + (separator + y) {
      SplitFront(p, q, separator + x, separator + y);
      SplitFront(separator, separator, x, y);
    }
  }

  lemma SplitFront(p: string, q: string, x: string, y: string)
    requires |p| == |q| && p + x == q + y
    ensures p == q && x == y
  {
    assert p == (p + x)[..|p|] && q == (q + y)[..|q|];
    assert x == (p + x)[|p|..] && y == (q + y)[|q|..];
  }

  lemma FractionOrder(m: nat, n: nat)
    requires m < 1_000_000 && n < 1_000_000
    ensures TextLess(Fraction(m), Fraction(n)) <==> m < n
    ensures Fraction(m) == Fraction(n) ==> m == n
  {
    Powers();
    if m != 0 && n != 0 {
      var x, y := Numeral(m, 6, 10) + "+00:00", Numeral(n, 6, 10) + "+00:00";
      assert Fraction(m) == "." + x && Fraction(n) == "." + y;
      SameFront(".", x, y);
      FrontDecides(Numeral(m, 6, 10), Numeral(n, 6, 10), "+00:00", "+00:00");
      Irreflexive("+00:00");
      NumeralOrder(m, n, 6, 10);
      if Fraction(m) == Fraction(n) {
        SplitFront(".", ".", x, y);
        SplitFront(Numeral(m, 6, 10), Numeral(n, 6, 10), "+00:00", "+00:00");
      }
    } else {
      Irreflexive("+00:00");
      assert Fraction(m)[0] == (if m == 0 then '+' else '.') && Fraction(n)[0] == (if n == 0 then '+' else '.');
    }
  }

  predicate EarlierInDay(a: Stamp, b: Stamp) {
    a.hour < b.hour || (a.hour == b.hour && (
    a.minute < b.minute || (a.minute == b.minute && (
    a.second < b.second || (a.second == b.second && a.micro < b.micro)))))
  }

  lemma ClockOrder(a: Stamp, b: Stamp)
    requires IsStamp(a) && IsStamp(b)
    ensures TextLess(Clock(a), Clock(b)) <==> EarlierInDay(a, b)
    ensures Clock(a) == Clock(b)
            ==> a.hour == b.hour && a.minute == b.minute && a.second == b.second && a.micro == b.micro
  {
    Powers();
    FractionOrder(a.micro, b.micro);
    FieldOrder(a.second, b.second, 2, "", Fraction(a.micro), Fraction(b.micro));
    var x, y := Numeral(a.second, 2, 10) + ("" + Fraction(a.micro)),
                Numeral(b.second, 2, 10) + ("" + Fraction(b.micro));
    FieldOrder(a.minute, b.minute, 2, ":", x, y);
    var x', y' := Numeral(a.minute, 2, 10) + (":" + x), Numeral(b.minute, 2, 10) + (":" + y);
    FieldOrder(a.hour, b.hour, 2, ":", x', y');
  }

  /** Text order is time order: every group of digits has a fixed width and '+' sorts before '.'. */
  lemma IsoOrder(a: Stamp, b: Stamp)
    requires IsStamp(a) && IsStamp(b)
    ensures TextLess(Iso(a), Iso(b)) <==> Earlier(a, b)
    ensures Iso(a) == Iso(b) ==> a == b
  {
    Powers();
    ClockOrder(a, b);
    FieldOrder(a.day, b.day, 2, "T", Clock(a), Clock(b));
    var x, y := Numeral(a.day, 2, 10) + ("T" + Clock(a)), Numeral(b.day, 2, 10) + ("T" + Clock(b));
    FieldOrder(a.month, b.month, 2, "-", x, y);
    var x', y' := Numeral(a.month, 2, 10) + ("-" + x), Numeral(b.month, 2, 10) + ("-" + y);
    FieldOrder(a.year, b.year, 4, "-", x', y');
  }

  // ----- recognising canonical text -----

  function ReadNumeral(s: string): nat {
    if s == "" then 0
    else
      var c := s[|s| - 1];
      10 * ReadNumeral(s[..|s| - 1]) + if '0' <= c <= '9' then (c - '0') as nat else 0
  }

  lemma {:induction false} ReadBack(n: nat, width: nat)
    requires n < Power(10, width)
    ensures ReadNumeral(Numeral(n, width, 10)) == n
    decreases width
  {
    if width > 0 {
      var q, d := Divided(n, width, 10);
      ReadBack(q, width - 1);
      assert (Numeral(q, width - 1, 10) + [DigitChar(d)])[..width - 1] == Numeral(q, width - 1, 10);
    }
  }

  function ReadStamp(s: string): Stamp
    requires |s| == 25 || |s| == 32
  {
    Stamp(ReadNumeral(s[0..4]), ReadNumeral(s[5..7]), ReadNumeral(s[8..10]), ReadNumeral(s[11..13]),
          ReadNumeral(s[14..16]), ReadNumeral(s[17..19]), if |s| == 25 then 0 else ReadNumeral(s[20..26]))
  }

  /** Text that parses as a UTC time and is that time's own isoformat(). */
  predicate IsTimestamp(s: string) {
    (|s| == 25 || |s| == 32) && IsStamp(ReadStamp(s)) && Iso(ReadStamp(s)) == s
  }

  lemma FieldAt(p: string, separator: string, rest: string, whole: string, at: nat)
    requires at <= |whole| && whole[at..] == p + (separator + rest)
    ensures at + |p| + |separator| <= |whole|
    ensures whole[at..at + |p|] == p && whole[at + |p| + |separator|..] == rest
  {
    var tail := whole[at..];
    assert tail[..|p|] == p && tail[|p| + |separator|..] == rest;
    assert whole[at..at + |p|] == tail[..|p|];
    assert whole[at + |p| + |separator|..] == tail[|p| + |separator|..];
  }

  lemma FractionAt(micro: nat, whole: string)
    requires 0 < micro < 1_000_000 && |whole| >= 19 && whole[19..] == Fraction(micro)
    ensures |whole| == 32 && whole[20..26] == Numeral(micro, 6, 10)
  {
    assert whole[19..] == "" + ("." + (Numeral(micro, 6, 10) + "+00:00"));
    FieldAt("", ".", Numeral(micro, 6, 10) + "+00:00", whole, 19);
    assert whole[20..] == Numeral(micro, 6, 10) + ("+00:00" + "");
    FieldAt(Numeral(micro, 6, 10), "+00:00", "", whole, 20);
  }

  lemma SecondsAt(t: Stamp, whole: string)
    requires IsStamp(t) && |whole| >= 11 && whole[11..] == Clock(t)
    ensures |whole| >= 19 && whole[19..] == Fraction(t.micro)
    ensures whole[11..13] == Numeral(t.hour, 2, 10) && whole[14..16] == Numeral(t.minute, 2, 10)
    ensures whole[17..19] == Numeral(t.second, 2, 10)
  {
    var seconds := Numeral(t.second, 2, 10) + ("" + Fraction(t.micro));
    var minutes := Numeral(t.minute, 2, 10) + (":" + seconds);
    FieldAt(Numeral(t.hour, 2, 10), ":", minutes, whole, 11);
    FieldAt(Numeral(t.minute, 2, 10), ":", seconds, whole, 14);
    FieldAt(Numeral(t.second, 2, 10), "", Fraction(t.micro), whole, 17);
  }

  lemma ClockAt(t: Stamp, whole: string)
    requires IsStamp(t) && |whole| >= 11 && whole[11..] == Clock(t)
    ensures |whole| == if t.micro == 0 then 25 else 32
    ensures whole[11..13] == Numeral(t.hour, 2, 10) && whole[14..16] == Numeral(t.minute, 2, 10)
    ensures whole[17..19] == Numeral(t.second, 2, 10)
    ensures t.micro != 0 ==> whole[20..26] == Numeral(t.micro, 6, 10)
  {
    SecondsAt(t, whole);
    if t.micro != 0 { FractionAt(t.micro, whole); } else { assert |whole[19..]| == 6; }
  }

  lemma DateAt(t: Stamp, whole: string)
    requires IsStamp(t) && whole == Iso(t)
    ensures |whole| >= 11 && whole[11..] == Clock(t)
    ensures whole[0..4] == Numeral(t.year, 4, 10) && whole[5..7] == Numeral(t.month, 2, 10)
    ensures whole[8..10] == Numeral(t.day, 2, 10)
  {
    var days := Numeral(t.day, 2, 10) + ("T" + Clock(t));
    var months := Numeral(t.month, 2, 10) + ("-" + days);
    assert whole[0..] == whole;
    FieldAt(Numeral(t.year, 4, 10), "-", months, whole, 0);
    FieldAt(Numeral(t.month, 2, 10), "-", days, whole, 5);
    FieldAt(Numeral(t.day, 2, 10), "T", Clock(t), whole, 8);
  }

  lemma FieldsReadBack(t: Stamp)
    requires IsStamp(t)
    ensures ReadNumeral(Numeral(t.year, 4, 10)) == t.year && ReadNumeral(Numeral(t.month, 2, 10)) == t.month
    ensures ReadNumeral(Numeral(t.day, 2, 10)) == t.day && ReadNumeral(Numeral(t.hour, 2, 10)) == t.hour
    ensures ReadNumeral(Numeral(t.minute, 2, 10)) == t.minute && ReadNumeral(Numeral(t.second, 2, 10)) == t.second
    ensures ReadNumeral(Numeral(t.micro, 6, 10)) == t.micro
  {
    Powers();
    ReadBack(t.year, 4);
    ReadBack(t.month, 2);
    ReadBack(t.day, 2);
    ReadBack(t.hour, 2);
    ReadBack(t.minute, 2);
    ReadBack(t.second, 2);
    ReadBack(t.micro, 6);
  }

  /** Every time's text is recognised as such. */
  lemma IsoRecognised(t: Stamp)
    requires IsStamp(t)
    ensures IsTimestamp(Iso(t)) && ReadStamp(Iso(t)) == t
  {
    var whole := Iso(t);
    DateAt(t, whole);
    ClockAt(t, whole);
    FieldsReadBack(t);
  }
}
