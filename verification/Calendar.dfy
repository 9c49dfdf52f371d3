/** Calendar times as integers: the microseconds since the first midnight of year one. */
module Calendar {
  import opened TextOrder

  function DaysInYear(year: nat): nat {
    if DaysIn(year, 2) == 29 then 366 else 365
  }

  /** The days of all years before this one. */
  function DaysBeforeYear(year: nat): nat {
    if year <= 1 then 0 else DaysBeforeYear(year - 1) + DaysInYear(year - 1)
  }

  /** The days of all months before this one. */
  function DaysBeforeMonth(year: nat, month: nat): nat {
    if month <= 1 then 0 else DaysBeforeMonth(year, month - 1) + DaysIn(year, month - 1)
  }

  /** The number of the day, counted from zero. */
  function DayNumber(t: Stamp): nat
    requires t.day > 0
  {
    DaysBeforeYear(t.year) + DaysBeforeMonth(t.year, t.month) + (t.day - 1)
  }

  function MicrosOfDay(t: Stamp): nat {
    ((t.hour * 60 + t.minute) * 60 + t.second) * 1_000_000 + t.micro
  }

  const DAY := 86_400_000_000

  function Micros(t: Stamp): nat
    requires t.day > 0
  {
    DayNumber(t) * DAY + MicrosOfDay(t)
  }

  lemma {:induction false} YearsAdd(a: nat, b: nat)
    requires 1 <= a < b
    ensures DaysBeforeYear(a) + DaysInYear(a) <= DaysBeforeYear(b)
    decreases b
  {
    if a < b - 1 { YearsAdd(a, b - 1); }
  }

  lemma {:induction false} MonthsAdd(year: nat, a: nat, b: nat)
    requires 1 <= a < b
    ensures DaysBeforeMonth(year, a) + DaysIn(year, a) <= DaysBeforeMonth(year, b)
    decreases b
  {
    if a < b - 1 { MonthsAdd(year, a, b - 1); }
  }

  lemma YearIsItsMonths(year: nat)
    ensures DaysBeforeMonth(year, 13) == DaysInYear(year)
  {
    var february := DaysIn(year, 2);
    assert DaysBeforeMonth(year, 2) == 31;
    assert DaysBeforeMonth(year, 3) == 31 + february;
    assert DaysBeforeMonth(year, 4) == 62 + february;
    assert DaysBeforeMonth(year, 5) == 92 + february;
    assert DaysBeforeMonth(year, 6) == 123 + february;
    assert DaysBeforeMonth(year, 7) == 153 + february;
    assert DaysBeforeMonth(year, 8) == 184 + february;
    assert DaysBeforeMonth(year, 9) == 215 + february;
    assert DaysBeforeMonth(year, 10) == 245 + february;
    assert DaysBeforeMonth(year, 11) == 276 + february;
    assert DaysBeforeMonth(year, 12) == 306 + february;
  }

  /** Every day lies within its year. */
  lemma DayInYear(t: Stamp)
    requires IsStamp(t)
    ensures DaysBeforeMonth(t.year, t.month) + (t.day - 1) < DaysInYear(t.year)
  {
    YearIsItsMonths(t.year);
    MonthsAdd(t.year, t.month, 13);
  }

  predicate EarlierDay(a: Stamp, b: Stamp) {
    a.year < b.year || (a.year == b.year && (a.month < b.month || (a.month == b.month && a.day < b.day)))
  }

  lemma DaysInOrder(a: Stamp, b: Stamp)
    requires IsStamp(a) && IsStamp(b) && EarlierDay(a, b)
    ensures DayNumber(a) < DayNumber(b)
  {
    if a.year < b.year {
      DayInYear(a);
      YearsAdd(a.year, b.year);
    } else if a.month < b.month {
      MonthsAdd(a.year, a.month, b.month);
    }
  }

  lemma ClockInDay(t: Stamp)
    requires IsStamp(t)
    ensures MicrosOfDay(t) < DAY
  {}

  lemma ClocksInOrder(a: Stamp, b: Stamp)
    requires IsStamp(a) && IsStamp(b) && EarlierInDay(a, b)
    ensures MicrosOfDay(a) < MicrosOfDay(b)
  {}

  lemma EarlierIsLess(a: Stamp, b: Stamp)
    requires IsStamp(a) && IsStamp(b) && Earlier(a, b)
    ensures Micros(a) < Micros(b)
  {
    if EarlierDay(a, b) {
      DaysInOrder(a, b);
      ClockInDay(a);
    } else {
      ClocksInOrder(a, b);
    }
  }

  lemma EarlierOrNot(a: Stamp, b: Stamp)
    ensures a == b || Earlier(a, b) || Earlier(b, a)
  {}

  /** Comparing canonical UTC texts is comparing integers, and different times are different
      integers. */
  lemma TextIsInteger(a: Stamp, b: Stamp)
    requires IsStamp(a) && IsStamp(b)
    ensures TextLess(Iso(a), Iso(b)) <==> Micros(a) < Micros(b)
    ensures Iso(a) == Iso(b) <==> Micros(a) == Micros(b)
  {
    IsoOrder(a, b);
    EarlierOrNot(a, b);
    if Earlier(a, b) { EarlierIsLess(a, b); }
    if Earlier(b, a) { EarlierIsLess(b, a); }
  }

  // ----- the Gregorian calendar -----

  const LENGTHS := [31, 28, 31, 30, 31, 30, 31, 31, 30, 31, 30, 31]

  predicate LeapYear(year: nat) {
    year % 400 == 0 || (year % 4 == 0 && year % 100 != 0)
  }

  lemma MonthExactly(year: nat, month: nat)
    requires 1 <= month <= 12
    ensures DaysIn(year, month) == LENGTHS[month - 1] + if month == 2 && LeapYear(year) then 1 else 0
  {}

  lemma Divisible(year: nat)
    ensures year % 400 == 0 ==> year % 100 == 0
    ensures year % 100 == 0 ==> year % 4 == 0
  {
    if year % 400 == 0 { assert year == 100 * (4 * (year / 400)); }
    if year % 100 == 0 { assert year == 4 * (25 * (year / 100)); }
  }

  lemma YearLength(year: nat)
    ensures DaysInYear(year) == 365 + (if year % 4 == 0 then 1 else 0) - (if year % 100 == 0 then 1 else 0)
                                + if year % 400 == 0 then 1 else 0
  {
    Divisible(year);
  }

  lemma QuotientsNext(year: nat)
    requires year >= 1
    ensures year / 4 == (year - 1) / 4 + if year % 4 == 0 then 1 else 0
    ensures year / 100 == (year - 1) / 100 + if year % 100 == 0 then 1 else 0
    ensures year / 400 == (year - 1) / 400 + if year % 400 == 0 then 1 else 0
  {}

  function Leaps(year: nat): int {
    year / 4 - year / 100 + year / 400
  }

  lemma LeapsNext(year: nat)
    requires year >= 1
    ensures Leaps(year) == Leaps(year - 1) + DaysInYear(year) - 365
  {
    YearLength(year);
    QuotientsNext(year);
  }

  /** A leap day every fourth year but those divisible by a hundred and not by four hundred. */
  lemma {:induction false} YearsExactly(year: nat)
    requires year >= 1
    ensures DaysBeforeYear(year) == 365 * (year - 1) + Leaps(year - 1)
    decreases year
  {
    if year > 1 {
      YearsExactly(year - 1);
      LeapsNext(year - 1);
    }
  }

  /** The Unix epoch is where it should be. */
  lemma Epoch()
    ensures DayNumber(Stamp(1970, 1, 1, 0, 0, 0, 0)) == 719_162
  {
    YearsExactly(1970);
  }
}
