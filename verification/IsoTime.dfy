/** The timestamps the mandate table stores: UTC datetimes printed by
    `isoformat()` and compared as text by the SQL guards. */
module IsoTime {

  /** An aware UTC datetime, field by field. */
  datatype Utc = Utc(year: int, month: int, day: int, hour: int, minute: int, second: int, micro: int)

  // ----- The calendar (proleptic Gregorian, as datetime counts it)

  predicate Leap(y: int) {
    y % 4 == 0 && (y % 100 != 0 || y % 400 == 0)
  }

  function DaysInMonth(y: int, m: int): int {
    if m == 2 then (if Leap(y) then 29 else 28)
    else if m == 4 || m == 6 || m == 9 || m == 11 then 30
    else 31
  }

  function DaysBeforeYear(y: int): int
    decreases y
  {
    if y <= 1 then 0 else DaysBeforeYear(y - 1) + (if Leap(y - 1) then 366 else 365)
  }

  function DaysBeforeMonth(y: int, m: int): int
    requires m >= 1
    decreases m
  {
    if m == 1 then 0 else DaysBeforeMonth(y, m - 1) + DaysInMonth(y, m - 1)
  }

  predicate Valid(t: Utc) {
    && 1 <= t.year <= 9999 && 1 <= t.month <= 12 && 1 <= t.day <= DaysInMonth(t.year, t.month)
    && 0 <= t.hour < 24 && 0 <= t.minute < 60 && 0 <= t.second < 60 && 0 <= t.micro < 1_000_000
  }

  /** The day number counted from 0001-01-01. */
  function Ordinal(y: int, m: int, d: int): int
    requires m >= 1
  {
    DaysBeforeYear(y) + DaysBeforeMonth(y, m) + d
  }

  /** The time since the beginning of year 1, counted in days (2), hours (3),
      minutes (4), seconds (5) or microseconds (6). */
  function Elapsed(t: Utc, unit: nat): int
    requires Valid(t) && 2 <= unit <= 6
    decreases unit, t
  {
    if unit == 2 then Ordinal(t.year, t.month, t.day)
    else if unit == 3 then Elapsed(t, 2) * 24 + t.hour
    else if unit == 4 then Elapsed(t, 3) * 60 + t.minute
    else if unit == 5 then Elapsed(t, 4) * 60 + t.second
    else Elapsed(t, 5) * 1_000_000 + t.micro
  }

  /** Microseconds since the beginning of year 1. */
  function Instant(t: Utc): int
    requires Valid(t)
  {
    Elapsed(t, 6)
  }

  // ----- The text

  /** Exactly `width` decimal digits of n. */
  function Pad(n: nat, width: nat): (s: string)
    ensures |s| == width
    decreases width, n
  {
    if width == 0 then [] else Pad(n / 10, width - 1) + ['0' + (n % 10) as char]
  }

  /** The fraction, left out when it is zero, and the UTC offset. */
  function Fraction(micro: nat): string {
    if micro == 0 then "+00:00" else "." + (Pad(micro, 6) + "+00:00")
  }

  /** The fields before the fraction, from the year (0) to the second (5). */
  function Field(t: Utc, k: nat): int {
    if k == 0 then t.year else if k == 1 then t.month else if k == 2 then t.day
    else if k == 3 then t.hour else if k == 4 then t.minute else t.second
  }

  function Width(k: nat): nat { if k == 0 then 4 else 2 }

  function Mark(k: nat): char { if k < 2 then '-' else if k == 2 then 'T' else ':' }

  function IsoFrom(t: Utc, k: nat): string
    requires Valid(t) && k <= 5
    decreases 5 - k, t
  {
    Pad(Field(t, k), Width(k)) + (if k == 5 then Fraction(t.micro) else [Mark(k)] + IsoFrom(t, k + 1))
  }

  /** What `isoformat()` prints for an aware UTC datetime. */
  function Iso(t: Utc): string
    requires Valid(t)
  {
    IsoFrom(t, 0)
  }

  /** The order the database applies to TEXT: character by character. */
  predicate Less(s: string, t: string) {
    t != [] && (s == [] || s[0] < t[0] || (s[0] == t[0] && Less(s[1..], t[1..])))
  }

  /** The layout of the text, field by field. */
  lemma Layout(t: Utc)
    requires Valid(t)
    ensures Iso(t) == Pad(t.year, 4) + "-" + Pad(t.month, 2) + "-" + Pad(t.day, 2) + "T"
                      + Pad(t.hour, 2) + ":" + Pad(t.minute, 2) + ":" + Pad(t.second, 2)
                      + (if t.micro == 0 then "" else "." + Pad(t.micro, 6)) + "+00:00"
  {
    hide Pad;
    assert IsoFrom(t, 5) == Pad(t.second, 2) + Fraction(t.micro);
    assert IsoFrom(t, 3) == Pad(t.hour, 2) + (":" + (Pad(t.minute, 2) + (":" + IsoFrom(t, 5))));
    assert IsoFrom(t, 1) == Pad(t.month, 2) + ("-" + (Pad(t.day, 2) + ("T" + IsoFrom(t, 3))));
  }

  // ----- The text order is total

  lemma {:induction false} LessTotal(s: string, t: string)
    ensures Less(s, t) || Less(t, s) || s == t
    ensures !(Less(s, t) && Less(t, s))
    ensures !Less(s, s)
  {
    if s != [] && t != [] {
      LessTotal(s[1..], t[1..]);
      if s[0] == t[0] && s[1..] == t[1..] {
        assert s == [s[0]] + s[1..] == t;
      }
    }
    if s != [] { LessTotal(s[1..], s[1..]); }
  }

  // ----- Fixed-width digits compare as numbers

  function Pow10(n: nat): nat {
    if n == 0 then 1 else 10 * Pow10(n - 1)
  }

  lemma LessHead(c: char, s: string, d: char, t: string)
    ensures Less([c] + s, [d] + t) <==> c < d || (c == d && Less(s, t))
  {
  }

  lemma {:induction false} LessPad(width: nat, x: nat, s: string, y: nat, t: string)
    requires x < Pow10(width) && y < Pow10(width)
    ensures Less(Pad(x, width) + s, Pad(y, width) + t) <==> x < y || (x == y && Less(s, t))
    decreases width
  {
    if width == 0 {
      assert Pad(x, 0) + s == s && Pad(y, 0) + t == t;
    } else {
      var c, d := '0' + (x % 10) as char, '0' + (y % 10) as char;
      assert Pad(x, width) + s == Pad(x / 10, width - 1) + ([c] + s);
      assert Pad(y, width) + t == Pad(y / 10, width - 1) + ([d] + t);
      LessPad(width - 1, x / 10, [c] + s, y / 10, [d] + t);
      LessHead(c, s, d, t);
    }
  }

  lemma LessSame(c: char, s: string, t: string)
    ensures Less([c] + s, [c] + t) <==> Less(s, t)
  {
  }

  /** '+' sorts below '.', so leaving out a zero fraction keeps the order. */
  lemma LessFraction(x: nat, y: nat)
    requires x < 1_000_000 && y < 1_000_000
    ensures Less(Fraction(x), Fraction(y)) <==> x < y
  {
    assert Pow10(6) == 1_000_000 by { assert Pow10(3) == 1000; }
    LessHead('+', "00:00", '.', Pad(y, 6) + "+00:00");
    LessHead('.', Pad(x, 6) + "+00:00", '+', "00:00");
    LessSame('.', Pad(x, 6) + "+00:00", Pad(y, 6) + "+00:00");
    LessPad(6, x, "+00:00", y, "+00:00");
    LessTotal("+00:00", "+00:00");
  }

  predicate BeforeFrom(a: Utc, b: Utc, k: nat)
    requires k <= 5
    decreases 5 - k
  {
    Field(a, k) < Field(b, k) ||
    (Field(a, k) == Field(b, k) && if k == 5 then a.micro < b.micro else BeforeFrom(a, b, k + 1))
  }

  lemma {:induction false} LessFrom(a: Utc, b: Utc, k: nat)
    requires Valid(a) && Valid(b) && k <= 5
    ensures Less(IsoFrom(a, k), IsoFrom(b, k)) <==> BeforeFrom(a, b, k)
    decreases 5 - k
  {
    assert Pow10(2) == 100;
    assert Pow10(4) == 100 * Pow10(2);
    if k == 5 {
      LessPad(2, a.second, Fraction(a.micro), b.second, Fraction(b.micro));
      LessFraction(a.micro, b.micro);
    } else {
      var s, t := IsoFrom(a, k + 1), IsoFrom(b, k + 1);
      LessFrom(a, b, k + 1);
      LessSame(Mark(k), s, t);
      LessPad(Width(k), Field(a, k), [Mark(k)] + s, Field(b, k), [Mark(k)] + t);
    }
  }

  // ----- The calendar is monotone

  lemma {:induction false} MonthsAddUp(y: int, m: int, n: int)
    requires 1 <= m < n <= 13
    ensures DaysBeforeMonth(y, m) + DaysInMonth(y, m) <= DaysBeforeMonth(y, n)
    decreases n
  {
    if m + 1 < n { MonthsAddUp(y, m, n - 1); }
  }

  lemma MonthsOfYear(y: int)
    ensures DaysBeforeMonth(y, 13) == if Leap(y) then 366 else 365
  {
    assert DaysBeforeMonth(y, 4) == 62 + DaysInMonth(y, 2);
    assert DaysBeforeMonth(y, 7) == DaysBeforeMonth(y, 4) + 91;
    assert DaysBeforeMonth(y, 10) == DaysBeforeMonth(y, 7) + 92;
    assert DaysBeforeMonth(y, 13) == DaysBeforeMonth(y, 10) + 92;
  }

  lemma QuotientStep(y: int)
    ensures y / 4 == (y - 1) / 4 + (if y % 4 == 0 then 1 else 0)
    ensures y / 100 == (y - 1) / 100 + (if y % 100 == 0 then 1 else 0)
    ensures y / 400 == (y - 1) / 400 + (if y % 400 == 0 then 1 else 0)
  {
  }

  lemma CenturiesDivide(y: int)
    ensures y % 100 == 0 ==> y % 4 == 0
    ensures y % 400 == 0 ==> y % 100 == 0
  {
  }

  /** The day count year by year is the closed form of datetime, and a year is
      as long as its months. */
  lemma {:induction false} YearLength(y: int)
    requires 1 <= y
    ensures DaysBeforeYear(y) == 365 * (y - 1) + (y - 1) / 4 - (y - 1) / 100 + (y - 1) / 400
    ensures DaysBeforeYear(y + 1) == DaysBeforeYear(y) + DaysBeforeMonth(y, 13)
    decreases y
  {
    MonthsOfYear(y);
    hide DaysBeforeMonth;
    if y > 1 {
      YearLength(y - 1);
      QuotientStep(y - 1);
      CenturiesDivide(y - 1);
    }
  }

  lemma {:induction false} YearsAddUp(y: int, z: int)
    requires 1 <= y < z
    ensures DaysBeforeYear(y) + DaysBeforeMonth(y, 13) <= DaysBeforeYear(z)
    decreases z - y
  {
    YearLength(y);
    if y + 1 < z {
      YearsAddUp(y + 1, z);
      YearLength(y + 1);
    }
  }

  lemma DateOrder(a: Utc, b: Utc)
    requires Valid(a) && Valid(b)
    requires a.year < b.year || (a.year == b.year && a.month < b.month)
    ensures Ordinal(a.year, a.month, a.day) < Ordinal(b.year, b.month, b.day)
  {
    if a.year < b.year {
      YearsAddUp(a.year, b.year);
      MonthsAddUp(a.year, a.month, 13);
      if b.month > 1 { MonthsAddUp(b.year, 1, b.month); }
    } else {
      MonthsAddUp(a.year, a.month, b.month);
    }
  }

  lemma InstantFields(t: Utc)
    requires Valid(t)
    ensures var days := Ordinal(t.year, t.month, t.day);
            Instant(t) == ((((days * 24 + t.hour) * 60 + t.minute) * 60) + t.second) * 1_000_000 + t.micro
  {
    hide Ordinal;
    assert Elapsed(t, 3) == Ordinal(t.year, t.month, t.day) * 24 + t.hour;
    assert Elapsed(t, 5) == Elapsed(t, 4) * 60 + t.second;
  }

  lemma FieldsBefore(a: Utc, b: Utc)
    requires Valid(a) && Valid(b) && BeforeFrom(a, b, 0)
    ensures Instant(a) < Instant(b)
  {
    InstantFields(a);
    InstantFields(b);
    hide Instant;
    hide Ordinal;
    if a.year < b.year || (a.year == b.year && a.month < b.month) {
      DateOrder(a, b);
    } else {
      assert BeforeFrom(a, b, 2);
      assert a.day == b.day ==> BeforeFrom(a, b, 3);
      assert a.day == b.day && a.hour == b.hour ==> BeforeFrom(a, b, 4);
    }
  }

  lemma FieldsEqual(a: Utc, b: Utc)
    requires !BeforeFrom(a, b, 0) && !BeforeFrom(b, a, 0)
    ensures a == b
  {
  }

  // ----- Main result

  /** Comparing two stored timestamps as text compares the instants they name,
      for every pair of datetimes, with or without a fraction. */
  lemma IsoOrder(a: Utc, b: Utc)
    requires Valid(a) && Valid(b)
    ensures Less(Iso(a), Iso(b)) <==> Instant(a) < Instant(b)
    ensures Iso(a) == Iso(b) <==> Instant(a) == Instant(b)
    ensures Instant(a) == Instant(b) <==> a == b
  {
    LessFrom(a, b, 0);
    LessFrom(b, a, 0);
    LessTotal(Iso(a), Iso(b));
    if BeforeFrom(a, b, 0) {
      FieldsBefore(a, b);
    } else if BeforeFrom(b, a, 0) {
      FieldsBefore(b, a);
    } else {
      FieldsEqual(a, b);
    }
  }

  // ----- Adding a lifetime

  /** The last datetime there is. */
  const LAST: Utc := Utc(9999, 12, 31, 23, 59, 59, 999_999)

  function Tomorrow(t: Utc): Utc {
    if t.day < DaysInMonth(t.year, t.month) then Utc(t.year, t.month, t.day + 1, 0, 0, 0, 0)
    else if t.month < 12 then Utc(t.year, t.month + 1, 1, 0, 0, 0, 0)
    else Utc(t.year + 1, 1, 1, 0, 0, 0, 0)
  }

  /** One microsecond later. */
  function Next(t: Utc): Utc {
    if t.micro < 999_999 then t.(micro := t.micro + 1)
    else if t.second < 59 then t.(second := t.second + 1, micro := 0)
    else if t.minute < 59 then t.(minute := t.minute + 1, second := 0, micro := 0)
    else if t.hour < 23 then t.(hour := t.hour + 1, minute := 0, second := 0, micro := 0)
    else Tomorrow(t)
  }

  lemma TomorrowIsNext(t: Utc)
    requires Valid(t) && (t.year < 9999 || t.month < 12 || t.day < 31)
    ensures Valid(Tomorrow(t))
    ensures Ordinal(Tomorrow(t).year, Tomorrow(t).month, Tomorrow(t).day) == Ordinal(t.year, t.month, t.day) + 1
  {
    if t.day == DaysInMonth(t.year, t.month) && t.month == 12 {
      YearLength(t.year);
      var y := t.year;
      assert DaysBeforeMonth(y, 13) == DaysBeforeMonth(y, 12) + 31;
      assert DaysBeforeMonth(y + 1, 1) == 0;
    }
  }

  lemma NextIsLater(t: Utc)
    requires Valid(t) && t != LAST
    ensures Valid(Next(t)) && Instant(Next(t)) == Instant(t) + 1
  {
    if t.micro == 999_999 && t.second == 59 && t.minute == 59 && t.hour == 23 { TomorrowIsNext(t); }
    InstantFields(t);
    InstantFields(Next(t));
    hide Ordinal;
    hide Instant;
    hide Tomorrow;
    hide DaysInMonth;
  }

  /** A datetime plus a lifetime is a datetime, and only one, as long as it does
      not pass the last: so an expiry is the instant it is meant to be. */
  lemma {:induction false} Plus(t: Utc, lifetime: nat) returns (expiry: Utc)
    requires Valid(t) && Instant(t) + lifetime <= Instant(LAST)
    ensures Valid(expiry) && Instant(expiry) == Instant(t) + lifetime
    ensures forall u :: Valid(u) && Instant(u) == Instant(t) + lifetime ==> u == expiry
    decreases lifetime
  {
    if lifetime == 0 {
      expiry := t;
    } else {
      NextIsLater(t);
      expiry := Plus(Next(t), lifetime - 1);
    }
    forall u | Valid(u) && Instant(u) == Instant(t) + lifetime ensures u == expiry {
      IsoOrder(u, expiry);
    }
  }
}
