/**
 Dates. The code stores and compares them as `YYYY-MM-DD` strings, the full-date of section 5.6 of
 RFC 3339; the other modules use day numbers. Here the two orders are shown to be the same.
 */
module Calendar {
  datatype RawDate = RawDate(year: nat, month: nat, day: nat)

  predicate LeapYear(y: nat) {
    y % 4 == 0 && (y % 100 != 0 || y % 400 == 0)
  }

  function DaysInMonth(y: nat, m: nat): nat {
    if m == 2 then (if LeapYear(y) then 29 else 28)
    else if m in {4, 6, 9, 11} then 30
    else 31
  }

  predicate ValidDate(d: RawDate) {
    d.year <= 9999 && 1 <= d.month <= 12 && 1 <= d.day <= DaysInMonth(d.year, d.month)
  }

  type Date = d: RawDate | ValidDate(d) witness RawDate(1970, 1, 1)

  function DaysBeforeMonth(y: nat, m: nat): nat {
    if m <= 1 then 0 else DaysBeforeMonth(y, m - 1) + DaysInMonth(y, m - 1)
  }

  function DaysBeforeYear(y: nat): nat {
    if y == 0 then 0 else DaysBeforeYear(y - 1) + (if LeapYear(y - 1) then 366 else 365)
  }

  function DayNumber(d: Date): nat {
    DaysBeforeYear(d.year) + DaysBeforeMonth(d.year, d.month) + d.day
  }

  // ---------- The text ----------

  function Digit(n: nat): char
    requires n < 10
  {
    ('0' as int + n) as char
  }

  function Padded(n: nat, width: nat): string {
    if width == 0 then "" else Padded(n / 10, width - 1) + [Digit(n % 10)]
  }

  function FullDate(d: Date): string {
    Padded(d.year, 4) + ("-" + (Padded(d.month, 2) + ("-" + Padded(d.day, 2))))
  }

  /** Byte order on strings, as Go's `<` and SQLite's BINARY collation have it. */
  predicate Before(a: string, b: string) {
    b != [] && (a == [] || a[0] < b[0] || (a[0] == b[0] && Before(a[1..], b[1..])))
  }

  // ---------- Calendar order ----------

  lemma {:induction false} MonthsFill(y: nat, m: nat)
    requires 1 <= m <= 13
    ensures m == 13 ==> DaysBeforeMonth(y, m) == if LeapYear(y) then 366 else 365
    ensures forall k :: 1 <= k < m ==> DaysBeforeMonth(y, k) + DaysInMonth(y, k) <= DaysBeforeMonth(y, m)
  {
    if m > 1 {
      MonthsFill(y, m - 1);
    }
    if m == 13 {
      assert DaysBeforeMonth(y, 13) == DaysBeforeMonth(y, 10) + 31 + 30 + 31;
      assert DaysBeforeMonth(y, 10) == DaysBeforeMonth(y, 7) + 31 + 31 + 30;
      assert DaysBeforeMonth(y, 7) == DaysBeforeMonth(y, 4) + 30 + 31 + 30;
      assert DaysBeforeMonth(y, 4) == 31 + DaysInMonth(y, 2) + 31;
    }
  }

  lemma {:induction false} YearsGrow(x: nat, y: nat)
    requires x < y
    ensures DaysBeforeYear(x) + (if LeapYear(x) then 366 else 365) <= DaysBeforeYear(y)
  {
    if x < y - 1 {
      YearsGrow(x, y - 1);
    }
  }

  predicate Earlier(a: Date, b: Date) {
    a.year < b.year || (a.year == b.year && (a.month < b.month || (a.month == b.month && a.day < b.day)))
  }

  lemma EarlierHasSmallerNumber(a: Date, b: Date)
    requires Earlier(a, b)
    ensures DayNumber(a) < DayNumber(b)
  {
    MonthsFill(a.year, 13);
    if a.year < b.year {
      YearsGrow(a.year, b.year);
    } else if a.month < b.month {
      MonthsFill(a.year, b.month);
    }
  }

  // ---------- Text order ----------

  lemma {:induction false} BeforeConcat(a: string, b: string, c: string, d: string)
    requires |a| == |b|
    ensures Before(a + c, b + d) <==> Before(a, b) || (a == b && Before(c, d))
  {
    if a == [] {
      assert a + c == c && b + d == d;
    } else {
      assert (a + c)[1..] == a[1..] + c && (b + d)[1..] == b[1..] + d;
      BeforeConcat(a[1..], b[1..], c, d);
    }
  }

  lemma {:induction false} PaddedOrder(n: nat, m: nat, width: nat, bound: nat)
    requires bound == Pow10(width) && n < bound && m < bound
    ensures |Padded(n, width)| == |Padded(m, width)| == width
    ensures Before(Padded(n, width), Padded(m, width)) <==> n < m
    ensures Padded(n, width) == Padded(m, width) <==> n == m
  {
    if width > 0 {
      PaddedOrder(n / 10, m / 10, width - 1, bound / 10);
      BeforeConcat(Padded(n / 10, width - 1), Padded(m / 10, width - 1), [Digit(n % 10)], [Digit(m % 10)]);
      assert Padded(n, width)[..width - 1] == Padded(n / 10, width - 1);
      assert Padded(m, width)[..width - 1] == Padded(m / 10, width - 1);
      assert Padded(n, width)[width - 1] == Digit(n % 10) && Padded(m, width)[width - 1] == Digit(m % 10);
    }
  }

  function Pow10(n: nat): nat {
    if n == 0 then 1 else 10 * Pow10(n - 1)
  }

  /** A fixed-width field followed by a dash decides the order unless it is equal. */
  lemma FieldOrder(n: nat, m: nat, width: nat, bound: nat, c: string, d: string)
    requires bound == Pow10(width) && n < bound && m < bound
    ensures Before(Padded(n, width) + ("-" + c), Padded(m, width) + ("-" + d)) <==> n < m || (n == m && Before(c, d))
    ensures Padded(n, width) + ("-" + c) == Padded(m, width) + ("-" + d) <==> n == m && c == d
  {
    PaddedOrder(n, m, width, bound);
    BeforeConcat(Padded(n, width), Padded(m, width), "-" + c, "-" + d);
    BeforeConcat("-", "-", c, d);
    assert !Before("-", "-");
    var x, y := Padded(n, width) + ("-" + c), Padded(m, width) + ("-" + d);
    assert x[..width] == Padded(n, width) && y[..width] == Padded(m, width);
    assert x[width + 1..] == c && y[width + 1..] == d;
  }

  /** The order of the strings is the order of the days, and equal strings are equal days. */
  lemma TextOrderIsDayOrder(a: Date, b: Date)
    ensures Before(FullDate(a), FullDate(b)) <==> DayNumber(a) < DayNumber(b)
    ensures FullDate(a) == FullDate(b) <==> DayNumber(a) == DayNumber(b)
    ensures FullDate(a) == FullDate(b) <==> a == b
  {
    assert Pow10(2) == 100 && Pow10(4) == 100 * Pow10(2);
    PaddedOrder(a.day, b.day, 2, 100);
    FieldOrder(a.month, b.month, 2, 100, Padded(a.day, 2), Padded(b.day, 2));
    FieldOrder(a.year, b.year, 4, 10000,
               Padded(a.month, 2) + ("-" + Padded(a.day, 2)), Padded(b.month, 2) + ("-" + Padded(b.day, 2)));
    if Earlier(a, b) {
      EarlierHasSmallerNumber(a, b);
    } else if Earlier(b, a) {
      EarlierHasSmallerNumber(b, a);
    }
  }

  /** `AddDate(0, 0, 1)`: the day after, rolling over months and years. */
  function NextDate(d: Date): RawDate {
    if d.day < DaysInMonth(d.year, d.month) then d.(day := d.day + 1)
    else if d.month < 12 then RawDate(d.year, d.month + 1, 1)
    else RawDate(d.year + 1, 1, 1)
  }

  /** Stepping a date is counting day numbers, up to the last year the text can hold. */
  lemma NextDateIsNextNumber(d: Date)
    requires d != RawDate(9999, 12, 31)
    ensures ValidDate(NextDate(d)) && DayNumber(NextDate(d)) == DayNumber(d) + 1
  {
    var y, m := d.year, d.month;
    if d.day == DaysInMonth(y, m) {
      if m < 12 {
        assert DaysBeforeMonth(y, m + 1) == DaysBeforeMonth(y, m) + DaysInMonth(y, m);
      } else {
        MonthsFill(y, 13);
        var n := m + 1;
        assert DaysBeforeMonth(y, n) == DaysBeforeMonth(y, n - 1) + DaysInMonth(y, n - 1);
      }
    }
  }
}
