/** The Gregorian calendar the Tempo rules are written on: real dates, their day numbers
    (1 is 1 January of year 1, a Monday), the next and the previous day, and weekdays. */
module Calendar {
  import opened Arithmetic

  datatype Date = Date(year: int, month: int, day: int)

  /** Saturday and Sunday as numbered by Weekday, Monday being 0. */
  const SATURDAY := 5
  const SUNDAY := 6

  predicate IsLeap(year: int) {
    year % 4 == 0 && (year % 100 != 0 || year % 400 == 0)
  }

  function YearLength(year: int): (n: int) {
    if IsLeap(year) then 366 else 365
  }

  function DaysInMonth(year: int, month: int): (n: int)
    requires 1 <= month <= 12
  {
    if month == 2 then (if IsLeap(year) then 29 else 28)
    else if month == 4 || month == 6 || month == 9 || month == 11 then 30
    else 31
  }

  predicate IsReal(d: Date) {
    1 <= d.month <= 12 && 1 <= d.day <= DaysInMonth(d.year, d.month)
  }

  type NaiveDate = d: Date | IsReal(d) witness Date(2026, 9, 1)

  /** The days from 1 January of year 1 to 1 January of `year` (negative before year 1). */
  function DaysBeforeYear(year: int): int
    decreases if year >= 1 then year else 2 - year
  {
    if year == 1 then 0
    else if year > 1 then DaysBeforeYear(year - 1) + YearLength(year - 1)
    else DaysBeforeYear(year + 1) - YearLength(year)
  }

  function DaysBeforeMonth(year: int, month: int): int
    requires 1 <= month <= 12
  {
    if month == 1 then 0 else DaysBeforeMonth(year, month - 1) + DaysInMonth(year, month - 1)
  }

  function DayNumber(d: NaiveDate): int {
    DaysBeforeYear(d.year) + DaysBeforeMonth(d.year, d.month) + d.day
  }

  /** Monday is 0, Sunday is 6. */
  function Weekday(d: NaiveDate): (w: int)
    ensures 0 <= w <= 6
  {
    (DayNumber(d) - 1) % 7
  }

  function Next(d: NaiveDate): NaiveDate {
    if d.day < DaysInMonth(d.year, d.month) then Date(d.year, d.month, d.day + 1)
    else if d.month < 12 then Date(d.year, d.month + 1, 1)
    else Date(d.year + 1, 1, 1)
  }

  function Previous(d: NaiveDate): NaiveDate {
    if d.day > 1 then Date(d.year, d.month, d.day - 1)
    else if d.month > 1 then Date(d.year, d.month - 1, DaysInMonth(d.year, d.month - 1))
    else Date(d.year - 1, 12, 31)
  }

  /** `d` plus `n` days. */
  function Plus(d: NaiveDate, n: nat): NaiveDate
    decreases n
  {
    if n == 0 then d else Plus(Next(d), n - 1)
  }

  // ---------- what the definitions above amount to ----------

  lemma YearsFollow(year: int)
    ensures DaysBeforeYear(year + 1) == DaysBeforeYear(year) + YearLength(year)
  {
  }

  /** A multiple of `k` is met every `k` steps. */
  lemma QuotientSteps(y: int, k: int)
    requires k > 1
    ensures (y + 1) / k == y / k + if (y + 1) % k == 0 then 1 else 0
  {
    var q, r := y / k, y % k;
    assert y == k * q + r;
    if r == k - 1 {
      assert y + 1 == k * (q + 1);
      Quotient(y + 1, k, q + 1, 0);
    } else {
      Quotient(y + 1, k, q, r + 1);
    }
  }

  /** The leap-year count in closed form. */
  lemma {:induction false} DaysBeforeYearClosed(year: int)
    ensures var y := year - 1; DaysBeforeYear(year) == 365 * y + y / 4 - y / 100 + y / 400
    decreases if year >= 1 then year else 2 - year
  {
    if year > 1 {
      DaysBeforeYearClosed(year - 1);
      LeapStep(year - 1);
    } else if year < 1 {
      DaysBeforeYearClosed(year + 1);
      LeapStep(year);
    }
  }

  lemma LeapStep(year: int)
    ensures year / 4 - year / 100 + year / 400
         == (year - 1) / 4 - (year - 1) / 100 + (year - 1) / 400 + if IsLeap(year) then 1 else 0
  {
    QuotientSteps(year - 1, 4);
    QuotientSteps(year - 1, 100);
    QuotientSteps(year - 1, 400);
    assert year % 400 == 0 ==> year % 100 == 0 by {
      if year % 400 == 0 {
        Quotient(year, 100, 4 * (year / 400), 0);
      }
    }
    assert year % 100 == 0 ==> year % 4 == 0 by {
      if year % 100 == 0 {
        Quotient(year, 4, 25 * (year / 100), 0);
      }
    }
  }

  /** The month table with its sums worked out. */
  lemma MonthTable(year: int)
    ensures DaysBeforeMonth(year, 1) == 0 && DaysBeforeMonth(year, 2) == 31
    ensures var f := if IsLeap(year) then 60 else 59;
            && DaysBeforeMonth(year, 3) == f && DaysBeforeMonth(year, 4) == f + 31
            && DaysBeforeMonth(year, 5) == f + 61 && DaysBeforeMonth(year, 6) == f + 92
            && DaysBeforeMonth(year, 7) == f + 122 && DaysBeforeMonth(year, 8) == f + 153
            && DaysBeforeMonth(year, 9) == f + 184 && DaysBeforeMonth(year, 10) == f + 214
            && DaysBeforeMonth(year, 11) == f + 245 && DaysBeforeMonth(year, 12) == f + 275
  {
    assert DaysBeforeMonth(year, 2) == 31;
    assert DaysBeforeMonth(year, 3) == if IsLeap(year) then 60 else 59;
    assert DaysBeforeMonth(year, 5) == DaysBeforeMonth(year, 3) + 61;
    assert DaysBeforeMonth(year, 7) == DaysBeforeMonth(year, 5) + 61;
    assert DaysBeforeMonth(year, 9) == DaysBeforeMonth(year, 7) + 62;
    assert DaysBeforeMonth(year, 11) == DaysBeforeMonth(year, 9) + 61;
  }

  /** The next day is one day later, whatever month or year ends in between. */
  lemma NextIsOneDayLater(d: NaiveDate)
    ensures DayNumber(Next(d)) == DayNumber(d) + 1
    ensures Weekday(Next(d)) == (Weekday(d) + 1) % 7
  {
    MonthTable(d.year);
    YearsFollow(d.year);
    MonthTable(d.year + 1);
  }

  lemma PreviousUndoesNext(d: NaiveDate)
    ensures Previous(Next(d)) == d && Next(Previous(d)) == d
  {
  }

  lemma YearsGrow(a: int, b: int)
    requires a < b
    ensures DaysBeforeYear(a) + YearLength(a) <= DaysBeforeYear(b)
    decreases b - a
  {
    YearsFollow(a);
    if a + 1 < b {
      YearsGrow(a + 1, b);
    }
  }

  lemma DayInItsYear(d: NaiveDate)
    ensures 1 <= d.day + DaysBeforeMonth(d.year, d.month) <= YearLength(d.year)
  {
    MonthTable(d.year);
  }

  /** Calendar order, read off the three fields, is the order of the day numbers. */
  predicate Earlier(a: NaiveDate, b: NaiveDate) {
    a.year < b.year || (a.year == b.year && (a.month < b.month || (a.month == b.month && a.day < b.day)))
  }

  lemma OrderIsTheDayNumbers(a: NaiveDate, b: NaiveDate)
    ensures Earlier(a, b) <==> DayNumber(a) < DayNumber(b)
    ensures a == b <==> DayNumber(a) == DayNumber(b)
  {
    DayInItsYear(a);
    DayInItsYear(b);
    if a.year < b.year {
      YearsGrow(a.year, b.year);
    } else if b.year < a.year {
      YearsGrow(b.year, a.year);
    } else {
      MonthTable(a.year);
    }
  }

  lemma {:induction false} PlusAdds(d: NaiveDate, n: nat)
    decreases n
    ensures DayNumber(Plus(d, n)) == DayNumber(d) + n
  {
    if n > 0 {
      NextIsOneDayLater(d);
      PlusAdds(Next(d), n - 1);
    }
  }

  lemma {:induction false} PlusNext(d: NaiveDate, n: nat)
    decreases n
    ensures Plus(d, n + 1) == Next(Plus(d, n)) == Plus(Next(d), n)
  {
    if n > 0 {
      PlusNext(Next(d), n - 1);
    }
  }

  /** One day on: a day later, a day nearer to `other`, and past no day in between. */
  lemma DayAfter(d: NaiveDate, other: NaiveDate)
    ensures DayNumber(Next(d)) == DayNumber(d) + 1
    ensures Earlier(d, other) <==> DayNumber(d) < DayNumber(other)
    ensures Earlier(other, d) <==> DayNumber(other) < DayNumber(d)
    ensures d == other || Earlier(d, other) || Earlier(other, d)
    ensures Earlier(d, other) <==> !Earlier(other, Next(d))
  {
    NextIsOneDayLater(d);
    OrderIsTheDayNumbers(d, other);
    OrderIsTheDayNumbers(other, d);
    OrderIsTheDayNumbers(other, Next(d));
  }
}
