/** The moving holidays: Easter Sunday by the anonymous Gregorian computus, with integer
    division and remainder that truncate toward zero. */
module Easter {
  import opened Arithmetic
  import opened Calendar

  function TruncatedQuotient(a: int, b: int): int
    requires b > 0
  {
    if a >= 0 then a / b else -((-a) / b)
  }

  function TruncatedRemainder(a: int, b: int): int
    requires b > 0
  {
    if a >= 0 then a % b else -((-a) % b)
  }

  /** The epact term `h`: the full moon falls `h` days after 21 March. */
  function MoonTerm(year: int): int {
    var a, b := TruncatedRemainder(year, 19), TruncatedQuotient(year, 100);
    var d := TruncatedQuotient(b, 4);
    var f := TruncatedQuotient(b + 8, 25);
    var g := TruncatedQuotient(b - f + 1, 3);
    TruncatedRemainder(19 * a + b - d - g + 15, 30)
  }

  /** The weekday term `l`: the Sunday falls `l + 1` days after the full moon. */
  function SundayTerm(year: int, h: int): int {
    var b, c := TruncatedQuotient(year, 100), TruncatedRemainder(year, 100);
    var e := TruncatedRemainder(b, 4);
    var i, k := TruncatedQuotient(c, 4), TruncatedRemainder(c, 4);
    TruncatedRemainder(32 + 2 * e + 2 * i - h - k, 7)
  }

  /** The intermediate values: the year's place in the lunar cycle, the moon and Sunday terms,
      and the number of weeks to take back. */
  datatype Computus = Computus(a: int, h: int, l: int, m: int)

  function Compute(year: int): Computus {
    var a := TruncatedRemainder(year, 19);
    var h := MoonTerm(year);
    var l := SundayTerm(year, h);
    Computus(a, h, l, TruncatedQuotient(a + 11 * h + 22 * l, 451))
  }

  /** The date the computus names, real or not. */
  function EasterParts(year: int): Date {
    var c := Compute(year);
    var p := c.h + c.l - 7 * c.m + 114;
    Date(year, TruncatedQuotient(p, 31), TruncatedRemainder(p, 31) + 1)
  }

  /** Easter Sunday, for the years from 0 on. The truncating remainders of an earlier year may name
      no day at all (see NoEasterInYearMinusTwo). */
  function EasterSunday(year: int): NaiveDate
    requires year >= 0
  {
    ComputusRanges(year);
    EasterParts(year)
  }

  lemma NoEasterInYearMinusTwo()
    ensures EasterParts(-2) == Date(-2, 2, 31) && !IsReal(EasterParts(-2))
  {
    TermsOfYearMinusTwo();
    assert TruncatedQuotient(-233, 451) == 0;
    assert TruncatedQuotient(92, 31) == 2;
  }

  lemma TermsOfYearMinusTwo()
    ensures MoonTerm(-2) == -23 && SundayTerm(-2, -23) == 1
    ensures TruncatedRemainder(-2, 19) == -2
  {
    assert TruncatedQuotient(-2, 19) == 0 && TruncatedQuotient(-2, 100) == 0;
    assert TruncatedQuotient(-23, 30) == 0;
    assert TruncatedQuotient(-2, 4) == 0;
    assert TruncatedQuotient(57, 7) == 8;
  }

  // ---------- the computus is right ----------

  /** On natural numbers truncation is Euclidean division. */
  lemma Truncation(a: int, b: int)
    requires a >= 0 && b > 0
    ensures TruncatedQuotient(a, b) == a / b
    ensures TruncatedRemainder(a, b) == a % b
    ensures 0 <= TruncatedRemainder(a, b) < b
  {
  }

  lemma MoonTermRange(year: int)
    requires year >= 0
    ensures 0 <= MoonTerm(year) <= 29
  {
    Truncation(year, 19);
    Truncation(year, 100);
    var b := year / 100;
    Truncation(b, 4);
    Truncation(b + 8, 25);
    assert b - (b + 8) / 25 + 1 >= 0;
    Truncation(b - (b + 8) / 25 + 1, 3);
    Truncation(19 * (year % 19) + b - b / 4 - (b - (b + 8) / 25 + 1) / 3 + 15, 30);
  }

  lemma SundayTermByParts(year: int, d: int, e: int, i: int, k: int, h: int)
    requires year == 400 * d + 100 * e + 4 * i + k
    requires 0 <= e <= 3 && 0 <= k <= 3 && 0 <= 4 * i + k <= 99 && d >= 0 && 0 <= h <= 29
    ensures SundayTerm(year, h) == (32 + 2 * e + 2 * i - h - k) % 7
  {
    Quotient(year, 100, 4 * d + e, 4 * i + k);
    Quotient(4 * d + e, 4, d, e);
    Quotient(4 * i + k, 4, i, k);
    Truncation(year, 100);
    Truncation(4 * d + e, 4);
    Truncation(4 * i + k, 4);
    Truncation(32 + 2 * e + 2 * i - h - k, 7);
  }

  /** Where the values lie, and when the full moon's Sunday is taken back by a week. */
  lemma ComputusRanges(year: int)
    requires year >= 0
    ensures var c := Compute(year);
            && 0 <= c.a <= 18 && 0 <= c.h <= 29 && 0 <= c.l <= 6
            && c.m == (if c.l == 6 && (c.h == 29 || (c.h == 28 && c.a > 10)) then 1 else 0)
            && 0 <= c.h + c.l - 7 * c.m <= 34
    ensures IsReal(EasterParts(year))
  {
    var c := Compute(year);
    Truncation(year, 19);
    MoonTermRange(year);
    var r := year % 100;
    SundayTermByParts(year, year / 100 / 4, year / 100 % 4, r / 4, r % 4, c.h);
    Truncation(c.a + 11 * c.h + 22 * c.l, 451);
    Truncation(c.h + c.l - 7 * c.m + 114, 31);
  }

  /** The moon's age at the year's beginning by the Gregorian tables: it grows by eleven days a
      year within the cycle of nineteen, less the leap days three centuries in four skip, plus the
      eight days the moon gains in twenty-five centuries. */
  function Epact(year: int): int
    requires year >= 0
  {
    var century := year / 100;
    (8 + 11 * (year % 19) - (century - century / 4) + (8 * century + 13) / 25) % 30
  }

  /** The day of the year's paschal full moon: the first from 21 March on by the epact, a day earlier
      in the two cases the tables correct. */
  function PaschalFullMoon(year: int): int
    requires year >= 0
  {
    var epact := Epact(year);
    var late := epact == 24 || (epact == 25 && year % 19 > 10);
    DayNumber(Date(year, 3, 21)) + (23 - epact) % 30 - (if late then 1 else 0)
  }

  /** The lunar correction, computed in two divisions, is eight days in twenty-five centuries. */
  lemma LunarCorrection(century: nat)
    ensures (century - (century + 8) / 25 + 1) / 3 == (8 * century + 13) / 25
  {
    var q, r := century / 25, century % 25;
    var late := if r >= 17 then 1 else 0;
    Quotient(century + 8, 25, q + late, r + 8 - 25 * late);
    Quotient(8 * century + 13, 25, 8 * q + (8 * r + 13) / 25, (8 * r + 13) % 25);
    assert century - (q + late) + 1 == 3 * (8 * q) + (r - late + 1);
    assert (r - late + 1) / 3 == (8 * r + 13) / 25;
    Quotient(century - (q + late) + 1, 3, 8 * q + (r - late + 1) / 3, (r - late + 1) % 3);
  }

  /** The term computed is the one the epact gives. */
  lemma MoonTermIsTheEpact(year: int)
    requires year >= 0
    ensures MoonTerm(year) == (23 - Epact(year)) % 30
  {
    Truncation(year, 19);
    Truncation(year, 100);
    var a, b := year % 19, year / 100;
    Truncation(b, 4);
    Truncation(b + 8, 25);
    assert b - (b + 8) / 25 + 1 >= 0;
    Truncation(b - (b + 8) / 25 + 1, 3);
    LunarCorrection(b);
    var lunar := (8 * b + 13) / 25;
    Truncation(19 * a + b - b / 4 - lunar + 15, 30);
    Complement(8 + 11 * a - (b - b / 4) + lunar, 19 * a + b - b / 4 - lunar + 15, a);
  }

  /** The full moon by the values computed. */
  lemma FullMoonComputed(year: int)
    requires year >= 0
    ensures var c := Compute(year);
            PaschalFullMoon(year)
            == DayNumber(Date(year, 3, 21)) + c.h - (if c.h == 29 || (c.h == 28 && c.a > 10) then 1 else 0)
  {
    MoonTermIsTheEpact(year);
    Truncation(year, 19);
    var epact := Epact(year);
    hide MoonTerm, SundayTerm, DayNumber, Epact;
    assert 0 <= epact < 30 by { EpactRange(year); }
    assert epact == 24 <==> (23 - epact) % 30 == 29;
    assert epact == 25 <==> (23 - epact) % 30 == 28;
  }

  lemma EpactRange(year: int)
    requires year >= 0
    ensures 0 <= Epact(year) < 30
  {
  }

  lemma Complement(epact: int, term: int, a: int)
    requires term == 23 - epact + 30 * a
    ensures term % 30 == (23 - epact % 30) % 30
  {
  }

  /** The computed date is the first Sunday strictly after the paschal full moon. */
  lemma EasterIsTheSundayAfterTheFullMoon(year: int)
    requires year >= 0
    ensures Weekday(EasterSunday(year)) == SUNDAY
    ensures PaschalFullMoon(year) < DayNumber(EasterSunday(year)) <= PaschalFullMoon(year) + 7
  {
    hide PaschalFullMoon, Compute, EasterSunday, DayNumber;
    var c := Compute(year);
    ComputusRanges(year);
    FullMoonComputed(year);
    EasterOffset(year);
    SundayShift(year);
    WholeWeeks(DayNumber(Date(year, 3, 22)) + c.h + c.l - 1, c.m);
    TwentySecond(year);
  }

  /** Easter falls from 22 March to 25 April. */
  lemma EasterWindow(year: int)
    requires year >= 0
    ensures var d := EasterSunday(year);
            d.year == year && ((d.month == 3 && d.day >= 22) || (d.month == 4 && d.day <= 25))
  {
    var c := Compute(year);
    ComputusRanges(year);
    Truncation(c.h + c.l - 7 * c.m + 114, 31);
  }

  lemma EasterOffset(year: int)
    requires year >= 0
    ensures var c := Compute(year);
            DayNumber(EasterSunday(year)) == DayNumber(Date(year, 3, 22)) + c.h + c.l - 7 * c.m
  {
    var c := Compute(year);
    ComputusRanges(year);
    var offset := c.h + c.l - 7 * c.m;
    Truncation(offset + 114, 31);
    MarchThenApril(year, offset);
  }

  /** The 34 days after 22 March, as the computus splits them into a month and a day. */
  lemma MarchThenApril(year: int, offset: int)
    requires 0 <= offset <= 34
    ensures var d := Date(year, (offset + 114) / 31, (offset + 114) % 31 + 1);
            IsReal(d) && DayNumber(d) == DayNumber(Date(year, 3, 22)) + offset
  {
    MonthTable(year);
    if offset <= 9 {
      Quotient(offset + 114, 31, 3, offset + 21);
    } else {
      Quotient(offset + 114, 31, 4, offset - 10);
    }
  }

  lemma TwentySecond(year: int)
    ensures DayNumber(Date(year, 3, 22)) == DayNumber(Date(year, 3, 21)) + 1
  {
    MonthTable(year);
  }

  lemma WholeWeeks(n: int, weeks: int)
    requires n % 7 == 6
    ensures (n - 7 * weeks) % 7 == 6
  {
    Quotient(n - 7 * weeks, 7, n / 7 - weeks, 6);
  }

  lemma SundayShift(year: int)
    requires year >= 0
    ensures (DayNumber(Date(year, 3, 22)) + Compute(year).h + Compute(year).l - 1) % 7 == 6
  {
    var r := year % 100;
    MoonTermRange(year);
    SundayShiftByParts(year, year / 100 / 4, year / 100 % 4, r / 4, r % 4, MoonTerm(year));
  }

  lemma SundayShiftByParts(year: int, d: int, e: int, i: int, k: int, h: int)
    requires year == 400 * d + 100 * e + 4 * i + k
    requires 0 <= e <= 3 && 0 <= k <= 3 && 0 <= 4 * i + k <= 99 && d >= 0 && 0 <= h <= 29
    ensures (DayNumber(Date(year, 3, 22)) + h + SundayTerm(year, h) - 1) % 7 == 6
  {
    SundayTermByParts(year, d, e, i, k, h);
    FirstOfMarch(year, d, e, i, k);
    var q := (32 + 2 * e + 2 * i - h - k) / 7;
    var n := DayNumber(Date(year, 3, 22)) + h + SundayTerm(year, h) - 1;
    Quotient(n, 7, 20871 * d + 5218 * e + 209 * i + 52 * k - 37 - q, 6);
  }

  /** 22 March's day number by the four parts of the year. */
  lemma FirstOfMarch(year: int, d: int, e: int, i: int, k: int)
    requires year == 400 * d + 100 * e + 4 * i + k
    requires 0 <= e <= 3 && 0 <= k <= 3 && 0 <= 4 * i + k <= 99
    ensures DayNumber(Date(year, 3, 22)) == 365 * year + 24 * (4 * d + e) + i + d - 284
  {
    DaysBeforeYearClosed(year + 1);
    YearsFollow(year);
    MonthTable(year);
    Quotient(year, 4, 100 * d + 25 * e + i, k);
    Quotient(year, 100, 4 * d + e, 4 * i + k);
    Quotient(year, 400, d, 100 * e + 4 * i + k);
  }
}
