/** The calendar meets the season's needs: the rules worked out for the days of a season count
    what is left, and every winter and summer hold more days than the quotas ask for. */
module TempoYear {
  import opened Calendar
  import opened Easter
  import opened TempoRules
  import opened TempoSeason

  predicate InSeason(startYear: int, d: NaiveDate) {
    (d.year == startYear && d.month >= 9) || (d.year == startYear + 1 && d.month <= 8)
  }

  function EndOfMarch(startYear: int): NaiveDate { Date(startYear + 1, 3, 31) }

  function FirstOfApril(startYear: int): NaiveDate { Date(startYear + 1, 4, 1) }

  /** The days from `d` to the end of its season. */
  function DaysToTheEnd(startYear: int, d: NaiveDate): int {
    DayNumber(LastDay(startYear)) + 1 - DayNumber(d)
  }

  lemma NextInSeason(startYear: int, d: NaiveDate)
    requires InSeason(startYear, d)
    ensures DaysToTheEnd(startYear, Next(d)) == DaysToTheEnd(startYear, d) - 1 >= 0
    ensures if d == LastDay(startYear) then DaysToTheEnd(startYear, d) == 1
            else InSeason(startYear, Next(d)) && DaysToTheEnd(startYear, d) > 1
  {
    hide DayNumber;
    DayAfter(d, LastDay(startYear));
  }

  /** The rules of the days from `d` to the end of its season. */
  function RestOfSeason(startYear: int, d: NaiveDate): (rules: seq<DayRules>)
    requires startYear >= 0 && InSeason(startYear, d)
    decreases DaysToTheEnd(startYear, d)
  {
    if d == LastDay(startYear) then [RulesOf(d)]
    else
      NextInSeason(startYear, d);
      [RulesOf(d)] + RestOfSeason(startYear, Next(d))
  }

  function SeasonRules(startYear: int): (rules: seq<DayRules>)
    requires startYear >= 0
  {
    RestOfSeason(startYear, FirstDay(startYear))
  }

  /** Each day of the list is the day it should be, with its rules. */
  lemma {:induction false} RestOfSeasonAt(startYear: int, d: NaiveDate, j: nat)
    requires startYear >= 0 && InSeason(startYear, d) && j < |RestOfSeason(startYear, d)|
    ensures Plus(d, j).year >= 0 && RestOfSeason(startYear, d)[j] == RulesOf(Plus(d, j))
    decreases j
  {
    hide RulesOf, DayNumber;
    if j > 0 {
      NextInSeason(startYear, d);
      RestOfSeasonAt(startYear, Next(d), j - 1);
    }
  }

  lemma {:induction false} RestOfSeasonLength(startYear: int, d: NaiveDate)
    requires startYear >= 0 && InSeason(startYear, d)
    ensures |RestOfSeason(startYear, d)| == DaysToTheEnd(startYear, d)
    decreases DaysToTheEnd(startYear, d)
  {
    hide RulesOf, DayNumber;
    NextInSeason(startYear, d);
    if d != LastDay(startYear) {
      RestOfSeasonLength(startYear, Next(d));
    }
  }

  // ---------- the rules count the days ----------

  lemma {:induction false} NoRedFromApril(startYear: int, d: NaiveDate)
    requires startYear >= 0 && InSeason(startYear, d) && 4 <= d.month <= 8
    ensures RedDays(RestOfSeason(startYear, d)) == 0
    decreases DaysToTheEnd(startYear, d)
  {
    hide DayNumber, IsHoliday, DaysLeft, TempoDay;
    NextInSeason(startYear, d);
    if d != LastDay(startYear) {
      NoRedFromApril(startYear, Next(d));
    }
  }

  /** In a season's list of days, the red-allowed days to the end of March and the
      white-allowed ones to the end of August are those of the list. */
  lemma {:induction false} ListCountsTheDays(startYear: int, d: NaiveDate)
    requires startYear >= 0 && InSeason(startYear, d)
    ensures var rules := RestOfSeason(startYear, d);
            RedDays(rules) == DaysLeft(Red, d, EndOfMarch(startYear)) &&
            WhiteDays(rules) == DaysLeft(White, d, LastDay(startYear))
    decreases DaysToTheEnd(startYear, d)
  {
    hide DayNumber, IsHoliday, TempoDay, WhiteAllowed;
    NextInSeason(startYear, d);
    if d != LastDay(startYear) {
      ListCountsTheDays(startYear, Next(d));
      if 4 <= d.month <= 8 {
        NoRedFromApril(startYear, d);
      }
    }
  }

  /** The season's list of days is what the season theorem asks for. */
  lemma {:induction false} ListEndsTheSeason(startYear: int, d: NaiveDate)
    requires startYear >= 0 && InSeason(startYear, d)
    ensures EndOfSeason(RestOfSeason(startYear, d), Weekday(d))
    decreases DaysToTheEnd(startYear, d)
  {
    hide DayNumber, Weekday, RulesOf, IsHoliday, DaysLeft, Next;
    NextInSeason(startYear, d);
    ListCountsTheDays(startYear, d);
    NextIsOneDayLater(d);
    RulesCount(startYear, d);
    if d != LastDay(startYear) {
      ListEndsTheSeason(startYear, Next(d));
    }
  }

  /** What a season's day may take and what its rules count. */
  lemma RulesCount(startYear: int, d: NaiveDate)
    requires startYear >= 0 && InSeason(startYear, d)
    ensures var r := RulesOf(d);
            && (r.redOk ==> Weekday(d) < 5 && r.whiteOk && r.redLeft == DaysLeft(Red, d, EndOfMarch(startYear)))
            && r.whiteLeft == DaysLeft(White, d, LastDay(startYear))
  {
    hide DayNumber, IsHoliday, DaysLeft, TempoDay;
  }

  // ---------- how much room there is ----------

  lemma {:induction false} RoomShrinks(color: Color, from: NaiveDate, to: NaiveDate, last: NaiveDate)
    requires from.year >= 0 && to.year >= 0 && !Earlier(to, from)
    ensures DaysLeft(color, from, last) >= DaysLeft(color, to, last)
    decreases DayNumber(to) - DayNumber(from)
  {
    hide DayNumber, Allowed;
    DayAfter(from, to);
    if from != to {
      RoomShrinks(color, Next(from), to, last);
    }
  }

  predicate MidWinter(d: NaiveDate) {
    (d.month == 1 && d.day >= 2) || d.month == 2 || (d.month == 3 && d.day <= 22)
  }

  /** From 2 January to 22 March no public holiday falls: Easter Monday is 23 March at the
      earliest. */
  lemma NoHolidayInMidWinter(d: NaiveDate)
    requires d.year >= 0 && MidWinter(d)
    ensures !IsHoliday(d)
  {
    var easter := EasterSunday(d.year);
    hide EasterSunday, DayNumber;
    EasterWindow(d.year);
    DayAfter(d, easter);
  }

  const MONDAY := 0
  const THURSDAY := 3

  /** Days after Easter Sunday on which a moving holiday falls. */
  predicate MovingHoliday(d: NaiveDate, easter: NaiveDate) {
    d == Plus(easter, 1) || d == Plus(easter, 39) || d == Plus(easter, 50)
  }

  /** The days that are holidays in every year. */
  predicate YearlyHoliday(d: NaiveDate) {
    match d.month
    case 1 => d.day == 1
    case 5 => d.day == 1 || d.day == 8
    case 7 => d.day == 14
    case 8 => d.day == 15
    case 11 => d.day == 1 || d.day == 11
    case 12 => d.day == 25
    case _ => false
  }

  /** The holidays are those, and three days counted from Easter. */
  lemma HolidaysOfAYear(d: NaiveDate)
    requires d.year >= 0
    ensures IsHoliday(d) <==> YearlyHoliday(d) || MovingHoliday(d, EasterSunday(d.year))
  {
    hide EasterSunday, DayNumber, Plus;
    var easter: NaiveDate := EasterSunday(d.year);
    ADayOfItsNumber(d, easter, 1);
    ADayOfItsNumber(d, easter, 39);
    ADayOfItsNumber(d, easter, 50);
  }

  lemma ADayOfItsNumber(d: NaiveDate, from: NaiveDate, n: nat)
    ensures d == Plus(from, n) <==> DayNumber(d) == DayNumber(from) + n
    ensures Weekday(Plus(from, n)) == (Weekday(from) + n) % 7
  {
    PlusAdds(from, n);
    hide DayNumber, Plus;
    DayAfter(d, Plus(from, n));
  }

  lemma EasterIsLate(year: int)
    requires year >= 0
    ensures DayNumber(EasterSunday(year)) + 1 >= DayNumber(Date(year, 3, 23))
  {
    EasterWindow(year);
    hide EasterSunday, DayNumber;
    var first: NaiveDate := Date(year, 3, 22);
    DayAfter(first, EasterSunday(year));
  }

  /** They are a Monday, a Thursday and a Monday, none before 23 March. */
  lemma MovingHolidaysAreWeekdays(d: NaiveDate)
    requires d.year >= 0 && MovingHoliday(d, EasterSunday(d.year))
    ensures Weekday(d) == MONDAY || Weekday(d) == THURSDAY
    ensures DayNumber(d) >= DayNumber(Date(d.year, 3, 23))
  {
    hide EasterSunday, DayNumber, Plus, Weekday, IsReal, DaysInMonth, PaschalFullMoon;
    var easter: NaiveDate := EasterSunday(d.year);
    EasterIsLate(d.year);
    EasterIsTheSundayAfterTheFullMoon(d.year);
    var n := if d == Plus(easter, 1) then 1 else if d == Plus(easter, 39) then 39 else 50;
    ADayOfItsNumber(d, easter, n);
    assert (6 + 1) % 7 == 0 && (6 + 39) % 7 == 3 && (6 + 50) % 7 == 0;
  }

  /** A working day of mid-winter may be red. */
  lemma MidWinterDay(d: NaiveDate)
    requires d.year >= 0 && MidWinter(d)
    ensures DaysLeft(Red, d, Date(d.year, 3, 31))
         == (if Weekday(d) < SATURDAY then 1 else 0) + DaysLeft(Red, Next(d), Date(d.year, 3, 31))
  {
    hide DayNumber, IsHoliday, Weekday;
    NoHolidayInMidWinter(d);
  }

  function Slack(weekday: int): int { if weekday == SUNDAY then 5 else 2 * weekday }

  /** Seven times the red-allowed days lag at most ten behind five times the days: the slack
      depends on the weekday and pays for the weekend. */
  lemma {:induction false} MidWinterIsMostlyRedAllowed(d: NaiveDate)
    requires d.year >= 0 && MidWinter(d)
    ensures 7 * DaysLeft(Red, d, Date(d.year, 3, 31))
            >= 5 * (DayNumber(Date(d.year, 3, 22)) + 1 - DayNumber(d)) - Slack(Weekday(d))
    decreases DayNumber(Date(d.year, 3, 22)) + 1 - DayNumber(d)
  {
    hide DayNumber, DaysLeft, Weekday;
    MidWinterDay(d);
    NextIsOneDayLater(d);
    DayAfter(d, Date(d.year, 3, 22));
    if d.month != 3 || d.day != 22 {
      MidWinterIsMostlyRedAllowed(Next(d));
    }
  }

  /** The same count for the white days, Sunday being the only day lost. */
  lemma {:induction false} MostDaysAreWhiteAllowed(d: NaiveDate, last: NaiveDate)
    requires d.year >= 0 && DayNumber(d) <= DayNumber(last) + 1
    ensures 7 * DaysLeft(White, d, last) >= 6 * (DayNumber(last) + 1 - DayNumber(d)) - Weekday(d)
    decreases DayNumber(last) + 1 - DayNumber(d)
  {
    hide DayNumber, IsHoliday;
    NextIsOneDayLater(d);
    DayAfter(d, last);
    if DayNumber(d) <= DayNumber(last) {
      MostDaysAreWhiteAllowed(Next(d), last);
    }
  }

  /** The white-allowed days from April on come after every red-allowed one. */
  lemma {:induction false} RoomFromApril(startYear: int, d: NaiveDate)
    requires startYear >= 0 && InSeason(startYear, d) && !Earlier(FirstOfApril(startYear), d)
    ensures WhiteRoom(RestOfSeason(startYear, d))
            >= DaysLeft(White, FirstOfApril(startYear), LastDay(startYear))
    decreases DaysToTheEnd(startYear, d)
  {
    hide DayNumber, IsHoliday, TempoDay, Allowed;
    NextInSeason(startYear, d);
    DayAfter(d, FirstOfApril(startYear));
    ListCountsTheDays(startYear, d);
    if d == FirstOfApril(startYear) {
      NoRedFromApril(startYear, d);
    } else {
      RoomShrinks(White, d, FirstOfApril(startYear), LastDay(startYear));
      RoomFromApril(startYear, Next(d));
    }
  }

  /** A winter holds far more red-allowed days, and a summer far more white-allowed ones, than
      the quotas ask for. */
  lemma RoomInEverySeason(startYear: int)
    requires startYear >= 0
    ensures RedDays(SeasonRules(startYear)) >= 55
    ensures WhiteRoom(SeasonRules(startYear)) >= 131
  {
    var first, second: NaiveDate := FirstDay(startYear), Date(startYear + 1, 1, 2);
    var april: NaiveDate := FirstOfApril(startYear);
    MonthTable(startYear + 1);
    assert DayNumber(Date(startYear + 1, 3, 22)) + 1 - DayNumber(second) >= 79;
    assert DayNumber(LastDay(startYear)) + 1 - DayNumber(april) == 153;
    hide DaysBeforeMonth, DayNumber, DaysLeft, RedDays, WhiteRoom, RestOfSeason;
    ListCountsTheDays(startYear, first);
    RoomFromApril(startYear, first);
    MidWinterIsMostlyRedAllowed(second);
    RoomShrinks(Red, first, second, EndOfMarch(startYear));
    MostDaysAreWhiteAllowed(april, LastDay(startYear));
  }

  // ---------- the season theorem ----------

  /** What a season's colours owe the rules: the quotas to the day, the rest blue, every day
      legal, at most five reds in a row. */
  ghost predicate KeepsTheRules(startYear: int, quotas: Quotas, cs: seq<Color>)
    requires startYear >= 0
  {
    var rules := SeasonRules(startYear);
    && |cs| == |rules| == SeasonLength(startYear)
    && Count(cs, Red) == quotas.red
    && Count(cs, White) == quotas.white
    && Count(cs, Blue) == BlueDays(startYear, quotas)
    && (forall j :: 0 <= j < |cs| ==> DayMayTake(rules, cs, j))
    && NoSixReds(cs)
  }

  ghost predicate DayMayTake(rules: seq<DayRules>, cs: seq<Color>, j: nat)
    requires j < |cs| == |rules|
  {
    var d := rules[j].date;
    d.year >= 0 && d == Plus(rules[0].date, j) && Allowed(cs[j], d)
  }

  function SeasonColours(startYear: int, quotas: Quotas, xs: seq<real>): seq<Color>
    requires startYear >= 0 && |xs| == |SeasonRules(startYear)|
  {
    Colours(SeasonRules(startYear), StockValue(quotas.red, quotas.white, 0), xs)
  }

  /** For quotas the calendar has room for, every weather gives a season that keeps the rules. */
  lemma SeasonKeepsTheRules(startYear: int, quotas: Quotas, xs: seq<real>)
    requires startYear >= 0 && |xs| == |SeasonRules(startYear)|
    requires quotas.red <= RedDays(SeasonRules(startYear))
    requires quotas.white <= WhiteRoom(SeasonRules(startYear))
    ensures KeepsTheRules(startYear, quotas, SeasonColours(startYear, quotas, xs))
  {
    hide IsHoliday, DayNumber, DaysLeft, Weekday, Colours, Count, NoSixReds, RedDays, WhiteRoom;
    var first: NaiveDate := FirstDay(startYear);
    var rules, s := SeasonRules(startYear), StockValue(quotas.red, quotas.white, 0);
    SeasonCounts(startYear, quotas, xs);
    forall j | 0 <= j < |xs|
      ensures DayMayTake(rules, SeasonColours(startYear, quotas, xs), j)
    {
      RestOfSeasonAt(startYear, first, 0);
      RestOfSeasonAt(startYear, first, j);
      ColoursAreLegal(rules, s, xs, j);
      hide Plus;
    }
  }

  lemma SeasonCounts(startYear: int, quotas: Quotas, xs: seq<real>)
    requires startYear >= 0 && |xs| == |SeasonRules(startYear)|
    requires quotas.red <= RedDays(SeasonRules(startYear))
    requires quotas.white <= WhiteRoom(SeasonRules(startYear))
    ensures var cs := SeasonColours(startYear, quotas, xs);
            && |cs| == SeasonLength(startYear)
            && Count(cs, Red) == quotas.red && Count(cs, White) == quotas.white
            && Count(cs, Blue) == BlueDays(startYear, quotas)
            && NoSixReds(cs)
  {
    hide RulesOf, RestOfSeason, DayNumber, Decide, Colours, EndOfSeason, RedDays, WhiteRoom, Count, NoSixReds, Weekday;
    var first: NaiveDate := FirstDay(startYear);
    var rules, s := SeasonRules(startYear), StockValue(quotas.red, quotas.white, 0);
    ListEndsTheSeason(startYear, first);
    RestOfSeasonLength(startYear, first);
    RedsPlaced(rules, Weekday(first), s, xs);
    WhitesPlaced(rules, Weekday(first), s, xs);
    CountsAddUp(SeasonColours(startYear, quotas, xs));
    NeverSixReds(rules, s, xs);
  }

  /** A weather, as the net consumption of each of a season's days. */
  function Readings(startYear: int, weather: nat -> real): (xs: seq<real>)
    requires startYear >= 0
    ensures |xs| == |SeasonRules(startYear)|
  {
    seq(|SeasonRules(startYear)|, i requires i >= 0 => weather(i))
  }

  /** Every season, whatever the weather: 22 reds, 43 whites, the rest blue. */
  lemma EverySeasonPlacesItsDays(startYear: nat, weather: nat -> real)
    ensures KeepsTheRules(startYear, Quotas(22, 43), SeasonColours(startYear, CRE_QUOTAS, Readings(startYear, weather)))
  {
    hide SeasonRules, KeepsTheRules, SeasonColours, Readings;
    RoomInEverySeason(startYear);
    SeasonKeepsTheRules(startYear, CRE_QUOTAS, Readings(startYear, weather));
  }

  /** In every season and every weather, the cap of five in a row decides nothing. */
  lemma CapDecidesNoSeason(startYear: int, quotas: Quotas, xs: seq<real>)
    requires startYear >= 0 && |xs| == |SeasonRules(startYear)|
    ensures SeasonColours(startYear, quotas, xs)
         == ColoursWithoutCap(SeasonRules(startYear), StockValue(quotas.red, quotas.white, 0), xs)
  {
    hide RestOfSeason, EndOfSeason, Weekday, Colours, ColoursWithoutCap, DayNumber;
    ListEndsTheSeason(startYear, FirstDay(startYear));
    CapDecidesNothing(SeasonRules(startYear), Weekday(FirstDay(startYear)),
                      StockValue(quotas.red, quotas.white, 0), xs);
  }

  /** A season colder on every day has, by any of its days, had at least as many reds. */
  lemma ColderSeasonIsRedNoLater(startYear: int, quotas: Quotas, xs: seq<real>, ys: seq<real>, j: nat)
    requires startYear >= 0 && j <= |xs| == |ys| == |SeasonRules(startYear)|
    requires forall i :: 0 <= i < |xs| ==> xs[i] <= ys[i]
    ensures Count(SeasonColours(startYear, quotas, xs)[..j], Red)
         <= Count(SeasonColours(startYear, quotas, ys)[..j], Red)
  {
    hide RestOfSeason, EndOfSeason, Weekday, Colours, Count, DayNumber;
    ListEndsTheSeason(startYear, FirstDay(startYear));
    ColderSpendsRedsNoLater(SeasonRules(startYear), Weekday(FirstDay(startYear)),
                            StockValue(quotas.red, quotas.white, 0), xs, ys, j);
  }

  /** Any quotas are placed whole in every weather exactly when the winter has that many
      red-allowed days and the days after the last of them that many white-allowed ones. */
  lemma QuotasPlacedIffRoom(startYear: int, quotas: Quotas)
    requires startYear >= 0
    ensures (forall xs: seq<real> | |xs| == |SeasonRules(startYear)| ::
               KeepsTheRules(startYear, quotas, SeasonColours(startYear, quotas, xs)))
            <==> quotas.red <= RedDays(SeasonRules(startYear)) && quotas.white <= WhiteRoom(SeasonRules(startYear))
  {
    hide RestOfSeason, EndOfSeason, Weekday, Colours, Count, NoSixReds, DayNumber;
    var rules, s := SeasonRules(startYear), StockValue(quotas.red, quotas.white, 0);
    var w := Weekday(FirstDay(startYear));
    ListEndsTheSeason(startYear, FirstDay(startYear));
    if quotas.red <= RedDays(rules) && quotas.white <= WhiteRoom(rules) {
      forall xs: seq<real> | |xs| == |rules|
        ensures KeepsTheRules(startYear, quotas, SeasonColours(startYear, quotas, xs))
      {
        SeasonKeepsTheRules(startYear, quotas, xs);
      }
    } else if quotas.red > RedDays(rules) {
      RedsPlaced(rules, w, s, Mild(rules, s));
    } else {
      WhitesLost(rules, w, s, s);
    }
  }
}
