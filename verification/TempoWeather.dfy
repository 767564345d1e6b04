/** What the weather decides: the lines a day's net consumption is held against, and what freezing
    and mild seasons make of the quotas. Thresholds are in thousandths, days from 1 September. */
module TempoWeather {
  import opened Calendar
  import opened TempoRules
  import opened TempoSeason
  import opened TempoYear

  // ---------- one date ----------

  /** The year a date's season starts in, September opening it. */
  function Opens(d: NaiveDate): int { if d.month >= 9 then d.year else d.year - 1 }

  /** The date's place in its season: 1 on 1 September. */
  function Place(d: NaiveDate): int { DayNumber(d) - DayNumber(Date(Opens(d), 9, 1)) + 1 }

  /** More days left than days to place, in the colour that would be forced. */
  predicate Open(d: NaiveDate, s: StockValue)
    requires d.year >= 0
  {
    if RedAllowed(d) then s.red < DaysLeft(Red, d, Date(Opens(d) + 1, 3, 31))
    else s.white < DaysLeft(White, d, Date(Opens(d) + 1, 8, 31))
  }

  /** An open date is red exactly above the red line and white, when it is not red, exactly above
      the white one; both lines fall as the season goes and rise as the stock is spent. */
  lemma ADateFollowsTheCold(d: NaiveDate, x: real, s: StockValue)
    requires d.year >= 0 && Open(d, s)
    ensures var c := Decide(RulesOf(d), x, s);
            && (c == Red <==> && RedAllowed(d) && s.red > 0 && s.redRun < 5
                              && 1000.0 * x > (3150 - 10 * Place(d) - 31 * s.red) as real)
            && (c == White <==> && c != Red && WhiteAllowed(d) && s.white > 0
                                && 1000.0 * x > (4000 - 15 * Place(d) - 26 * (s.red + s.white)) as real)
  {
    hide DayNumber, DaysLeft, RedAllowed, WhiteAllowed;
  }

  /** A date that is not open takes the colour it must, whatever the weather. */
  lemma AClosedDateIsForced(d: NaiveDate, x: real, s: StockValue)
    requires d.year >= 0 && !Open(d, s)
    ensures var c := Decide(RulesOf(d), x, s);
            && (RedAllowed(d) && s.red > 0 && s.redRun < 5 ==> c == Red)
            && (!RedAllowed(d) && WhiteAllowed(d) && s.white > 0 ==> c == White)
  {
    hide DayNumber, DaysLeft, RedAllowed, WhiteAllowed;
  }

  /** A date may be red exactly when it is a weekday from 1 November to 31 March and no holiday. */
  lemma RedAllowedIff(d: NaiveDate)
    requires d.year >= 0
    ensures var first: NaiveDate, last: NaiveDate := Date(Opens(d), 11, 1), Date(Opens(d) + 1, 3, 31);
            RedAllowed(d) <==> && DayNumber(first) <= DayNumber(d) <= DayNumber(last)
                               && Weekday(d) <= 4 && !IsHoliday(d)
  {
    hide DayNumber, IsHoliday, Weekday;
    DayAfter(d, Date(Opens(d), 11, 1));
    DayAfter(d, Date(Opens(d) + 1, 3, 31));
  }

  // ---------- whole seasons ----------

  lemma DaysCountFromOne(startYear: int, j: nat)
    requires startYear >= 0 && j < |SeasonRules(startYear)|
    ensures SeasonRules(startYear)[j].day == (j + 1) as real
  {
    var first: NaiveDate := FirstDay(startYear);
    RestOfSeasonAt(startYear, first, j);
    RestOfSeasonLength(startYear, first);
    InItsSeason(startYear, j);
    PlusAdds(first, j);
    hide RestOfSeason, DayNumber, Plus, RedAllowed, WhiteAllowed, DaysLeft;
  }

  lemma {:induction false} InItsSeason(startYear: int, j: nat)
    requires startYear >= 0 && j < DaysToTheEnd(startYear, FirstDay(startYear))
    ensures InSeason(startYear, Plus(FirstDay(startYear), j))
    ensures DaysToTheEnd(startYear, Plus(FirstDay(startYear), j)) == DaysToTheEnd(startYear, FirstDay(startYear)) - j
  {
    hide DayNumber;
    if j > 0 {
      InItsSeason(startYear, j - 1);
      NextInSeason(startYear, Plus(FirstDay(startYear), j - 1));
      PlusNext(FirstDay(startYear), j - 1);
    }
  }

  /** A season whose every reading is above 4 is red on exactly the first red-allowed days, as many
      as the quota, and white on exactly the first white-allowed days red leaves. */
  lemma FreezingSeasonTakesTheFirstDays(startYear: int, quotas: Quotas, xs: seq<real>, j: nat)
    requires startYear >= 0 && j < |xs| == |SeasonRules(startYear)| && forall i :: 0 <= i < |xs| ==> xs[i] > 4.0
    ensures var c, rules := SeasonColours(startYear, quotas, xs)[j], SeasonRules(startYear);
            var redsBefore, whitesBefore := RedDays(rules[..j]), WhiteDays(rules[..j]);
            && (c == Red <==> rules[j].redOk && redsBefore < quotas.red)
            && (c == White <==> && rules[j].whiteOk && !(rules[j].redOk && redsBefore < quotas.red)
                                && whitesBefore - Min(quotas.red, redsBefore) < quotas.white)
  {
    var rules := SeasonRules(startYear);
    forall i | 0 <= i < |xs|
      ensures rules[i].day >= 0.0
    {
      DaysCountFromOne(startYear, i);
    }
    ListEndsTheSeason(startYear, FirstDay(startYear));
    hide SeasonRules, RestOfSeason, EndOfSeason, Weekday, Colours, DayNumber, RedDays, WhiteDays;
    FreezingSeason(rules, Weekday(FirstDay(startYear)), StockValue(quotas.red, quotas.white, 0), xs, j);
  }

  /** A season never above the red line of its full stock is red on exactly the last red-allowed
      days; never above the white line either, and with room, it is white on exactly the last
      white-allowed days. */
  lemma MildSeasonTakesTheLastDays(startYear: int, quotas: Quotas, xs: seq<real>, j: nat)
    requires startYear >= 0 && j < |xs| == |SeasonRules(startYear)|
    requires forall i :: 0 <= i < |xs| ==> 1000.0 * xs[i] <= (3150 - 10 * (i + 1) - 31 * quotas.red) as real
    ensures var c, rules := SeasonColours(startYear, quotas, xs)[j], SeasonRules(startYear);
            && (c == Red <==> rules[j].redOk && RedDays(rules[j..]) <= quotas.red)
            && ((forall i :: 0 <= i < |xs| ==>
                   1000.0 * xs[i] <= (4000 - 15 * (i + 1) - 26 * (quotas.red + quotas.white)) as real)
                && quotas.white <= WhiteRoom(rules)
                ==> (c == White <==> rules[j].whiteOk && WhiteDays(rules[j..]) <= quotas.white))
  {
    var rules, s := SeasonRules(startYear), StockValue(quotas.red, quotas.white, 0);
    forall i | 0 <= i < |xs|
      ensures rules[i].day == (i + 1) as real
    {
      DaysCountFromOne(startYear, i);
    }
    ListEndsTheSeason(startYear, FirstDay(startYear));
    hide SeasonRules, RestOfSeason, EndOfSeason, Weekday, Colours, DayNumber, RedDays, WhiteDays, WhiteRoom;
    var w := Weekday(FirstDay(startYear));
    MildSeason(rules, w, s, xs, j);
    if BelowWhiteLine(rules, s, xs) && quotas.white <= WhiteRoom(rules) {
      MildWhites(rules, w, s, xs, j);
    }
  }

  /** The default quotas: 22 red days, 43 white ones, and 300 blue, or 301 when the February of the
      season is a leap one. */
  lemma DefaultQuotas(startYear: int)
    ensures CRE_QUOTAS == Quotas(22, 43)
    ensures BlueDays(startYear, CRE_QUOTAS) == if IsLeap(startYear + 1) then 301 else 300
  {
    MonthTable(startYear);
    MonthTable(startYear + 1);
    YearsFollow(startYear);
  }
}
