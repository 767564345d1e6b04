/** The stock carried from day to day against the stock recomputed from the published colours:
    the same within a season, run length included, and exactly when they part at its end. */
module TempoHistory {
  import opened Calendar
  import opened TempoRules
  import opened TempoSeason

  // ---------- recomputing after one more day ----------

  lemma {:induction false} TakenAllExtends(history: History, from: NaiveDate, day: NaiveDate, color: Color,
                                           s: StockValue)
    requires !Earlier(day, from)
    ensures TakenAll(history[day := color], from, Next(day), s) == Taken(TakenAll(history, from, day, s), color)
    decreases DayNumber(day) - DayNumber(from)
  {
    hide DayNumber, Taken, Next;
    DayAfter(day, from);
    DayAfter(from, day);
    DayAfter(day, Next(day));
    if from != day {
      TakenAllExtends(history, Next(from), day, color, if from in history then Taken(s, history[from]) else s);
    }
  }

  /** Looking back from `day` never meets `later` or what lies after it. */
  lemma {:induction false} RunIgnoresLaterDays(history: History, later: NaiveDate, color: Color, day: NaiveDate,
                                               limit: nat)
    requires !Earlier(later, day)
    ensures RedsJustBefore(history[later := color], day, limit) == RedsJustBefore(history, day, limit)
    decreases limit
  {
    if limit > 0 {
      RunIgnoresLaterDays(history, later, color, Previous(day), limit - 1);
    }
  }

  /** A run shorter than the look-back is found by any longer look-back too. */
  lemma {:induction false} ShortRunsAreSeenWhole(history: History, day: NaiveDate, limit: nat)
    requires RedsJustBefore(history, day, limit + 1) <= limit
    ensures RedsJustBefore(history, day, limit) == RedsJustBefore(history, day, limit + 1)
    decreases limit
  {
    hide Previous;
    if limit > 0 && Previous(day) in history && history[Previous(day)] == Red {
      ShortRunsAreSeenWhole(history, Previous(day), limit - 1);
    }
  }

  /** Taking a colour gives the run that the longer history shows, as long as the look-back
      still sees the whole of it. */
  lemma RunExtends(history: History, day: NaiveDate, color: Color)
    requires color == Red ==> RedsJustBefore(history, day, MAX_RED_RUN) < MAX_RED_RUN
    ensures RedsJustBefore(history[day := color], Next(day), MAX_RED_RUN)
         == if color == Red then RedsJustBefore(history, day, MAX_RED_RUN) + 1 else 0
  {
    hide Previous, Next;
    PreviousUndoesNext(day);
    if color == Red {
      RunIgnoresLaterDays(history, day, color, day, MAX_RED_RUN - 1);
      ShortRunsAreSeenWhole(history, day, MAX_RED_RUN - 1);
    }
  }

  /** Deciding a day and taking its colour is recomputing the stock from the history that has
      it, as long as the next day is of the same season. */
  lemma RunningStockIsRecomputed(history: History, quotas: Quotas, day: NaiveDate, rules: DayRules, x: real)
    requires SeasonStartYear(Next(day)) == SeasonStartYear(day)
    ensures var s := StockBefore(history, quotas, day);
            var c := Decide(rules, x, s);
            Taken(s, c) == StockBefore(history[day := c], quotas, Next(day))
  {
    hide DayNumber, Next;
    var c := Decide(rules, x, StockBefore(history, quotas, day));
    TakenAllExtends(history, FirstDay(SeasonStartYear(day)), day, c, StockValue(quotas.red, quotas.white, 0));
    RunExtends(history, day, c);
  }

  /** The days' colours with the stock recomputed each morning from what was given so far. */
  function ColoursByHistory(history: History, quotas: Quotas, from: NaiveDate, rules: seq<DayRules>,
                            xs: seq<real>): (cs: seq<Color>)
    requires |rules| == |xs|
    ensures |cs| == |xs|
    decreases |xs|
  {
    if xs == [] then []
    else
      var color := Decide(rules[0], xs[0], StockBefore(history, quotas, from));
      [color] + ColoursByHistory(history[from := color], quotas, Next(from), rules[1..], xs[1..])
  }

  lemma SameSeasonUntilItsEnd(from: NaiveDate)
    ensures from == LastDay(SeasonStartYear(from)) || SeasonStartYear(Next(from)) == SeasonStartYear(from)
    ensures DayNumber(Next(from)) == DayNumber(from) + 1
  {
    NextIsOneDayLater(from);
  }

  /** A whole run with the carried stock gives the colours of the recomputed one, from any day
      of a season to its end, whatever the days' rules and weather. */
  lemma {:induction false} RunRefinesHistory(history: History, quotas: Quotas, from: NaiveDate, rules: seq<DayRules>,
                                             xs: seq<real>)
    requires |rules| == |xs|
    requires DayNumber(from) + |xs| <= DayNumber(LastDay(SeasonStartYear(from))) + 1
    ensures Colours(rules, StockBefore(history, quotas, from), xs)
         == ColoursByHistory(history, quotas, from, rules, xs)
    decreases |xs|
  {
    hide DayNumber, Decide, StockBefore, Next;
    if xs != [] {
      var c := Decide(rules[0], xs[0], StockBefore(history, quotas, from));
      SameSeasonUntilItsEnd(from);
      if |xs| > 1 {
        RunningStockIsRecomputed(history, quotas, from, rules[0], xs[0]);
        RunRefinesHistory(history[from := c], quotas, Next(from), rules[1..], xs[1..]);
      }
    }
  }

  /** Before its first day a season has its whole quotas, and no run but what August's end left. */
  lemma NewSeasonStartsFull(history: History, quotas: Quotas, startYear: int)
    ensures var s := StockBefore(history, quotas, Date(startYear, 9, 1));
            && s.red == quotas.red && s.white == quotas.white
            && (Date(startYear, 8, 31) !in history || history[Date(startYear, 8, 31)] != Red ==> s.redRun == 0)
  {
    hide DayNumber;
    assert Previous(Date(startYear, 9, 1)) == Date(startYear, 8, 31);
  }

  // ---------- across 31 August ----------

  /** Nothing of the quotas has been used from `from` to the day before `until`. */
  ghost predicate NothingSpent(history: History, quotas: Quotas, from: NaiveDate, until: NaiveDate) {
    forall d: NaiveDate :: d in history && !Earlier(d, from) && Earlier(d, until) ==>
      (history[d] == Red ==> quotas.red == 0) && (history[d] == White ==> quotas.white == 0)
  }

  lemma {:induction false} StockUntouchedIffNothingSpent(history: History, from: NaiveDate, until: NaiveDate,
                                                         s: StockValue)
    ensures var t := TakenAll(history, from, until, s);
            && t.red <= s.red && t.white <= s.white
            && (t.red == s.red && t.white == s.white
                <==> NothingSpent(history, Quotas(s.red, s.white), from, until))
    decreases DayNumber(until) - DayNumber(from)
  {
    hide DayNumber;
    if Earlier(from, until) {
      DayAfter(from, until);
      var s' := if from in history then Taken(s, history[from]) else s;
      StockUntouchedIffNothingSpent(history, Next(from), until, s');
    }
  }

  /** 31 August is forced white when any white is left, unless it is a Sunday. */
  lemma LastDayIsWhiteIfItCan(startYear: int, s: StockValue, x: real)
    requires startYear >= -1
    ensures var last: NaiveDate := LastDay(startYear);
            Decide(RulesOf(last), x, s) == if s.white > 0 && Weekday(last) != SUNDAY then White else Blue
  {
    hide DayNumber, IsHoliday, Weekday;
    var last: NaiveDate := LastDay(startYear);
    DayAfter(last, last);
    DayAfter(last, Next(last));
    assert DaysLeft(White, last, last) == if WhiteAllowed(last) then 1 else 0;
  }

  /** What a last day of one colour leaves of a season that spent nothing. */
  lemma NothingSpentWithLastDay(history: History, quotas: Quotas, first: NaiveDate, last: NaiveDate, c: Color)
    requires !Earlier(last, first) && c != Red
    ensures NothingSpent(history[last := c], quotas, first, Next(last))
       <==> NothingSpent(history, quotas, first, last) && (c == White ==> quotas.white == 0)
  {
    hide DayNumber, Earlier, Next;
    var longer := history[last := c];
    DayAfter(last, last);
    forall d: NaiveDate
      ensures Earlier(d, Next(last)) <==> d == last || Earlier(d, last)
    {
      DayAfter(last, d);
      DayAfter(d, last);
    }
    if NothingSpent(longer, quotas, first, Next(last)) {
      assert longer[last] == c;
      forall d: NaiveDate | d in history && !Earlier(d, first) && Earlier(d, last)
        ensures (history[d] == Red ==> quotas.red == 0) && (history[d] == White ==> quotas.white == 0)
      {
        assert longer[d] == history[d];
      }
    }
  }

  /** A forecast that runs over 31 August keeps the old season's stock, where the new season
      starts from full quotas: the two agree exactly when nothing was spent before that day and
      it spends nothing itself, being a Sunday or having no white to give. */
  lemma StocksPartAtTheSeasonsEnd(history: History, quotas: Quotas, startYear: int, x: real)
    requires startYear >= -1
    ensures var last: NaiveDate := LastDay(startYear);
            var s := StockBefore(history, quotas, last);
            var c := Decide(RulesOf(last), x, s);
            Taken(s, c) == StockBefore(history[last := c], quotas, Next(last))
            <==> && NothingSpent(history, quotas, FirstDay(startYear), last)
                 && (quotas.white == 0 || Weekday(last) == SUNDAY)
  {
    hide DayNumber, Decide, IsHoliday, Weekday, RulesOf;
    var first: NaiveDate, last: NaiveDate := FirstDay(startYear), LastDay(startYear);
    var s := StockBefore(history, quotas, last);
    var c := Decide(RulesOf(last), x, s);
    LastDayIsWhiteIfItCan(startYear, s, x);
    NothingSpentWithLastDay(history, quotas, first, last, c);
    StockUntouchedIffNothingSpent(history, first, last, StockValue(quotas.red, quotas.white, 0));
    StocksMeetIffNothingSpent(history, quotas, startYear, c);
  }

  lemma StocksMeetIffNothingSpent(history: History, quotas: Quotas, startYear: int, c: Color)
    requires c != Red
    ensures var last: NaiveDate := LastDay(startYear);
            Taken(StockBefore(history, quotas, last), c) == StockBefore(history[last := c], quotas, Next(last))
            <==> NothingSpent(history[last := c], quotas, FirstDay(startYear), Next(last))
  {
    var last: NaiveDate := LastDay(startYear);
    hide DayNumber;
    TakenAllExtends(history, FirstDay(startYear), last, c, StockValue(quotas.red, quotas.white, 0));
    StockUntouchedIffNothingSpent(history[last := c], FirstDay(startYear), Next(last),
                                  StockValue(quotas.red, quotas.white, 0));
    RunExtends(history, last, c);
  }

  /** One red day in December is enough: the stock carried into September 2026 is not the new
      season's, whatever the weather of 31 August. */
  lemma OneRedPartsTheStocks(x: real)
    ensures var day: NaiveDate, last: NaiveDate := Date(2025, 12, 29), LastDay(2025);
            var history: History := map[day := Red];
            var s := StockBefore(history, CRE_QUOTAS, last);
            var c := Decide(RulesOf(last), x, s);
            Taken(s, c) != StockBefore(history[last := c], CRE_QUOTAS, Next(last))
  {
    hide StockBefore, Decide, RulesOf, DayNumber;
    var day: NaiveDate := Date(2025, 12, 29);
    var history: History := map[day := Red];
    StocksPartAtTheSeasonsEnd(history, CRE_QUOTAS, 2025, x);
    assert day in history && history[day] == Red;
  }
}
