/** The Tempo rules: which days the calendar lets be red or white, what is left of the season's
    quotas before a day, and the colour a normalised net consumption gives the day. */
module TempoRules {
  import opened Calendar
  import opened Easter

  datatype Color = Blue | White | Red

  /** The colours from the cheapest to the dearest. */
  const ALL := [Blue, White, Red]

  function Index(color: Color): (k: nat)
    ensures k < 3 && ALL[k] == color
  {
    match color case Blue => 0 case White => 1 case Red => 2
  }

  /** A season's published colours, by day. */
  type History = map<NaiveDate, Color>

  const RED_DAYS := 22
  const WHITE_DAYS := 43
  const MAX_RED_RUN := 5

  datatype Quotas = Quotas(red: nat, white: nat)

  const CRE_QUOTAS := Quotas(RED_DAYS, WHITE_DAYS)

  // ---------- the season and the calendar ----------

  function SeasonStartYear(d: NaiveDate): int {
    if d.month >= 9 then d.year else d.year - 1
  }

  function FirstDay(startYear: int): NaiveDate { Date(startYear, 9, 1) }

  function LastDay(startYear: int): NaiveDate { Date(startYear + 1, 8, 31) }

  function SeasonLength(startYear: int): int {
    DayNumber(LastDay(startYear)) - DayNumber(FirstDay(startYear)) + 1
  }

  function BlueDays(startYear: int, quotas: Quotas): int {
    SeasonLength(startYear) - quotas.red - quotas.white
  }

  function TempoDay(d: NaiveDate): int {
    DayNumber(d) - DayNumber(FirstDay(SeasonStartYear(d))) + 1
  }

  const FIXED_HOLIDAYS := {(1, 1), (5, 1), (5, 8), (7, 14), (8, 15), (11, 1), (11, 11), (12, 25)}

  predicate IsHoliday(d: NaiveDate)
    requires d.year >= 0
  {
    (d.month, d.day) in FIXED_HOLIDAYS ||
    var easter := DayNumber(EasterSunday(d.year));
    DayNumber(d) == easter + 1 || DayNumber(d) == easter + 39 || DayNumber(d) == easter + 50
  }

  predicate IsWinter(d: NaiveDate) {
    d.month == 11 || d.month == 12 || d.month <= 3
  }

  predicate RedAllowed(d: NaiveDate)
    requires d.year >= 0
  {
    IsWinter(d) && Weekday(d) != SATURDAY && Weekday(d) != SUNDAY && !IsHoliday(d)
  }

  predicate WhiteAllowed(d: NaiveDate) {
    Weekday(d) != SUNDAY
  }

  predicate Allowed(color: Color, d: NaiveDate)
    requires d.year >= 0
  {
    match color
    case Blue => true
    case White => WhiteAllowed(d)
    case Red => RedAllowed(d)
  }

  /** The days from `from` to `last`, both included, that may take `color`. */
  function DaysLeft(color: Color, from: NaiveDate, last: NaiveDate): nat
    requires from.year >= 0
    decreases DayNumber(last) - DayNumber(from)
  {
    if Earlier(last, from) then 0
    else
      DayAfter(from, last);
      (if Allowed(color, from) then 1 else 0) + DaysLeft(color, Next(from), last)
  }

  // ---------- the stock ----------

  /** What is left before a day, and the red days just before it. */
  datatype StockValue = StockValue(red: nat, white: nat, redRun: nat)

  function LessOne(n: nat): nat { if n == 0 then 0 else n - 1 }

  function Taken(s: StockValue, color: Color): StockValue {
    match color
    case Red => StockValue(LessOne(s.red), s.white, s.redRun + 1)
    case White => StockValue(s.red, LessOne(s.white), 0)
    case Blue => s.(redRun := 0)
  }

  /** The stock after the known days from `from` to the day before `until`. */
  function TakenAll(history: History, from: NaiveDate, until: NaiveDate, s: StockValue): StockValue
    decreases DayNumber(until) - DayNumber(from)
  {
    if !Earlier(from, until) then s
    else
      DayAfter(from, until);
      TakenAll(history, Next(from), until, if from in history then Taken(s, history[from]) else s)
  }

  /** The red days known just before `day`, counted back without a gap and up to `limit`. */
  function RedsJustBefore(history: History, day: NaiveDate, limit: nat): nat
    decreases limit
  {
    var before := Previous(day);
    if limit == 0 || before !in history || history[before] != Red then 0
    else 1 + RedsJustBefore(history, before, limit - 1)
  }

  function StockBefore(history: History, quotas: Quotas, day: NaiveDate): StockValue {
    var first := FirstDay(SeasonStartYear(day));
    var s := TakenAll(history, first, day, StockValue(quotas.red, quotas.white, 0));
    s.(redRun := RedsJustBefore(history, day, MAX_RED_RUN))
  }

  class Stock {
    var red: nat
    var white: nat
    var redRun: nat

    function Value(): StockValue
      reads this
    {
      StockValue(red, white, redRun)
    }

    constructor (quotas: Quotas)
      ensures Value() == StockValue(quotas.red, quotas.white, 0)
    {
      red, white, redRun := quotas.red, quotas.white, 0;
    }

    /** Another stock of the same value. */
    constructor Copy(value: StockValue)
      ensures Value() == value
    {
      red, white, redRun := value.red, value.white, value.redRun;
    }

    method Take(color: Color)
      modifies this
      ensures Value() == Taken(old(Value()), color)
    {
      match color
      case Red =>
        red := LessOne(red);
        redRun := redRun + 1;
      case White =>
        white := LessOne(white);
        redRun := 0;
      case Blue =>
        redRun := 0;
    }

    /** The stock before `day`, from the season's known colours up to the day before. */
    static method Before(history: History, quotas: Quotas, day: NaiveDate) returns (stock: Stock)
      ensures fresh(stock) && stock.Value() == StockBefore(history, quotas, day)
    {
      stock := new Stock(quotas);
      var d: NaiveDate := FirstDay(SeasonStartYear(day));
      while Earlier(d, day)
        invariant TakenAll(history, d, day, stock.Value())
               == TakenAll(history, FirstDay(SeasonStartYear(day)), day, StockValue(quotas.red, quotas.white, 0))
        decreases DayNumber(day) - DayNumber(d)
      {
        if d in history {
          stock.Take(history[d]);
        }
        DayAfter(d, day);
        d := Next(d);
      }
      // counted back day by day, whatever the history skips
      var run, cursor: NaiveDate := 0, day;
      while run < MAX_RED_RUN && Previous(cursor) in history && history[Previous(cursor)] == Red
        invariant run <= MAX_RED_RUN
        invariant run + RedsJustBefore(history, cursor, MAX_RED_RUN - run)
               == RedsJustBefore(history, day, MAX_RED_RUN)
      {
        run, cursor := run + 1, Previous(cursor);
      }
      stock.redRun := run;
    }
  }

  // ---------- the decision ----------

  /** A day as its decision sees it, the stock apart. */
  datatype DayRules = DayRules(date: NaiveDate, redOk: bool, whiteOk: bool, day: real, redLeft: nat, whiteLeft: nat)

  function RulesOf(date: NaiveDate): DayRules
    requires date.year >= 0
  {
    var start := SeasonStartYear(date);
    DayRules(
      date,
      RedAllowed(date),
      WhiteAllowed(date),
      TempoDay(date) as real,
      if RedAllowed(date) then DaysLeft(Red, date, Date(start + 1, 3, 31)) else 0,
      DaysLeft(White, date, LastDay(start)))
  }

  function RedThreshold(rules: DayRules, s: StockValue): real {
    3.15 - 0.010 * rules.day - 0.031 * s.red as real
  }

  function WhiteThreshold(rules: DayRules, s: StockValue): real {
    4.00 - 0.015 * rules.day - 0.026 * (s.red + s.white) as real
  }

  /** The colour the day gets for a normalised net consumption `x`. */
  function Decide(rules: DayRules, x: real, s: StockValue): Color {
    var canRed := rules.redOk && s.red > 0 && s.redRun < MAX_RED_RUN;
    var canWhite := rules.whiteOk && s.white > 0;
    if canRed && s.red >= rules.redLeft then Red
    else if canWhite && !rules.redOk && s.white >= rules.whiteLeft then White
    else if canRed && x > RedThreshold(rules, s) then Red
    else if canWhite && x > WhiteThreshold(rules, s) then White
    else Blue
  }

  /** The colours of a list of days, one net consumption each, the stock carried from day to
      day. */
  function Colours(rules: seq<DayRules>, s: StockValue, xs: seq<real>): (cs: seq<Color>)
    requires |rules| == |xs|
    ensures |cs| == |xs|
    decreases |xs|
  {
    if xs == [] then []
    else
      var color := Decide(rules[0], xs[0], s);
      [color] + Colours(rules[1..], Taken(s, color), xs[1..])
  }
}
