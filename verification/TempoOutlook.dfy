/** The week shown: the days RTE has published, then the forecast's, without a gap, up to J+7 or
    as far as the weather forecast reaches. */
module TempoOutlook {
  import opened Bytes
  import opened Calendar
  import opened TempoRules
  import opened TempoForecast

  const HORIZON := 7

  datatype Note = NoWeather | NoLevels | WeatherTooShort

  /** The last weather forecast: the day it was issued, and the expected net consumption of
      each day it covers. */
  datatype Weather = Weather(issued: Option<NaiveDate>, expected: map<NaiveDate, real>)

  /** How often forecasts of one age were right: on all days, and in winter. */
  datatype Reliability = Reliability(accuracy: real, winterAccuracy: real)

  /** What the fitted model holds beyond the expectation: its errors by horizon (J+1 first),
      their correlation from day to day, and its backtest scores by horizon. */
  datatype Model = Model(sigma: seq<real>, noise: Noise, runs: nat, scores: map<nat, Reliability>)

  datatype ForecastDay = ForecastDay(
    date: NaiveDate, horizon: int, official: bool, color: Color,
    probabilities: seq<real>, confidence: real, reliability: Option<Reliability>)

  /** The error at `horizon` days: measured, then growing in proportion. */
  function Sigma(model: Model, horizon: nat): real {
    var measured := |model.sigma|;
    if measured == 0 then 0.5
    else if horizon == 0 then model.sigma[0]
    else if horizon > measured then model.sigma[measured - 1] * horizon as real / measured as real
    else model.sigma[horizon - 1]
  }

  /** The `i`-th day after tomorrow, tomorrow being the 0th. */
  function DayAhead(today: NaiveDate, i: nat): NaiveDate { Plus(today, i + 1) }

  /** How far the published days reach without a gap, `n` being known already. */
  function KnownAhead(history: History, today: NaiveDate, n: nat): (k: nat)
    requires n <= HORIZON
    ensures n <= k <= HORIZON
    ensures forall i :: n <= i < k ==> DayAhead(today, i) in history
    ensures k < HORIZON ==> DayAhead(today, k) !in history
    decreases HORIZON - n
  {
    if n == HORIZON || DayAhead(today, n) !in history then n else KnownAhead(history, today, n + 1)
  }

  /** A day of the list in its place. */
  ghost predicate InPlace(days: seq<ForecastDay>, today: NaiveDate, i: nat)
    requires i < |days|
  {
    days[i].date == DayAhead(today, i) && days[i].horizon == i + 1
  }

  /** A published day: RTE's colour, for sure. */
  ghost predicate IsOfficial(day: ForecastDay, history: History) {
    && day.official && day.date in history && day.color == history[day.date]
    && |day.probabilities| == 3 && day.confidence == 1.0 && day.reliability == None
    && (forall c: Color {:trigger Index(c)} :: day.probabilities[Index(c)] == if c == day.color then 1.0 else 0.0)
  }

  /** A forecast day: probabilities that add up (when anything was drawn), none for a colour the
      calendar forbids, and the likeliest colour shown with its own probability. */
  ghost predicate IsForecast(day: ForecastDay, runs: nat) {
    && !day.official && |day.probabilities| == 3 && day.date.year >= 0
    && (runs > 0 ==> day.probabilities[0] + day.probabilities[1] + day.probabilities[2] == 1.0)
    && (forall c: Color :: !Allowed(c, day.date) ==> day.probabilities[Index(c)] == 0.0)
    && day.confidence == day.probabilities[Index(day.color)]
    && (forall c: Color :: day.probabilities[Index(c)] <= day.confidence)
  }

  function Certain(color: Color): seq<real> {
    [0.0, 0.0, 0.0][Index(color) := 1.0]
  }

  method Published(history: History, today: NaiveDate) returns (days: seq<ForecastDay>)
    ensures |days| == KnownAhead(history, today, 0)
    ensures forall i :: 0 <= i < |days| ==> InPlace(days, today, i) && IsOfficial(days[i], history)
  {
    days := [];
    var start: NaiveDate := Next(today);
    while |days| < HORIZON && start in history
      invariant |days| <= HORIZON && start == DayAhead(today, |days|)
      invariant KnownAhead(history, today, |days|) == KnownAhead(history, today, 0)
      invariant forall i :: 0 <= i < |days| ==> InPlace(days, today, i) && IsOfficial(days[i], history)
      decreases HORIZON - |days|
    {
      var color := history[start];
      PlusAdds(today, |days| + 1);
      PlusNext(today, |days| + 1);
      days := days + [ForecastDay(start, DayNumber(start) - DayNumber(today), true, color, Certain(color), 1.0, None)];
      start := Next(start);
    }
  }

  /** Each day to simulate is the right one, with its rules. */
  ghost predicate RightDay(ahead: seq<Ahead>, today: NaiveDate, known: nat, i: nat)
    requires i < |ahead|
  {
    var d := DayAhead(today, known + i);
    d.year >= 0 && ahead[i].rules == RulesOf(d)
  }

  lemma {:induction false} YearsGrowAhead(d: NaiveDate, n: nat)
    ensures Plus(d, n).year >= d.year
    decreases n
  {
    if n > 0 {
      YearsGrowAhead(Next(d), n - 1);
    }
  }

  /** How old the weather forecast is for a date: what its error and its score are looked up by. */
  function ErrorHorizon(weather: Weather, today: NaiveDate, date: NaiveDate): nat {
    var issued := if weather.issued.Some? then weather.issued.value else today;
    MaxOne(DayNumber(date) - DayNumber(issued))
  }

  /** The backtest score at a horizon, if there is one. */
  function Score(model: Model, horizon: nat): Option<Reliability> {
    if horizon in model.scores then Some(model.scores[horizon]) else None
  }

  function AheadDay(weather: Weather, model: Model, today: NaiveDate, date: NaiveDate): Ahead
    requires date.year >= 0 && date in weather.expected
  {
    Ahead(RulesOf(date), weather.expected[date], Sigma(model, ErrorHorizon(weather, today, date)))
  }

  /** The days to simulate: from the `n`-th one on, as far as the weather covers them. */
  function AheadFrom(weather: Weather, model: Model, today: NaiveDate, n: nat): (ahead: seq<Ahead>)
    requires today.year >= 0 && n <= HORIZON
    ensures |ahead| <= HORIZON - n
    decreases HORIZON - n
  {
    if n == HORIZON || DayAhead(today, n) !in weather.expected then []
    else
      YearsGrowAhead(today, n + 1);
      [AheadDay(weather, model, today, DayAhead(today, n))] + AheadFrom(weather, model, today, n + 1)
  }

  lemma {:induction false} AheadFromAt(weather: Weather, model: Model, today: NaiveDate, n: nat, i: nat)
    requires today.year >= 0 && n <= HORIZON && i < |AheadFrom(weather, model, today, n)|
    ensures RightDay(AheadFrom(weather, model, today, n), today, n, i)
    decreases i
  {
    hide RulesOf, Sigma, DayNumber, Plus;
    YearsGrowAhead(today, n + 1);
    if i > 0 {
      AheadFromAt(weather, model, today, n + 1, i - 1);
      assert AheadFrom(weather, model, today, n)[1..] == AheadFrom(weather, model, today, n + 1);
    }
  }

  /** Each day simulated is expected as its own weather says, its error that of the forecast's age. */
  lemma {:induction false} AheadIsOfItsDay(weather: Weather, model: Model, today: NaiveDate, n: nat, i: nat)
    requires today.year >= 0 && n <= HORIZON && i < |AheadFrom(weather, model, today, n)|
    ensures var d, ahead := DayAhead(today, n + i), AheadFrom(weather, model, today, n)[i];
            && d in weather.expected && ahead.x == weather.expected[d]
            && ahead.sigma == Sigma(model, ErrorHorizon(weather, today, d))
    decreases i
  {
    hide RulesOf, Sigma, DayNumber, Plus, ErrorHorizon;
    YearsGrowAhead(today, n + 1);
    if i > 0 {
      AheadIsOfItsDay(weather, model, today, n + 1, i - 1);
      assert AheadFrom(weather, model, today, n)[1..] == AheadFrom(weather, model, today, n + 1);
    }
  }

  /** A forecast issued `age` days ago is that much less sure of each day; one of today, or of no
      known day, is one day ahead of tomorrow. */
  lemma ErrorHorizonAges(weather: Weather, today: NaiveDate, age: nat, i: nat)
    requires weather.issued.Some? ==> today == Plus(weather.issued.value, age)
    requires weather.issued == None ==> age == 0
    ensures ErrorHorizon(weather, today, DayAhead(today, i)) == age + i + 1
  {
    hide DayNumber, Plus;
    PlusAdds(today, i + 1);
    if weather.issued.Some? {
      PlusAdds(weather.issued.value, age);
    }
  }

  /** A day covered is at least one day off, however late the forecast's own date. */
  lemma ErrorHorizonIsPositive(weather: Weather, today: NaiveDate, date: NaiveDate)
    ensures ErrorHorizon(weather, today, date) >= 1
  {
  }

  /** The errors are those measured, day by day; past the last they keep its proportion, and so grow. */
  lemma SigmaByHorizon(model: Model, h: nat, k: nat)
    ensures |model.sigma| == 0 ==> Sigma(model, h) == 0.5
    ensures 1 <= h <= |model.sigma| ==> Sigma(model, h) == model.sigma[h - 1]
    ensures 0 < |model.sigma| <= h && |model.sigma| <= k ==> Sigma(model, h) * k as real == Sigma(model, k) * h as real
  {
    var measured := |model.sigma|;
    if 0 < measured <= h && measured <= k {
      PastTheMeasured(model, h);
      PastTheMeasured(model, k);
      Proportional(model.sigma[measured - 1], measured, h, k);
      hide Sigma;
    }
  }

  lemma PastTheMeasured(model: Model, h: nat)
    requires 0 < |model.sigma| <= h
    ensures Sigma(model, h) == model.sigma[|model.sigma| - 1] * h as real / |model.sigma| as real
  {
    var measured := |model.sigma|;
    var last := model.sigma[measured - 1];
    if h == measured {
      Proportional(last, measured, measured, measured);
      assert Sigma(model, measured) == last;
    }
  }

  lemma Proportional(last: real, measured: nat, h: nat, k: nat)
    requires measured > 0
    ensures last * h as real / measured as real * k as real == last * k as real / measured as real * h as real
    ensures last * measured as real / measured as real == last
  {
    var m, a, b := measured as real, h as real, k as real;
    Fraction(last * a, m, b);
    Fraction(last * b, m, a);
    assert last * a * b == last * b * a;
  }

  lemma Fraction(x: real, m: real, y: real)
    requires m > 0.0
    ensures x / m * y == x * y / m
  {
  }

  lemma {:induction false} AheadStops(weather: Weather, model: Model, today: NaiveDate, n: nat)
    requires today.year >= 0 && n <= HORIZON
    ensures var reach := n + |AheadFrom(weather, model, today, n)|;
            reach < HORIZON ==> DayAhead(today, reach) !in weather.expected
    decreases HORIZON - n
  {
    hide RulesOf, AheadDay, Plus;
    if n < HORIZON && DayAhead(today, n) in weather.expected {
      AheadStops(weather, model, today, n + 1);
    }
  }

  lemma AheadGrows(weather: Weather, model: Model, today: NaiveDate, n: nat, ahead: seq<Ahead>, all: seq<Ahead>)
    requires today.year >= 0 && n < HORIZON && DayAhead(today, n) in weather.expected
    requires ahead + AheadFrom(weather, model, today, n) == all
    ensures DayAhead(today, n).year >= 0
    ensures var day := AheadDay(weather, model, today, DayAhead(today, n));
            ahead + [day] + AheadFrom(weather, model, today, n + 1) == all
  {
    hide AheadDay, Plus;
    YearsGrowAhead(today, n + 1);
  }

  lemma AheadEnds(weather: Weather, model: Model, today: NaiveDate, n: nat)
    requires today.year >= 0 && n <= HORIZON && (n == HORIZON || DayAhead(today, n) !in weather.expected)
    ensures AheadFrom(weather, model, today, n) == []
  {
  }

  /** The list of days to simulate and their horizons, built a day at a time. */
  method DaysAhead(weather: Weather, model: Model, today: NaiveDate, known: nat)
    returns (ahead: seq<Ahead>, horizons: seq<nat>)
    requires today.year >= 0 && known < HORIZON
    ensures ahead == AheadFrom(weather, model, today, known) && |horizons| == |ahead|
    ensures forall i :: 0 <= i < |ahead| ==> horizons[i] == ErrorHorizon(weather, today, DayAhead(today, known + i))
  {
    hide RulesOf, DayNumber, Sigma, Plus, AheadFrom;
    ahead, horizons := [], [];
    var issued := if weather.issued.Some? then weather.issued.value else today;
    var date: NaiveDate := DayAhead(today, known);
    YearsGrowAhead(today, known + 1);
    while known + |ahead| < HORIZON && date in weather.expected
      invariant known + |ahead| <= HORIZON && |horizons| == |ahead|
      invariant forall i :: 0 <= i < |ahead| ==> horizons[i] == ErrorHorizon(weather, today, DayAhead(today, known + i))
      invariant date == DayAhead(today, known + |ahead|) && date.year >= 0
      invariant ahead + AheadFrom(weather, model, today, known + |ahead|) == AheadFrom(weather, model, today, known)
      decreases HORIZON - known - |ahead|
    {
      var horizon := MaxOne(DayNumber(date) - DayNumber(issued));
      AheadGrows(weather, model, today, known + |ahead|, ahead, AheadFrom(weather, model, today, known));
      PlusNext(today, known + |ahead| + 1);
      YearsGrowAhead(today, known + |ahead| + 2);
      ahead := ahead + [Ahead(RulesOf(date), weather.expected[date], Sigma(model, horizon))];
      horizons := horizons + [horizon];
      date := Next(date);
    }
    AheadEnds(weather, model, today, known + |ahead|);
  }

  /** The draws of every run, from a source of normal values. */
  function Draws(normal: (nat, nat) -> real, runs: nat, n: nat): (draws: seq<seq<real>>)
    ensures |draws| == runs && forall r :: 0 <= r < runs ==> |draws[r]| == n
  {
    seq(runs, r requires 0 <= r < runs => seq(n, i requires 0 <= i < n => normal(r, i)))
  }

  /** The probabilities of the `i`-th day simulated. */
  function SharesOfTheRuns(ahead: seq<Ahead>, stock: StockValue, model: Model, normal: (nat, nat) -> real, i: nat)
    : (p: seq<real>)
    requires i < |ahead|
    ensures |p| == 3
  {
    Shares(ahead, stock, model.noise, Draws(normal, model.runs, |ahead|), i)
  }

  /** One forecast day from its probabilities. */
  method Forecast(date: NaiveDate, p: seq<real>, runs: nat, reliability: Option<Reliability>, today: NaiveDate,
                  ghost n: nat)
    returns (day: ForecastDay)
    requires date.year >= 0 && date == DayAhead(today, n)
    requires |p| == 3 && (runs > 0 ==> p[0] + p[1] + p[2] == 1.0)
    requires (!RedAllowed(date) ==> p[2] == 0.0) && (!WhiteAllowed(date) ==> p[1] == 0.0)
    ensures day.date == date && day.horizon == n + 1 && IsForecast(day, runs)
    ensures day.reliability == reliability && day.probabilities == p
  {
    hide IsHoliday, DayNumber, WhiteAllowed, RedAllowed;
    var color := Likeliest(p);
    PlusAdds(today, n + 1);
    day := ForecastDay(date, DayNumber(date) - DayNumber(today), false, color, p, p[Index(color)], reliability);
  }

  /** The forecast days, from the simulation's probabilities. */
  method Forecasts(ahead: seq<Ahead>, horizons: seq<nat>, stock: StockValue, model: Model, today: NaiveDate,
                   known: nat, normal: (nat, nat) -> real)
    returns (days: seq<ForecastDay>)
    requires |ahead| == |horizons| && forall i :: 0 <= i < |ahead| ==> RightDay(ahead, today, known, i)
    ensures |days| == |ahead|
    ensures forall i :: 0 <= i < |days| ==>
              && days[i].date == DayAhead(today, known + i) && days[i].horizon == known + i + 1
              && IsForecast(days[i], model.runs) && days[i].reliability == Score(model, horizons[i])
              && days[i].probabilities == SharesOfTheRuns(ahead, stock, model, normal, i)
  {
    hide RulesOf, DayNumber, IsForecast, Shares, Plus, DayAhead, RightDay, RedAllowed, WhiteAllowed, Draws;
    var probabilities := Simulate(ahead, stock, model.noise, Draws(normal, model.runs, |ahead|));
    days := [];
    for i := 0 to |ahead|
      invariant |days| == i
      invariant forall k :: 0 <= k < i ==>
                  && days[k].date == DayAhead(today, known + k) && days[k].horizon == known + k + 1
                  && IsForecast(days[k], model.runs) && days[k].reliability == Score(model, horizons[k])
                  && days[k].probabilities == SharesOfTheRuns(ahead, stock, model, normal, k)
    {
      RightShares(ahead, today, known, stock, model, normal, i);
      var day := Forecast(ahead[i].rules.date, probabilities[i], model.runs, Score(model, horizons[i]),
                          today, known + i);
      days := days + [day];
    }
  }

  /** The `i`-th day after the published ones, as the simulation and the model foresee it. */
  ghost predicate Foreseen(day: ForecastDay, weather: Weather, model: Model, today: NaiveDate, known: nat,
                           stock: StockValue, normal: (nat, nat) -> real, i: nat)
    requires today.year >= 0 && known <= HORIZON
  {
    var ahead := AheadFrom(weather, model, today, known);
    && day.date == DayAhead(today, known + i) && day.horizon == known + i + 1
    && IsForecast(day, model.runs)
    && (var age := ErrorHorizon(weather, today, day.date);
        day.reliability == if age in model.scores then Some(model.scores[age]) else None)
    && i < |ahead| && day.probabilities == SharesOfTheRuns(ahead, stock, model, normal, i)
  }

  /** The days after the published ones, from the weather and the stock left by then. */
  method Foresee(weather: Weather, model: Model, history: History, quotas: Quotas, today: NaiveDate, known: nat,
                 normal: (nat, nat) -> real)
    returns (days: seq<ForecastDay>)
    requires today.year >= 0 && known < HORIZON
    ensures |days| == |AheadFrom(weather, model, today, known)|
    ensures forall i :: 0 <= i < |days| ==> days[i].date == DayAhead(today, known + i)
    ensures forall i :: 0 <= i < |days| ==> days[i].horizon == known + i + 1
    ensures forall i :: 0 <= i < |days| ==>
              Foreseen(days[i], weather, model, today, known, StockBefore(history, quotas, DayAhead(today, known)),
                       normal, i)
  {
    hide RulesOf, DayNumber, IsForecast, Plus, DayAhead, RightDay, SharesOfTheRuns, AheadFrom, StockBefore,
         ErrorHorizon;
    var ahead, horizons := DaysAhead(weather, model, today, known);
    var stock := Stock.Before(history, quotas, DayAhead(today, known));
    forall i | 0 <= i < |ahead|
      ensures RightDay(ahead, today, known, i)
    {
      AheadFromAt(weather, model, today, known, i);
    }
    days := Forecasts(ahead, horizons, stock.Value(), model, today, known, normal);
  }

  /** The outlook of the days after `today`. */
  method Outlook(model: Model, history: History, quotas: Quotas, weather: Option<Weather>, levels: bool,
                 today: NaiveDate, normal: (nat, nat) -> real)
    returns (days: seq<ForecastDay>, note: Option<Note>)
    requires today.year >= 0
    ensures KnownAhead(history, today, 0) <= |days| <= 7
    ensures forall i :: 0 <= i < |days| ==> InPlace(days, today, i)
    ensures forall i :: 0 <= i < KnownAhead(history, today, 0) ==> IsOfficial(days[i], history)
    ensures note == if |days| == 7 then None
                    else if weather == None then Some(NoWeather)
                    else if !levels then Some(NoLevels) else Some(WeatherTooShort)
    ensures weather == None || !levels ==> |days| == KnownAhead(history, today, 0)
    ensures weather.Some? && levels ==>
              var known := KnownAhead(history, today, 0);
              && |days| == known + |AheadFrom(weather.value, model, today, known)|
              && (|days| < 7 ==> DayAhead(today, |days|) !in weather.value.expected)
              && forall k :: known <= k < |days| ==>
                   Foreseen(days[k], weather.value, model, today, known,
                            StockBefore(history, quotas, DayAhead(today, known)), normal, k - known)
  {
    hide Foreseen, KnownAhead, IsOfficial, DayAhead, AheadFrom, StockBefore;
    days := Published(history, today);
    var known := |days|;
    if known == HORIZON {
      AllPublished(weather, model, today);
      return days, None;
    }
    if weather == None || !levels {
      return days, Some(if weather == None then NoWeather else NoLevels);
    }
    var foreseen := Foresee(weather.value, model, history, quotas, today, known, normal);
    AheadStops(weather.value, model, today, known);
    days := days + foreseen;
    assert days[known..] == foreseen;
    assert forall k :: known <= k < |days| ==> days[k] == foreseen[k - known];
    note := if |days| < HORIZON then Some(WeatherTooShort) else None;
  }

  lemma AllPublished(weather: Option<Weather>, model: Model, today: NaiveDate)
    requires today.year >= 0
    ensures weather.Some? ==> AheadFrom(weather.value, model, today, HORIZON) == []
  {
  }

  /** What the simulation guarantees of a day's probabilities. */
  lemma RightShares(ahead: seq<Ahead>, today: NaiveDate, known: nat, stock: StockValue, model: Model,
                    normal: (nat, nat) -> real, i: nat)
    requires i < |ahead| && RightDay(ahead, today, known, i)
    ensures var d, p := DayAhead(today, known + i), SharesOfTheRuns(ahead, stock, model, normal, i);
            && d.year >= 0 && ahead[i].rules.date == d && (model.runs > 0 ==> p[0] + p[1] + p[2] == 1.0)
            && (!RedAllowed(d) ==> p[2] == 0.0) && (!WhiteAllowed(d) ==> p[1] == 0.0)
  {
    hide IsHoliday, DayNumber, DaysLeft, Plus, Weekday, Shares;
    SharesOfADay(ahead, stock, model.noise, Draws(normal, model.runs, |ahead|), i);
  }
}
