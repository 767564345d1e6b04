/** What a list of days owes the rules, whatever the weather: every red and white day of the
    stock is placed by the end of the list, exactly when the calendar leaves room for it. The
    days are taken as DayRules, so nothing here depends on how the calendar works them out. */
module TempoSeason {
  import opened TempoRules

  function Count(cs: seq<Color>, color: Color): nat {
    if cs == [] then 0 else (if cs[0] == color then 1 else 0) + Count(cs[1..], color)
  }

  lemma {:induction false} CountsAddUp(cs: seq<Color>)
    ensures Count(cs, Blue) + Count(cs, White) + Count(cs, Red) == |cs|
  {
    if cs != [] {
      CountsAddUp(cs[1..]);
    }
  }

  function RedDays(rules: seq<DayRules>): nat {
    if rules == [] then 0 else (if rules[0].redOk then 1 else 0) + RedDays(rules[1..])
  }

  function WhiteDays(rules: seq<DayRules>): nat {
    if rules == [] then 0 else (if rules[0].whiteOk then 1 else 0) + WhiteDays(rules[1..])
  }

  /** The white-allowed days after the last red-allowed one: where white days are forced. */
  function WhiteRoom(rules: seq<DayRules>): nat {
    if RedDays(rules) == 0 then WhiteDays(rules) else WhiteRoom(rules[1..])
  }

  function NextWeekday(w: nat): nat { if w == 6 then 0 else w + 1 }

  /** The days up to the end of a season, the first on weekday `w`: each counts the days left
      of its kind, a day that may be red may be white, and it is no Saturday or Sunday. */
  predicate EndOfSeason(rules: seq<DayRules>, w: nat) {
    rules == [] ||
    (&& (rules[0].redOk ==> w < 5 && rules[0].whiteOk && rules[0].redLeft == RedDays(rules))
     && rules[0].whiteLeft == WhiteDays(rules)
     && EndOfSeason(rules[1..], NextWeekday(w)))
  }

  function Min(a: nat, b: nat): nat { if a <= b then a else b }

  // ---------- one day ----------

  /** Every decision is legal and backed by the stock. */
  lemma DecisionIsLegal(r: DayRules, s: StockValue, x: real)
    ensures var c := Decide(r, x, s);
            && (c == Red ==> r.redOk && s.red > 0 && s.redRun < MAX_RED_RUN)
            && (c == White ==> r.whiteOk && s.white > 0)
  {
  }

  /** A colder day is never cheaper: blue, white and red in that order. */
  lemma ColderIsNeverCheaper(r: DayRules, s: StockValue, x: real, y: real)
    requires x <= y
    ensures Index(Decide(r, x, s)) <= Index(Decide(r, y, s))
  {
  }

  /** A run no longer than the week so far is under the cap on any day that may be red. */
  lemma CapNeverBinds(rules: seq<DayRules>, w: nat, s: StockValue)
    requires rules != [] && EndOfSeason(rules, w) && s.redRun <= w
    ensures rules[0].redOk ==> s.redRun < MAX_RED_RUN
  {
  }

  // ---------- the reds ----------

  /** The reds placed are the stock or, when the days are too few for it, every red-allowed
      day. A run that fits the weekday stays so: the weekend ends it. */
  lemma {:induction false} RedsPlaced(rules: seq<DayRules>, w: nat, s: StockValue, xs: seq<real>)
    requires |rules| == |xs| && EndOfSeason(rules, w) && s.redRun <= w <= 6
    ensures Count(Colours(rules, s, xs), Red) == Min(s.red, RedDays(rules))
    decreases |xs|
  {
    if xs != [] {
      var c := Decide(rules[0], xs[0], s);
      CapNeverBinds(rules, w, s);
      DecisionIsLegal(rules[0], s, xs[0]);
      RedsPlaced(rules[1..], NextWeekday(w), Taken(s, c), xs[1..]);
    }
  }

  /** The colours of the same days by a rule that knows no cap: each is decided as if no red came
      before it. */
  function ColoursWithoutCap(rules: seq<DayRules>, s: StockValue, xs: seq<real>): (cs: seq<Color>)
    requires |rules| == |xs|
    ensures |cs| == |xs|
    decreases |xs|
  {
    if xs == [] then []
    else
      var color := Decide(rules[0], xs[0], s.(redRun := 0));
      [color] + ColoursWithoutCap(rules[1..], Taken(s, color), xs[1..])
  }

  /** To the end of a season, in every weather, the cap of five in a row decides nothing: the
      weekend ends every run before it. */
  lemma {:induction false} CapDecidesNothing(rules: seq<DayRules>, w: nat, s: StockValue, xs: seq<real>)
    requires |rules| == |xs| && EndOfSeason(rules, w) && s.redRun <= w <= 6
    ensures Colours(rules, s, xs) == ColoursWithoutCap(rules, s, xs)
    decreases |xs|
  {
    if xs != [] {
      var c := Decide(rules[0], xs[0], s);
      CapNeverBinds(rules, w, s);
      DecisionIsLegal(rules[0], s, xs[0]);
      CapDecidesNothing(rules[1..], NextWeekday(w), Taken(s, c), xs[1..]);
    }
  }

  /** With no more reds in stock, and days at least as cold, no more are left after any of them. */
  lemma {:induction false} ColderLeavesFewerReds(rules: seq<DayRules>, w: nat, s: StockValue, t: StockValue,
                                                 xs: seq<real>, ys: seq<real>, j: nat)
    requires |rules| == |xs| == |ys| && j <= |xs| && forall i :: 0 <= i < |xs| ==> xs[i] <= ys[i]
    requires EndOfSeason(rules, w) && s.redRun <= w <= 6 && t.redRun <= w && t.red <= s.red
    ensures t.red - Count(Colours(rules, t, ys)[..j], Red) <= s.red - Count(Colours(rules, s, xs)[..j], Red)
    decreases j
  {
    if j > 0 {
      var c, d := Decide(rules[0], xs[0], s), Decide(rules[0], ys[0], t);
      CapNeverBinds(rules, w, s);
      CapNeverBinds(rules, w, t);
      DecisionIsLegal(rules[0], s, xs[0]);
      DecisionIsLegal(rules[0], t, ys[0]);
      FirstDayCounts(rules, s, xs, j);
      FirstDayCounts(rules, t, ys, j);
      ColderLeavesFewerReds(rules[1..], NextWeekday(w), Taken(s, c), Taken(t, d), xs[1..], ys[1..], j - 1);
    }
  }

  lemma FirstDayCounts(rules: seq<DayRules>, s: StockValue, xs: seq<real>, j: nat)
    requires |rules| == |xs| && 0 < j <= |xs|
    ensures var c := Decide(rules[0], xs[0], s);
            Count(Colours(rules, s, xs)[..j], Red)
            == (if c == Red then 1 else 0) + Count(Colours(rules[1..], Taken(s, c), xs[1..])[..j - 1], Red)
  {
    var cs := Colours(rules, s, xs);
    assert cs[..j][1..] == cs[1..][..j - 1];
  }

  /** A season colder on every day has, after any number of days, had at least as many reds. */
  lemma ColderSpendsRedsNoLater(rules: seq<DayRules>, w: nat, s: StockValue, xs: seq<real>, ys: seq<real>, j: nat)
    requires |rules| == |xs| == |ys| && j <= |xs| && forall i :: 0 <= i < |xs| ==> xs[i] <= ys[i]
    requires EndOfSeason(rules, w) && s.redRun <= w <= 6
    ensures Count(Colours(rules, s, xs)[..j], Red) <= Count(Colours(rules, s, ys)[..j], Red)
  {
    ColderLeavesFewerReds(rules, w, s, s, xs, ys, j);
  }

  // ---------- the whites ----------

  lemma {:induction false} RoomIsWithinTheDays(rules: seq<DayRules>, w: nat)
    requires EndOfSeason(rules, w)
    ensures WhiteRoom(rules) + RedDays(rules) <= WhiteDays(rules)
  {
    if rules != [] {
      RoomIsWithinTheDays(rules[1..], NextWeekday(w));
    }
  }

  /** A white stock with room after the last red-allowed day is placed whole. */
  lemma {:induction false} WhitesPlaced(rules: seq<DayRules>, w: nat, s: StockValue, xs: seq<real>)
    requires |rules| == |xs| && EndOfSeason(rules, w)
    requires s.white <= WhiteRoom(rules)
    ensures Count(Colours(rules, s, xs), White) == s.white
    decreases |xs|
  {
    if xs != [] {
      var c := Decide(rules[0], xs[0], s);
      DecisionIsLegal(rules[0], s, xs[0]);
      WhitesPlaced(rules[1..], NextWeekday(w), Taken(s, c), xs[1..]);
    }
  }

  /** The mildest weather: every day at the white threshold of the full stock. */
  function Mild(rules: seq<DayRules>, s: StockValue): (xs: seq<real>)
    ensures |xs| == |rules|
  {
    if rules == [] then [] else [WhiteThreshold(rules[0], s)] + Mild(rules[1..], s)
  }

  lemma ThresholdRisesAsTheStockGoes(r: DayRules, s: StockValue, full: StockValue)
    requires s.red + s.white <= full.red + full.white
    ensures WhiteThreshold(r, full) <= WhiteThreshold(r, s)
  {
  }

  /** Without that room, mild weather leaves white days unplaced. */
  lemma {:induction false} WhitesLost(rules: seq<DayRules>, w: nat, s: StockValue, full: StockValue)
    requires EndOfSeason(rules, w)
    requires s.white > WhiteRoom(rules) && s.red + s.white <= full.red + full.white
    ensures Count(Colours(rules, s, Mild(rules, full)), White) < s.white
  {
    if rules != [] {
      var x := WhiteThreshold(rules[0], full);
      var c := Decide(rules[0], x, s);
      ThresholdRisesAsTheStockGoes(rules[0], s, full);
      DecisionIsLegal(rules[0], s, x);
      RoomIsWithinTheDays(rules[1..], NextWeekday(w));
      WhitesLost(rules[1..], NextWeekday(w), Taken(s, c), full);
      assert Mild(rules, full)[1..] == Mild(rules[1..], full);
    }
  }

  /** The white stock is placed whole in every weather exactly when there is room for it after
      the last red-allowed day. */
  lemma WhitesPlacedIffRoom(rules: seq<DayRules>, w: nat, s: StockValue)
    requires EndOfSeason(rules, w)
    ensures (forall xs: seq<real> | |xs| == |rules| :: Count(Colours(rules, s, xs), White) == s.white)
            <==> s.white <= WhiteRoom(rules)
  {
    if s.white <= WhiteRoom(rules) {
      forall xs: seq<real> | |xs| == |rules|
        ensures Count(Colours(rules, s, xs), White) == s.white
      {
        WhitesPlaced(rules, w, s, xs);
      }
    } else {
      WhitesLost(rules, w, s, s);
    }
  }

  /** Every colour given lies on a day that allows it. */
  lemma {:induction false} ColoursAreLegal(rules: seq<DayRules>, s: StockValue, xs: seq<real>, j: nat)
    requires |rules| == |xs| && j < |xs|
    ensures var c := Colours(rules, s, xs)[j]; (c == Red ==> rules[j].redOk) && (c == White ==> rules[j].whiteOk)
    decreases |xs|
  {
    DecisionIsLegal(rules[0], s, xs[0]);
    if j > 0 {
      ColoursAreLegal(rules[1..], Taken(s, Decide(rules[0], xs[0], s)), xs[1..], j - 1);
    }
  }

  /** No run spends more than its stock. */
  lemma {:induction false} NeverMoreThanTheStock(rules: seq<DayRules>, s: StockValue, xs: seq<real>)
    requires |rules| == |xs|
    ensures Count(Colours(rules, s, xs), Red) <= s.red
    ensures Count(Colours(rules, s, xs), White) <= s.white
    decreases |xs|
  {
    if xs != [] {
      var c := Decide(rules[0], xs[0], s);
      DecisionIsLegal(rules[0], s, xs[0]);
      NeverMoreThanTheStock(rules[1..], Taken(s, c), xs[1..]);
    }
  }

  // ---------- the weather decides ----------

  lemma {:induction false} DaysOfSum(rules: seq<DayRules>, j: nat)
    requires 0 < j <= |rules|
    ensures RedDays(rules[..j]) == (if rules[0].redOk then 1 else 0) + RedDays(rules[1..][..j - 1])
    ensures WhiteDays(rules[..j]) == (if rules[0].whiteOk then 1 else 0) + WhiteDays(rules[1..][..j - 1])
  {
    assert rules[..j][1..] == rules[1..][..j - 1];
  }

  lemma {:induction false} RedDaysAreWhiteDays(rules: seq<DayRules>, w: nat, j: nat)
    requires EndOfSeason(rules, w) && j <= |rules|
    ensures RedDays(rules[..j]) <= WhiteDays(rules[..j])
    decreases j
  {
    if j > 0 {
      DaysOfSum(rules, j);
      RedDaysAreWhiteDays(rules[1..], NextWeekday(w), j - 1);
    }
  }

  /** A reading above 4 is over both lines on any day of a season. */
  predicate Freezing(rules: seq<DayRules>, xs: seq<real>)
    requires |rules| == |xs|
  {
    forall i :: 0 <= i < |xs| ==> xs[i] > 4.0 && rules[i].day >= 0.0
  }

  /** In freezing weather the reds are exactly the first red-allowed days the stock covers, and the
      whites exactly the first white-allowed days it covers that red does not take. */
  lemma {:induction false} FreezingSeason(rules: seq<DayRules>, w: nat, s: StockValue, xs: seq<real>, j: nat)
    requires |rules| == |xs| && j < |xs| && EndOfSeason(rules, w) && s.redRun <= w <= 6 && Freezing(rules, xs)
    ensures var c := Colours(rules, s, xs)[j];
            var redsBefore, whitesBefore := RedDays(rules[..j]), WhiteDays(rules[..j]);
            && (c == Red <==> rules[j].redOk && redsBefore < s.red)
            && (c == White <==> && rules[j].whiteOk && !(rules[j].redOk && redsBefore < s.red)
                                && whitesBefore - Min(s.red, redsBefore) < s.white)
    decreases j
  {
    var c := Decide(rules[0], xs[0], s);
    CapNeverBinds(rules, w, s);
    FreezingDay(rules[0], s, xs[0]);
    if j == 0 {
      assert rules[..0] == [];
    } else {
      hide Decide;
      DaysOfSum(rules, j);
      RedDaysAreWhiteDays(rules[1..], NextWeekday(w), j - 1);
      assert Colours(rules, s, xs)[j] == Colours(rules[1..], Taken(s, c), xs[1..])[j - 1];
      FreezingSeason(rules[1..], NextWeekday(w), Taken(s, c), xs[1..], j - 1);
    }
  }

  lemma FreezingDay(r: DayRules, s: StockValue, x: real)
    requires x > 4.0 && r.day >= 0.0 && (r.redOk ==> s.redRun < MAX_RED_RUN)
    ensures var c := Decide(r, x, s);
            && (c == Red <==> r.redOk && s.red > 0)
            && (c == White <==> !(r.redOk && s.red > 0) && r.whiteOk && s.white > 0)
  {
  }

  /** Readings no higher than the red line of the full stock, in thousandths. */
  predicate BelowRedLine(rules: seq<DayRules>, s: StockValue, xs: seq<real>)
    requires |rules| == |xs|
  {
    forall i :: 0 <= i < |xs| ==> 1000.0 * xs[i] <= 3150.0 - 10.0 * rules[i].day - (31 * s.red) as real
  }

  /** Below the red line the reds are exactly the last red-allowed days. */
  lemma {:induction false} MildSeason(rules: seq<DayRules>, w: nat, s: StockValue, xs: seq<real>, j: nat)
    requires |rules| == |xs| && j < |xs| && EndOfSeason(rules, w) && s.redRun <= w <= 6
    requires BelowRedLine(rules, s, xs)
    ensures Colours(rules, s, xs)[j] == Red <==> rules[j].redOk && RedDays(rules[j..]) <= s.red
    decreases j
  {
    var c := Decide(rules[0], xs[0], s);
    CapNeverBinds(rules, w, s);
    MildDay(rules[0], s, xs[0]);
    if j == 0 {
      assert rules[0..] == rules;
    } else {
      hide Decide;
      assert rules[1..][j - 1..] == rules[j..];
      RedDaysShrink(rules, j);
      MildSeason(rules[1..], NextWeekday(w), Taken(s, c), xs[1..], j - 1);
    }
  }

  lemma MildDay(r: DayRules, s: StockValue, x: real)
    requires 1000.0 * x <= 3150.0 - 10.0 * r.day - (31 * s.red) as real
    requires r.redOk ==> s.redRun < MAX_RED_RUN && r.redLeft > 0
    ensures Decide(r, x, s) == Red <==> r.redOk && s.red >= r.redLeft
  {
  }

  lemma {:induction false} RedDaysShrink(rules: seq<DayRules>, j: nat)
    requires 0 < j <= |rules|
    ensures RedDays(rules[j..]) + (if rules[0].redOk then 1 else 0) <= RedDays(rules)
  {
    if j > 1 {
      RedDaysShrink(rules[1..], j - 1);
      assert rules[1..][j - 1..] == rules[j..];
    }
  }

  /** Readings no higher than the white line of the full stock, in thousandths. */
  predicate BelowWhiteLine(rules: seq<DayRules>, s: StockValue, xs: seq<real>)
    requires |rules| == |xs|
  {
    forall i :: 0 <= i < |xs| ==> 1000.0 * xs[i] <= 4000.0 - 15.0 * rules[i].day - (26 * (s.red + s.white)) as real
  }

  /** Below the white line, with room for them, the whites are exactly the last white-allowed days. */
  lemma {:induction false} MildWhites(rules: seq<DayRules>, w: nat, s: StockValue, xs: seq<real>, j: nat)
    requires |rules| == |xs| && j < |xs| && EndOfSeason(rules, w) && s.white <= WhiteRoom(rules)
    requires BelowWhiteLine(rules, s, xs)
    ensures Colours(rules, s, xs)[j] == White <==> rules[j].whiteOk && WhiteDays(rules[j..]) <= s.white
    decreases j
  {
    var c := Decide(rules[0], xs[0], s);
    RoomIsWithinTheDays(rules, w);
    WhiteRoomIsLeft(rules, s);
    MildWhiteDay(rules[0], s, xs[0]);
    if j == 0 {
      assert rules[0..] == rules;
    } else {
      hide Decide;
      assert rules[1..][j - 1..] == rules[j..];
      WhiteDaysShrink(rules, j);
      MildWhites(rules[1..], NextWeekday(w), Taken(s, c), xs[1..], j - 1);
    }
  }

  lemma WhiteRoomIsLeft(rules: seq<DayRules>, s: StockValue)
    requires rules != [] && s.white <= WhiteRoom(rules)
    ensures if s.white > WhiteRoom(rules[1..]) then rules[0].whiteOk && s.white == WhiteDays(rules) else true
    ensures rules[0].redOk ==> s.white <= WhiteRoom(rules[1..])
  {
  }

  lemma MildWhiteDay(r: DayRules, s: StockValue, x: real)
    requires 1000.0 * x <= 4000.0 - 15.0 * r.day - (26 * (s.red + s.white)) as real
    ensures Decide(r, x, s) == White <==> r.whiteOk && !r.redOk && s.white > 0 && s.white >= r.whiteLeft
  {
  }

  lemma {:induction false} WhiteDaysShrink(rules: seq<DayRules>, j: nat)
    requires 0 < j <= |rules|
    ensures WhiteDays(rules[j..]) + (if rules[0].whiteOk then 1 else 0) <= WhiteDays(rules)
  {
    if j > 1 {
      WhiteDaysShrink(rules[1..], j - 1);
      assert rules[1..][j - 1..] == rules[j..];
    }
  }

  // ---------- runs of reds ----------

  /** The reds at the end of `cs`, after a run of `run` before it. */
  function RunAfter(run: nat, cs: seq<Color>): nat
    decreases |cs|
  {
    if cs == [] then run else RunAfter(if cs[0] == Red then run + 1 else 0, cs[1..])
  }

  /** After any number of days the run of reds is at most five, for any days at all. */
  lemma {:induction false} RunsAreCapped(rules: seq<DayRules>, s: StockValue, xs: seq<real>, j: nat)
    requires |rules| == |xs| && j <= |xs| && s.redRun <= 5
    ensures RunAfter(s.redRun, Colours(rules, s, xs)[..j]) <= 5
    decreases |xs|
  {
    if j > 0 {
      var c := Decide(rules[0], xs[0], s);
      DecisionIsLegal(rules[0], s, xs[0]);
      RunsAreCapped(rules[1..], Taken(s, c), xs[1..], j - 1);
      var tail := Colours(rules[1..], Taken(s, c), xs[1..]);
      assert Colours(rules, s, xs) == [c] + tail;
      assert Colours(rules, s, xs)[..j] == [c] + tail[..j - 1];
    }
  }

  predicate SixReds(cs: seq<Color>, j: nat)
    requires j + 6 <= |cs|
  {
    forall k :: j <= k < j + 6 ==> cs[k] == Red
  }

  /** Of six days in a row, one at least is not red. */
  predicate NoSixReds(cs: seq<Color>) {
    forall j :: 0 <= j && j + 6 <= |cs| ==> !SixReds(cs, j)
  }

  lemma {:induction false} SixRedsShow(run: nat, cs: seq<Color>, j: nat)
    requires j + 6 <= |cs| && SixReds(cs, j)
    ensures RunAfter(run, cs[..j + 6]) >= 6
    decreases j
  {
    hide RunAfter;
    OneMoreInTheRun(run, cs[..j + 6]);
    var next := if cs[0] == Red then run + 1 else 0;
    if j > 0 {
      SixRedsShow(next, cs[1..], j - 1);
      assert cs[..j + 6][1..] == cs[1..][..j + 5];
    } else {
      AllReds(run, cs[..6]);
    }
  }

  lemma OneMoreInTheRun(run: nat, cs: seq<Color>)
    requires cs != []
    ensures RunAfter(run, cs) == RunAfter(if cs[0] == Red then run + 1 else 0, cs[1..])
  {
  }

  lemma {:induction false} AllReds(run: nat, cs: seq<Color>)
    requires forall k :: 0 <= k < |cs| ==> cs[k] == Red
    ensures RunAfter(run, cs) == run + |cs|
    decreases |cs|
  {
    if cs != [] {
      AllReds(run + 1, cs[1..]);
    }
  }

  /** Any days at all, from a run of five or less, are never red six times in a row. */
  lemma NeverSixReds(rules: seq<DayRules>, s: StockValue, xs: seq<real>)
    requires |rules| == |xs| && s.redRun <= 5
    ensures NoSixReds(Colours(rules, s, xs))
  {
    hide Colours, RunAfter, SixReds;
    var cs := Colours(rules, s, xs);
    forall j | 0 <= j && j + 6 <= |cs|
      ensures !SixReds(cs, j)
    {
      RunsAreCapped(rules, s, xs, j + 6);
      if SixReds(cs, j) {
        SixRedsShow(s.redRun, cs, j);
      }
    }
  }
}
