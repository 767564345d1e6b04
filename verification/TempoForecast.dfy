/** The Monte Carlo forecast: the rules run over the days ahead for each draw of an
    autoregressive error, the colours counted by day, and the week it is shown in. */
module TempoForecast {
  import opened TempoRules
  import opened TempoSeason

  /** A day to simulate: its rules, the expected net consumption and its error. */
  datatype Ahead = Ahead(rules: DayRules, x: real, sigma: real)

  /** How a day's error follows the day before's: what it keeps of it, and the weight of what is new. */
  datatype Noise = Noise(rho: real, innovation: real)

  function RulesAhead(days: seq<Ahead>): (rules: seq<DayRules>)
    ensures |rules| == |days|
  {
    seq(|days|, i requires 0 <= i < |days| => days[i].rules)
  }

  /** A day's error: new on the first day, then partly the day before's. */
  function NextError(first: bool, z: real, noise: Noise, normal: real): real {
    if first then normal else noise.rho * z + noise.innovation * normal
  }

  function Disturbed(day: Ahead, error: real): real {
    day.x + day.sigma * error
  }

  /** The net consumptions of one run. */
  function Drawn(days: seq<Ahead>, noise: Noise, normals: seq<real>, z: real, first: bool): (xs: seq<real>)
    requires |days| == |normals|
    ensures |xs| == |days|
    decreases |days|
  {
    if days == [] then []
    else
      var error := NextError(first, z, noise, normals[0]);
      [Disturbed(days[0], error)] + Drawn(days[1..], noise, normals[1..], error, false)
  }

  /** The colours of one run. */
  function RunColours(days: seq<Ahead>, stock: StockValue, noise: Noise, normals: seq<real>): (cs: seq<Color>)
    requires |days| == |normals|
    ensures |cs| == |days|
  {
    Colours(RulesAhead(days), stock, Drawn(days, noise, normals, 0.0, true))
  }

  /** How many runs gave day `i` the colour. */
  function Tally(days: seq<Ahead>, stock: StockValue, noise: Noise, draws: seq<seq<real>>, i: nat, color: Color): nat
    requires i < |days| && forall r :: 0 <= r < |draws| ==> |draws[r]| == |days|
    decreases |draws|
  {
    if draws == [] then 0
    else
      var last := |draws| - 1;
      (if RunColours(days, stock, noise, draws[last])[i] == color then 1 else 0)
      + Tally(days, stock, noise, draws[..last], i, color)
  }

  // ---------- the loops ----------

  /** Where a run stands before day `i`: what is left to draw and to decide is the tail of the
      whole run's. */
  ghost predicate Underway(days: seq<Ahead>, noise: Noise, normals: seq<real>,
                           xs: seq<real>, cs: seq<Color>, i: nat, z: real, s: StockValue)
    requires |days| == |normals| == |xs| == |cs| && i <= |days|
  {
    && Drawn(days[i..], noise, normals[i..], z, i == 0) == xs[i..]
    && Colours(RulesAhead(days[i..]), s, xs[i..]) == cs[i..]
  }

  lemma OneMoreDay(days: seq<Ahead>, noise: Noise, normals: seq<real>,
                   xs: seq<real>, cs: seq<Color>, i: nat, z: real, s: StockValue)
    requires |days| == |normals| == |xs| == |cs| && i < |days|
    requires Underway(days, noise, normals, xs, cs, i, z, s)
    ensures var z' := NextError(i == 0, z, noise, normals[i]);
            var color := Decide(days[i].rules, Disturbed(days[i], z'), s);
            color == cs[i] && Underway(days, noise, normals, xs, cs, i + 1, z', Taken(s, color))
  {
    hide Decide, NextError, Disturbed;
    var z' := NextError(i == 0, z, noise, normals[i]);
    assert days[i..][1..] == days[i + 1..] && normals[i..][1..] == normals[i + 1..];
    assert xs[i..][1..] == xs[i + 1..] && cs[i..][1..] == cs[i + 1..];
    assert RulesAhead(days[i..])[1..] == RulesAhead(days[i + 1..]);
    assert xs[i..][0] == xs[i] == Disturbed(days[i], z');
    assert RulesAhead(days[i..])[0] == days[i].rules;
    assert cs[i..][0] == cs[i];
    assert Drawn(days[i..], noise, normals[i..], z, i == 0)[1..]
        == Drawn(days[i + 1..], noise, normals[i + 1..], z', false);
    assert Colours(RulesAhead(days[i..]), s, xs[i..])[1..]
        == Colours(RulesAhead(days[i + 1..]), Taken(s, cs[i]), xs[i + 1..]);
  }

  /** One run: each day's colour is counted once. */
  method CountOneRun(counts: array2<nat>, days: seq<Ahead>, stock: StockValue, noise: Noise, normals: seq<real>)
    requires |days| == |normals| && counts.Length0 == |days| && counts.Length1 == 3
    modifies counts
    ensures var cs := RunColours(days, stock, noise, normals);
            forall i, j :: 0 <= i < |days| && 0 <= j < 3 ==>
              counts[i, j] == old(counts[i, j]) + if cs[i] == ALL[j] then 1 else 0
  {
    var s := new Stock.Copy(stock);
    var z := 0.0;
    ghost var xs := Drawn(days, noise, normals, 0.0, true);
    ghost var cs := RunColours(days, stock, noise, normals);
    assert days[0..] == days && normals[0..] == normals && xs[0..] == xs && cs[0..] == cs;
    for i := 0 to |days|
      invariant fresh(s) && Underway(days, noise, normals, xs, cs, i, z, s.Value())
      invariant forall k, j :: 0 <= k < |days| && 0 <= j < 3 ==>
                  counts[k, j] == old(counts[k, j]) + if k < i && cs[k] == ALL[j] then 1 else 0
    {
      hide Decide, Underway, Drawn, Colours, RunColours, RulesAhead, NextError, Disturbed;
      OneMoreDay(days, noise, normals, xs, cs, i, z, s.Value());
      z := NextError(i == 0, z, noise, normals[i]);
      var color := Decide(days[i].rules, Disturbed(days[i], z), s.Value());
      counts[i, Index(color)] := counts[i, Index(color)] + 1;
      s.Take(color);
    }
  }

  /** The counts of each day's colours over the runs, one run per sequence of draws. */
  method CountRuns(days: seq<Ahead>, stock: StockValue, noise: Noise, draws: seq<seq<real>>)
    returns (counts: array2<nat>)
    requires forall r :: 0 <= r < |draws| ==> |draws[r]| == |days|
    ensures fresh(counts) && counts.Length0 == |days| && counts.Length1 == 3
    ensures forall i, j :: 0 <= i < |days| && 0 <= j < 3 ==>
              counts[i, j] == Tally(days, stock, noise, draws, i, ALL[j])
  {
    counts := new nat[|days|, 3]((i, j) => 0);
    for r := 0 to |draws|
      invariant forall i, j :: 0 <= i < |days| && 0 <= j < 3 ==>
                  counts[i, j] == Tally(days, stock, noise, draws[..r], i, ALL[j])
    {
      assert draws[..r + 1][..r] == draws[..r];
      CountOneRun(counts, days, stock, noise, draws[r]);
    }
    assert draws[..|draws|] == draws;
  }

  function MaxOne(n: int): (m: nat)
    ensures m >= 1 && (n >= 1 ==> m == n)
  {
    if n < 1 then 1 else n
  }

  function Share(count: nat, runs: nat): real {
    count as real / MaxOne(runs) as real
  }

  /** A day's probabilities: the shares of the runs that gave it each colour. */
  function Shares(days: seq<Ahead>, stock: StockValue, noise: Noise, draws: seq<seq<real>>, i: nat): (p: seq<real>)
    requires i < |days| && forall r :: 0 <= r < |draws| ==> |draws[r]| == |days|
    ensures |p| == 3
  {
    [Share(Tally(days, stock, noise, draws, i, Blue), |draws|),
     Share(Tally(days, stock, noise, draws, i, White), |draws|),
     Share(Tally(days, stock, noise, draws, i, Red), |draws|)]
  }

  /** The probabilities of each day's colours. */
  method Simulate(days: seq<Ahead>, stock: StockValue, noise: Noise, draws: seq<seq<real>>)
    returns (p: seq<seq<real>>)
    requires forall r :: 0 <= r < |draws| ==> |draws[r]| == |days|
    ensures |p| == |days| && forall i :: 0 <= i < |days| ==> p[i] == Shares(days, stock, noise, draws, i)
  {
    hide Tally;
    var counts := CountRuns(days, stock, noise, draws);
    p := [];
    for i := 0 to |days|
      invariant |p| == i && forall k :: 0 <= k < i ==> p[k] == Shares(days, stock, noise, draws, k)
      invariant forall k, j :: 0 <= k < |days| && 0 <= j < 3 ==>
                  counts[k, j] == Tally(days, stock, noise, draws, k, ALL[j])
    {
      var runs := |draws|;
      assert counts[i, 0] == Tally(days, stock, noise, draws, i, ALL[0]);
      assert counts[i, 1] == Tally(days, stock, noise, draws, i, ALL[1]);
      assert counts[i, 2] == Tally(days, stock, noise, draws, i, ALL[2]);
      p := p + [[Share(counts[i, 0], runs), Share(counts[i, 1], runs), Share(counts[i, 2], runs)]];
    }
  }

  // ---------- conservation ----------

  /** Each day's counts add up to the runs. */
  lemma {:induction false} CountsSumToTheRuns(days: seq<Ahead>, stock: StockValue, noise: Noise,
                                              draws: seq<seq<real>>, i: nat)
    requires i < |days| && forall r :: 0 <= r < |draws| ==> |draws[r]| == |days|
    ensures Tally(days, stock, noise, draws, i, Blue) + Tally(days, stock, noise, draws, i, White)
            + Tally(days, stock, noise, draws, i, Red) == |draws|
    decreases |draws|
  {
    hide RunColours;
    if draws != [] {
      CountsSumToTheRuns(days, stock, noise, draws[..|draws| - 1], i);
    }
  }

  /** No run ever gives a day a colour its calendar forbids: a Sunday is blue in all of them. */
  lemma {:induction false} ForbiddenColoursAreNeverCounted(days: seq<Ahead>, stock: StockValue, noise: Noise,
                                                           draws: seq<seq<real>>, i: nat)
    requires i < |days| && forall r :: 0 <= r < |draws| ==> |draws[r]| == |days|
    ensures !days[i].rules.redOk ==> Tally(days, stock, noise, draws, i, Red) == 0
    ensures !days[i].rules.whiteOk ==> Tally(days, stock, noise, draws, i, White) == 0
    decreases |draws|
  {
    if draws != [] {
      var normals := draws[|draws| - 1];
      ColoursAreLegal(RulesAhead(days), stock, Drawn(days, noise, normals, 0.0, true), i);
      hide Colours, Drawn;
      ForbiddenColoursAreNeverCounted(days, stock, noise, draws[..|draws| - 1], i);
    }
  }

  /** A day's probabilities add up when anything was drawn, and are none for a forbidden colour. */
  lemma SharesOfADay(days: seq<Ahead>, stock: StockValue, noise: Noise, draws: seq<seq<real>>, i: nat)
    requires i < |days| && forall r :: 0 <= r < |draws| ==> |draws[r]| == |days|
    ensures var p := Shares(days, stock, noise, draws, i);
            && (draws != [] ==> p[0] + p[1] + p[2] == 1.0)
            && (!days[i].rules.redOk ==> p[2] == 0.0) && (!days[i].rules.whiteOk ==> p[1] == 0.0)
  {
    hide Tally;
    CountsSumToTheRuns(days, stock, noise, draws, i);
    ForbiddenColoursAreNeverCounted(days, stock, noise, draws, i);
    SharesAddUp(Tally(days, stock, noise, draws, i, Blue), Tally(days, stock, noise, draws, i, White),
                Tally(days, stock, noise, draws, i, Red), |draws|);
  }

  lemma SharesAddUp(blue: nat, white: nat, red: nat, runs: nat)
    requires blue + white + red == runs
    ensures runs > 0 ==> Share(blue, runs) + Share(white, runs) + Share(red, runs) == 1.0
  {
  }

  /** The counts of a colour over the first `n` days. */
  function TallyOver(days: seq<Ahead>, stock: StockValue, noise: Noise, draws: seq<seq<real>>, n: nat,
                     color: Color): nat
    requires n <= |days| && forall r :: 0 <= r < |draws| ==> |draws[r]| == |days|
  {
    if n == 0 then 0
    else TallyOver(days, stock, noise, draws, n - 1, color) + Tally(days, stock, noise, draws, n - 1, color)
  }

  lemma {:induction false} CountAppend(cs: seq<Color>, n: nat, color: Color)
    requires n < |cs|
    ensures Count(cs[..n + 1], color) == Count(cs[..n], color) + if cs[n] == color then 1 else 0
  {
    if n > 0 {
      CountAppend(cs[1..], n - 1, color);
      assert cs[..n + 1][1..] == cs[1..][..n] && cs[..n][1..] == cs[1..][..n - 1];
    }
  }

  lemma {:induction false} OverTheDaysOneRunMore(days: seq<Ahead>, stock: StockValue, noise: Noise,
                                                 draws: seq<seq<real>>, n: nat, color: Color)
    requires n <= |days| && draws != [] && forall r :: 0 <= r < |draws| ==> |draws[r]| == |days|
    ensures var last := |draws| - 1;
            TallyOver(days, stock, noise, draws, n, color)
            == TallyOver(days, stock, noise, draws[..last], n, color)
               + Count(RunColours(days, stock, noise, draws[last])[..n], color)
    decreases n
  {
    hide RunColours;
    if n > 0 {
      OverTheDaysOneRunMore(days, stock, noise, draws, n - 1, color);
      CountAppend(RunColours(days, stock, noise, draws[|draws| - 1]), n - 1, color);
    }
  }

  lemma {:induction false} NoDaysCounted(days: seq<Ahead>, stock: StockValue, noise: Noise, n: nat, color: Color)
    requires n <= |days|
    ensures TallyOver(days, stock, noise, [], n, color) == 0
    decreases n
  {
    if n > 0 {
      NoDaysCounted(days, stock, noise, n - 1, color);
    }
  }

  /** Over all the days, the red counts never exceed the runs times the red stock, nor the
      white counts the runs times the white one. */
  lemma {:induction false} CountsRespectTheStock(days: seq<Ahead>, stock: StockValue, noise: Noise,
                                                 draws: seq<seq<real>>)
    requires forall r :: 0 <= r < |draws| ==> |draws[r]| == |days|
    ensures TallyOver(days, stock, noise, draws, |days|, Red) <= |draws| * stock.red
    ensures TallyOver(days, stock, noise, draws, |days|, White) <= |draws| * stock.white
    decreases |draws|
  {
    if draws == [] {
      NoDaysCounted(days, stock, noise, |days|, Red);
      NoDaysCounted(days, stock, noise, |days|, White);
    } else {
      var last := |draws| - 1;
      OverTheDaysOneRunMore(days, stock, noise, draws, |days|, Red);
      OverTheDaysOneRunMore(days, stock, noise, draws, |days|, White);
      NeverMoreThanTheStock(RulesAhead(days), stock, Drawn(days, noise, draws[last], 0.0, true));
      CountsRespectTheStock(days, stock, noise, draws[..last]);
      var cs := RunColours(days, stock, noise, draws[last]);
      assert cs[..|days|] == cs;
      assert |draws| * stock.red == last * stock.red + stock.red;
      assert |draws| * stock.white == last * stock.white + stock.white;
    }
  }

  // ---------- the likeliest colour ----------

  /** The colour of largest probability; among equals, the last in price. */
  method Likeliest(p: seq<real>) returns (best: Color)
    requires |p| == 3
    ensures forall c :: p[Index(c)] <= p[Index(best)]
    ensures forall c :: p[Index(c)] == p[Index(best)] ==> Index(c) <= Index(best)
  {
    best := Blue;
    for k := 0 to 3
      invariant forall c :: Index(c) < k ==> p[Index(c)] <= p[Index(best)]
      invariant forall c :: Index(c) < k && p[Index(c)] == p[Index(best)] ==> Index(c) <= Index(best)
      invariant Index(best) < k || best == Blue
    {
      var color := ALL[k];
      if p[Index(color)] >= p[Index(best)] {
        best := color;
      }
    }
  }
}
