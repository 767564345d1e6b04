/** What the random draws do to a forecast: the net consumptions of a run in closed form, and
    the colours they can give an open day. */
module TempoDraws {
  import opened TempoRules
  import opened TempoForecast

  // ---------- the draws in closed form ----------

  function Power(base: real, k: nat): real {
    if k == 0 then 1.0 else base * Power(base, k - 1)
  }

  /** The draws, each times the correlation to the power of its age. */
  function Aged(rho: real, normals: seq<real>): real {
    if normals == [] then 0.0 else Power(rho, |normals| - 1) * normals[0] + Aged(rho, normals[1..])
  }

  /** An expectation, off by an error. */
  function Off(x: real, sigma: real, error: real): real { x + sigma * error }

  lemma DisturbedIsOff(day: Ahead, error: real)
    ensures Disturbed(day, error) == Off(day.x, day.sigma, error)
  {
  }

  /** The first day of a run, and the days after it. */
  lemma FirstOf(days: seq<Ahead>, noise: Noise, normals: seq<real>, z: real, first: bool)
    requires |days| == |normals| > 0
    ensures var error, xs := NextError(first, z, noise, normals[0]), Drawn(days, noise, normals, z, first);
            && xs[0] == Off(days[0].x, days[0].sigma, error)
            && xs[1..] == Drawn(days[1..], noise, normals[1..], error, false)
  {
    hide Off, NextError, Disturbed;
    DisturbedIsOff(days[0], NextError(first, z, noise, normals[0]));
  }

  /** An error that is a fading one and the draws since. */
  function Faded(noise: Noise, z: real, k: nat, since: seq<real>): real {
    Power(noise.rho, k) * z + noise.innovation * Aged(noise.rho, since)
  }

  lemma OffByFaded(x: real, sigma: real, noise: Noise, z: real, k: nat, since: seq<real>)
    ensures Off(x, sigma, Faded(noise, z, k, since))
         == x + sigma * (Power(noise.rho, k) * z + noise.innovation * Aged(noise.rho, since))
  {
    hide Power, Aged;
  }

  lemma Regroup(p: real, rho: real, z: real, w: real, n: real, rest: real)
    ensures p * (rho * z + w * n) + w * rest == rho * p * z + w * (p * n + rest)
  {
    assert p * (rho * z) == rho * p * z && p * (w * n) == w * (p * n);
    Distribute(p, rho * z, w * n);
    Distribute(w, p * n, rest);
  }

  lemma Distribute(w: real, a: real, b: real)
    ensures w * (a + b) == w * a + w * b
  {
  }

  /** One day on, the error fades once more and a draw is added. */
  lemma FadedOneDay(noise: Noise, z: real, normals: seq<real>, i: nat)
    requires i < |normals|
    ensures var z' := NextError(false, z, noise, normals[0]);
            Faded(noise, z', i, normals[1..][..i]) == Faded(noise, z, i + 1, normals[..i + 1])
  {
    var drawn := normals[..i + 1];
    assert drawn[0] == normals[0] && drawn[1..] == normals[1..][..i];
    Regroup(Power(noise.rho, i), noise.rho, z, noise.innovation, normals[0], Aged(noise.rho, drawn[1..]));
  }

  lemma FadedOnce(noise: Noise, z: real, n: real)
    ensures Faded(noise, z, 1, [n]) == NextError(false, z, noise, n)
  {
    assert Power(noise.rho, 1) == noise.rho && [n][1..] == [] && Aged(noise.rho, [n]) == n;
  }

  /** A run taken up after an error: it fades by the correlation each day, as every draw does. */
  lemma {:induction false} DrawnAfterAnError(days: seq<Ahead>, noise: Noise, normals: seq<real>, z: real, i: nat)
    requires |days| == |normals| && i < |days|
    ensures Drawn(days, noise, normals, z, false)[i]
         == Off(days[i].x, days[i].sigma, Faded(noise, z, i + 1, normals[..i + 1]))
    decreases i
  {
    hide Faded, Power, Aged, Off, Drawn;
    FirstOf(days, noise, normals, z, false);
    if i == 0 {
      hide NextError;
      assert normals[..i + 1] == [normals[0]];
      FadedOnce(noise, z, normals[0]);
    } else {
      hide NextError;
      var z' := NextError(false, z, noise, normals[0]);
      DrawnAfterAnError(days[1..], noise, normals[1..], z', i - 1);
      FadedOneDay(noise, z, normals, i);
      assert Drawn(days, noise, normals, z, false)[i] == Drawn(days, noise, normals, z, false)[1..][i - 1];
    }
  }

  /** Day `i` of a run is its expectation plus its error times the first draw faded `i` times and
      the later ones, each weighted as what is new and faded since. */
  lemma DrawnInClosedForm(days: seq<Ahead>, noise: Noise, normals: seq<real>, i: nat)
    requires |days| == |normals| && i < |days|
    ensures Drawn(days, noise, normals, 0.0, true)[i]
         == days[i].x + days[i].sigma
            * (Power(noise.rho, i) * normals[0] + noise.innovation * Aged(noise.rho, normals[1..i + 1]))
  {
    hide Power, Aged, Off, Drawn, Faded;
    DrawnIsFaded(days, noise, normals, i);
    OffByFaded(days[i].x, days[i].sigma, noise, normals[0], i, normals[1..i + 1]);
  }

  lemma DrawnIsFaded(days: seq<Ahead>, noise: Noise, normals: seq<real>, i: nat)
    requires |days| == |normals| && i < |days|
    ensures Drawn(days, noise, normals, 0.0, true)[i]
         == Off(days[i].x, days[i].sigma, Faded(noise, normals[0], i, normals[1..i + 1]))
  {
    hide Power, Aged, Off, Drawn, NextError, Faded;
    assert normals[1..i + 1] == normals[1..][..i];
    FirstOf(days, noise, normals, 0.0, true);
    FirstErrorIsTheDraw(noise, normals[0]);
    if i > 0 {
      DrawnAfterAnError(days[1..], noise, normals[1..], normals[0], i - 1);
      assert Drawn(days, noise, normals, 0.0, true)[i] == Drawn(days, noise, normals, 0.0, true)[1..][i - 1];
    }
  }

  lemma FirstErrorIsTheDraw(noise: Noise, n: real)
    ensures NextError(true, 0.0, noise, n) == n == Faded(noise, n, 0, [])
  {
  }

  // ---------- a draw decides an open day ----------

  /** The stock a run comes to a day with. */
  function StockAt(rules: seq<DayRules>, s: StockValue, xs: seq<real>, i: nat): StockValue
    requires |rules| == |xs| && i <= |xs|
    decreases i
  {
    if i == 0 then s else StockAt(rules[1..], Taken(s, Decide(rules[0], xs[0], s)), xs[1..], i - 1)
  }

  lemma {:induction false} ColourAt(rules: seq<DayRules>, s: StockValue, xs: seq<real>, i: nat)
    requires |rules| == |xs| && i < |xs|
    ensures Colours(rules, s, xs)[i] == Decide(rules[i], xs[i], StockAt(rules, s, xs, i))
    decreases i
  {
    hide Decide;
    if i > 0 {
      ColourAt(rules[1..], Taken(s, Decide(rules[0], xs[0], s)), xs[1..], i - 1);
    }
  }

  lemma {:induction false} StockLooksBack(rules: seq<DayRules>, s: StockValue, xs: seq<real>, ys: seq<real>, i: nat)
    requires |rules| == |xs| == |ys| && i <= |xs| && xs[..i] == ys[..i]
    ensures StockAt(rules, s, xs, i) == StockAt(rules, s, ys, i)
    decreases i
  {
    hide Decide;
    if i > 0 {
      assert xs[0] == xs[..i][0] && ys[0] == ys[..i][0];
      assert xs[1..][..i - 1] == xs[..i][1..] && ys[1..][..i - 1] == ys[..i][1..];
      StockLooksBack(rules[1..], Taken(s, Decide(rules[0], xs[0], s)), xs[1..], ys[1..], i - 1);
    }
  }

  lemma {:induction false} DrawsLookBack(days: seq<Ahead>, noise: Noise, normals: seq<real>, z: real, first: bool,
                                         i: nat, n: real)
    requires |days| == |normals| && i < |days|
    ensures Drawn(days, noise, normals[i := n], z, first)[..i] == Drawn(days, noise, normals, z, first)[..i]
    decreases i
  {
    if i > 0 {
      var changed := normals[i := n];
      assert changed[1..] == normals[1..][i - 1 := n];
      var error := NextError(first, z, noise, normals[0]);
      DrawsLookBack(days[1..], noise, normals[1..], error, false, i - 1, n);
      var a, b := Drawn(days, noise, changed, z, first), Drawn(days, noise, normals, z, first);
      assert a[1..][..i - 1] == b[1..][..i - 1];
      assert a[..i] == [a[0]] + a[1..][..i - 1] && b[..i] == [b[0]] + b[1..][..i - 1];
    }
  }

  /** How much of a day's own draw goes into its error. */
  function Weight(noise: Noise, first: bool, i: nat): real {
    if first && i == 0 then 1.0 else noise.innovation
  }

  function Line(base: real, w: real, n: real): real { base + w * n }

  /** The part of a day's error that its own draw does not make. */
  function Base(noise: Noise, normals: seq<real>, z: real, first: bool, i: nat): real
    requires i < |normals|
    decreases i
  {
    if i > 0 then Base(noise, normals[1..], NextError(first, z, noise, normals[0]), false, i - 1)
    else if first then 0.0 else noise.rho * z
  }

  /** A day's net consumption follows its own draw in a straight line. */
  lemma {:induction false} OwnDraw(days: seq<Ahead>, noise: Noise, normals: seq<real>, z: real, first: bool,
                                   i: nat, n: real)
    requires |days| == |normals| && i < |days|
    ensures Drawn(days, noise, normals[i := n], z, first)[i]
         == Off(days[i].x, days[i].sigma, Line(Base(noise, normals, z, first, i), Weight(noise, first, i), n))
    decreases i
  {
    hide Off, Drawn;
    var changed := normals[i := n];
    FirstOf(days, noise, changed, z, first);
    if i == 0 {
      hide Base;
      OwnFirstDraw(noise, normals, z, first, n);
    } else {
      hide NextError, Line;
      assert changed[1..] == normals[1..][i - 1 := n];
      OwnDraw(days[1..], noise, normals[1..], NextError(first, z, noise, normals[0]), false, i - 1, n);
      assert Drawn(days, noise, changed, z, first)[i] == Drawn(days, noise, changed, z, first)[1..][i - 1];
    }
  }

  lemma OwnFirstDraw(noise: Noise, normals: seq<real>, z: real, first: bool, n: real)
    requires normals != []
    ensures NextError(first, z, noise, n) == Line(Base(noise, normals, z, first, 0), Weight(noise, first, 0), n)
  {
  }

  /** The draw that puts a day on a line, or a step above it. */
  lemma Reach(x: real, sigma: real, base: real, w: real, line: real, above: real) returns (n: real)
    requires sigma > 0.0 && w > 0.0
    ensures Off(x, sigma, Line(base, w, n)) == line + sigma * (w * above)
  {
    var t := (line - x) / sigma;
    assert sigma * t == line - x;
    n := (t - base) / w + above;
    assert w * ((t - base) / w) == t - base;
    Distribute(w, (t - base) / w, above);
    assert base + w * n == t + w * above;
    Distribute(sigma, t, w * above);
  }

  /** A day of a forecast that red is open on: may be red, with fewer reds left than days for them. */
  predicate OpenToRed(r: DayRules, s: StockValue) {
    r.redOk && 0 < s.red < r.redLeft && s.redRun < MAX_RED_RUN
  }

  lemma OpenDayByTheLine(r: DayRules, s: StockValue, x: real)
    requires OpenToRed(r, s)
    ensures Decide(r, x, s) == Red <==> x > RedThreshold(r, s)
  {
  }

  /** Whatever the other draws, a day's own decides whether it is red, as long as red is open and the
      day's error counts for something: one draw makes it red, another does not. */
  lemma ADrawDecides(days: seq<Ahead>, stock: StockValue, noise: Noise, normals: seq<real>, i: nat)
    returns (red: real, other: real)
    requires |days| == |normals| && i < |days| && days[i].sigma > 0.0 && (i == 0 || noise.innovation > 0.0)
    requires OpenToRed(days[i].rules, StockAt(RulesAhead(days), stock, Drawn(days, noise, normals, 0.0, true), i))
    ensures RunColours(days, stock, noise, normals[i := red])[i] == Red
    ensures RunColours(days, stock, noise, normals[i := other])[i] != Red
  {
    hide Decide, Colours, Drawn, RedThreshold, RunColours, StockAt, OpenToRed, Off, Base, Line;
    var day := days[i];
    var s := StockAt(RulesAhead(days), stock, Drawn(days, noise, normals, 0.0, true), i);
    var base, w, line := Base(noise, normals, 0.0, true, i), Weight(noise, true, i), RedThreshold(day.rules, s);
    red := Reach(day.x, day.sigma, base, w, line, 1.0);
    other := Reach(day.x, day.sigma, base, w, line, 0.0);
    ProductIsPositive(day.sigma, w);
    OwnDraw(days, noise, normals, 0.0, true, i, red);
    OwnDraw(days, noise, normals, 0.0, true, i, other);
    ColourOfDraw(days, stock, noise, normals, i, red);
    ColourOfDraw(days, stock, noise, normals, i, other);
  }

  lemma ProductIsPositive(a: real, b: real)
    requires a > 0.0 && b > 0.0
    ensures a * (b * 1.0) > 0.0 && a * (b * 0.0) == 0.0
  {
  }

  /** The colour of a day with its own draw changed: the stock is what it was, the line too. */
  lemma ColourOfDraw(days: seq<Ahead>, stock: StockValue, noise: Noise, normals: seq<real>, i: nat, n: real)
    requires |days| == |normals| && i < |days|
    requires OpenToRed(days[i].rules, StockAt(RulesAhead(days), stock, Drawn(days, noise, normals, 0.0, true), i))
    ensures var s := StockAt(RulesAhead(days), stock, Drawn(days, noise, normals, 0.0, true), i);
            RunColours(days, stock, noise, normals[i := n])[i] == Red
            <==> Drawn(days, noise, normals[i := n], 0.0, true)[i] > RedThreshold(days[i].rules, s)
  {
    hide Decide, Colours, Drawn, RedThreshold, StockAt;
    var rules := RulesAhead(days);
    var xs, ys := Drawn(days, noise, normals, 0.0, true), Drawn(days, noise, normals[i := n], 0.0, true);
    DrawsLookBack(days, noise, normals, 0.0, true, i, n);
    StockLooksBack(rules, stock, ys, xs, i);
    ColourAt(rules, stock, ys, i);
    OpenDayByTheLine(days[i].rules, StockAt(rules, stock, xs, i), ys[i]);
  }
}
