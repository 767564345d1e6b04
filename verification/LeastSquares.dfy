/** Ridge least squares by the normal equations: the system is never singular, and its solution
    is the one minimiser of the squared residuals plus the ridge. */
module LeastSquares {
  import opened Bytes
  import opened Vectors
  import opened LinearSolve

  const RIDGE := 0.001

  // ---------- the sums over the rows ----------

  /** The sum of the rows, each times its weight. */
  function Combine(xs: seq<Vector>, weights: Vector, n: nat): (v: Vector)
    requires |xs| == |weights| && forall r :: 0 <= r < |xs| ==> |xs[r]| == n
    ensures |v| == n
  {
    if xs == [] then Zero(n)
    else
      var last := |xs| - 1;
      Axpy(Combine(xs[..last], weights[..last], n), weights[last], xs[last])
  }

  /** Each row's product with `v`. */
  function Products(xs: seq<Vector>, v: Vector): (ps: Vector)
    requires forall r :: 0 <= r < |xs| ==> |xs[r]| == |v|
    ensures |ps| == |xs|
  {
    seq(|xs|, r requires 0 <= r < |xs| => Dot(xs[r], v))
  }

  function Column(xs: seq<Vector>, i: nat): (c: Vector)
    requires forall r :: 0 <= r < |xs| ==> i < |xs[r]|
    ensures |c| == |xs|
  {
    seq(|xs|, r requires 0 <= r < |xs| => xs[r][i])
  }

  /** Row `i` of the normal matrix, before the ridge. */
  function GramRow(xs: seq<Vector>, i: nat, n: nat): (row: Vector)
    requires i < n && forall r :: 0 <= r < |xs| ==> |xs[r]| == n
    ensures |row| == n
  {
    Combine(xs, Column(xs, i), n)
  }

  function NormalMatrix(xs: seq<Vector>, n: nat): (a: Matrix)
    requires forall r :: 0 <= r < |xs| ==> |xs[r]| == n
    ensures |a| == n && forall i :: 0 <= i < n ==> |a[i]| == n
  {
    seq(n, i requires 0 <= i < n => var g := GramRow(xs, i, n); g[i := g[i] + RIDGE])
  }

  // ---------- what is minimised ----------

  function Residuals(xs: seq<Vector>, ys: Vector, beta: Vector): (es: Vector)
    requires |xs| == |ys| && forall r :: 0 <= r < |xs| ==> |xs[r]| == |beta|
    ensures |es| == |xs|
  {
    Axpy(ys, -1.0, Products(xs, beta))
  }

  /** The squared residuals plus the ridge. */
  function Cost(xs: seq<Vector>, ys: Vector, beta: Vector): real
    requires |xs| == |ys| && forall r :: 0 <= r < |xs| ==> |xs[r]| == |beta|
  {
    var es := Residuals(xs, ys, beta);
    Dot(es, es) + RIDGE * Dot(beta, beta)
  }

  // ---------- exchanging the sums ----------

  lemma {:induction false} DotAppendFrom(u: Vector, v: Vector, x: real, y: real, k: nat)
    requires |u| == |v| && k <= |u|
    ensures DotFrom(u + [x], v + [y], k) == DotFrom(u, v, k) + x * y
    decreases |u| - k
  {
    if k < |u| {
      DotAppendFrom(u, v, x, y, k + 1);
    } else {
      assert DotFrom(u + [x], v + [y], k + 1) == 0.0;
    }
  }

  /** Summing the weighted rows then multiplying by `v`, or the other way round. */
  lemma {:induction false} CombineDot(xs: seq<Vector>, weights: Vector, v: Vector)
    requires |xs| == |weights| && forall r :: 0 <= r < |xs| ==> |xs[r]| == |v|
    ensures Dot(Combine(xs, weights, |v|), v) == Dot(weights, Products(xs, v))
    decreases |xs|
  {
    if xs == [] {
      DotCommutes(Zero(|v|), v);
      DotZero(v);
    } else {
      var last := |xs| - 1;
      CombineDot(xs[..last], weights[..last], v);
      DotAxpy(Combine(xs[..last], weights[..last], |v|), weights[last], xs[last], v);
      var ps := Products(xs, v);
      assert ps == Products(xs[..last], v) + [Dot(xs[last], v)];
      assert weights == weights[..last] + [weights[last]];
      DotAppendFrom(weights[..last], Products(xs[..last], v), weights[last], Dot(xs[last], v), 0);
    }
  }

  lemma {:induction false} CombineAt(xs: seq<Vector>, weights: Vector, i: nat, n: nat)
    requires |xs| == |weights| && i < n && forall r :: 0 <= r < |xs| ==> |xs[r]| == n
    ensures Combine(xs, weights, n)[i] == Dot(Column(xs, i), weights)
    decreases |xs|
  {
    if xs != [] {
      var last := |xs| - 1;
      CombineAt(xs[..last], weights[..last], i, n);
      assert Column(xs, i) == Column(xs[..last], i) + [xs[last][i]];
      assert weights == weights[..last] + [weights[last]];
      DotAppendFrom(Column(xs[..last], i), weights[..last], xs[last][i], weights[last], 0);
    }
  }

  /** The normal matrix times v: the rows combined by their products with v, plus the ridge. */
  lemma NormalTimes(xs: seq<Vector>, v: Vector, i: nat)
    requires i < |v| && forall r :: 0 <= r < |xs| ==> |xs[r]| == |v|
    ensures Dot(NormalMatrix(xs, |v|)[i], v) == Dot(Column(xs, i), Products(xs, v)) + RIDGE * v[i]
  {
    var g := GramRow(xs, i, |v|);
    CombineDot(xs, Column(xs, i), v);
    DotCommutes(g[i := g[i] + RIDGE], v);
    DotUpdateFrom(v, g, i, g[i] + RIDGE, 0);
    DotCommutes(g, v);
  }

  // ---------- the normal equations ----------

  /** The ridge keeps the normal matrix from ever being singular. */
  lemma NormalIsNonSingular(xs: seq<Vector>, n: nat)
    requires forall r :: 0 <= r < |xs| ==> |xs[r]| == n
    ensures NonSingular(NormalMatrix(xs, n))
  {
    var a := NormalMatrix(xs, n);
    forall v: Vector | |v| == n && Solves(a, Zero(n), v)
      ensures v == Zero(n)
    {
      var ps := Products(xs, v);
      var c := Axpy(Combine(xs, ps, n), RIDGE, v);
      forall i | 0 <= i < n
        ensures c[i] == 0.0
      {
        NormalTimes(xs, v, i);
        CombineAt(xs, ps, i, n);
        assert Dot(a[i], v) == 0.0;
      }
      DotSkipsZeros(c, v, 0, n);
      DotAxpy(Combine(xs, ps, n), RIDGE, v, v);
      CombineDot(xs, ps, v);
      SquareIsPositive(ps);
      SquareIsPositive(v);
    }
  }

  /** At a solution of the normal equations the rows combined by the residuals are the ridge
      times the coefficients. */
  lemma ResidualsBalance(xs: seq<Vector>, ys: Vector, beta: Vector)
    requires |xs| == |ys| && forall r :: 0 <= r < |xs| ==> |xs[r]| == |beta|
    requires Solves(NormalMatrix(xs, |beta|), Combine(xs, ys, |beta|), beta)
    ensures forall i :: 0 <= i < |beta| ==> Combine(xs, Residuals(xs, ys, beta), |beta|)[i] == RIDGE * beta[i]
  {
    var n, es, ps := |beta|, Residuals(xs, ys, beta), Products(xs, beta);
    forall i | 0 <= i < n
      ensures Combine(xs, es, n)[i] == RIDGE * beta[i]
    {
      NormalTimes(xs, beta, i);
      CombineAt(xs, ys, i, n);
      CombineAt(xs, es, i, n);
      DotCommutes(Column(xs, i), es);
      DotAxpy(ys, -1.0, ps, Column(xs, i));
      DotCommutes(ps, Column(xs, i));
      DotCommutes(ys, Column(xs, i));
      assert Dot(NormalMatrix(xs, n)[i], beta) == Combine(xs, ys, n)[i];
    }
  }

  /** |u + f p|² */
  lemma SquareOfSum(u: Vector, f: real, p: Vector)
    requires |u| == |p|
    ensures var w := Axpy(u, f, p); Dot(w, w) == Dot(u, u) + 2.0 * f * Dot(u, p) + f * f * Dot(p, p)
  {
    var w := Axpy(u, f, p);
    DotAxpy(u, f, p, w);
    DotCommutes(u, w);
    DotCommutes(p, w);
    DotAxpy(u, f, p, u);
    DotAxpy(u, f, p, p);
    DotCommutes(p, u);
    Expand(f, Dot(u, p), Dot(p, p));
  }

  lemma Expand(f: real, a: real, b: real)
    ensures f * a + f * (a + f * b) == 2.0 * f * a + f * f * b
  {
  }

  lemma ProductsOfSum(xs: seq<Vector>, u: Vector, d: Vector)
    requires |u| == |d| && forall r :: 0 <= r < |xs| ==> |xs[r]| == |u|
    ensures Products(xs, Axpy(u, 1.0, d)) == Axpy(Products(xs, u), 1.0, Products(xs, d))
  {
    forall r | 0 <= r < |xs|
      ensures Dot(xs[r], Axpy(u, 1.0, d)) == Dot(xs[r], u) + Dot(xs[r], d)
    {
      DotCommutes(xs[r], Axpy(u, 1.0, d));
      DotAxpy(u, 1.0, d, xs[r]);
      DotCommutes(xs[r], u);
      DotCommutes(xs[r], d);
    }
  }

  /** The residuals' products with a move's products are the ridge's share of the move. */
  lemma MixedTermsCancel(xs: seq<Vector>, ys: Vector, beta: Vector, d: Vector)
    requires |xs| == |ys| && |d| == |beta| && forall r :: 0 <= r < |xs| ==> |xs[r]| == |beta|
    requires Solves(NormalMatrix(xs, |beta|), Combine(xs, ys, |beta|), beta)
    ensures Dot(Residuals(xs, ys, beta), Products(xs, d)) == RIDGE * Dot(beta, d)
  {
    hide Dot, Solves, NormalMatrix, Combine, Products, Residuals;
    var es := Residuals(xs, ys, beta);
    ResidualsBalance(xs, ys, beta);
    CombineDot(xs, es, d);
    ProportionalDot(Combine(xs, es, |beta|), RIDGE, beta, d);
  }

  lemma ProportionalDot(u: Vector, f: real, p: Vector, v: Vector)
    requires |u| == |p| == |v| && forall i :: 0 <= i < |u| ==> u[i] == f * p[i]
    ensures Dot(u, v) == f * Dot(p, v)
  {
    DotAxpy(Zero(|u|), f, p, v);
    forall i | 0 <= i < |u|
      ensures Axpy(Zero(|u|), f, p)[i] == u[i]
    {
    }
    assert Axpy(Zero(|u|), f, p) == u;
    DotCommutes(Zero(|v|), v);
    DotZero(v);
  }

  lemma ResidualsOfSum(xs: seq<Vector>, ys: Vector, beta: Vector, d: Vector)
    requires |xs| == |ys| && |d| == |beta| && forall r :: 0 <= r < |xs| ==> |xs[r]| == |beta|
    ensures Residuals(xs, ys, Axpy(beta, 1.0, d)) == Axpy(Residuals(xs, ys, beta), -1.0, Products(xs, d))
  {
    ProductsOfSum(xs, beta, d);
  }

  /** Moving by `d` from a solution of the normal equations costs the squares of its products
      and the ridge of its own square. */
  lemma CostAround(xs: seq<Vector>, ys: Vector, beta: Vector, d: Vector)
    requires |xs| == |ys| && |d| == |beta| && forall r :: 0 <= r < |xs| ==> |xs[r]| == |beta|
    requires Solves(NormalMatrix(xs, |beta|), Combine(xs, ys, |beta|), beta)
    ensures var ps := Products(xs, d);
            Cost(xs, ys, Axpy(beta, 1.0, d)) == Cost(xs, ys, beta) + Dot(ps, ps) + 0.001 * Dot(d, d)
  {
    hide Dot, Products, Residuals, Solves, NormalMatrix, Combine, Axpy;
    ResidualsOfSum(xs, ys, beta, d);
    SquareOfSum(Residuals(xs, ys, beta), -1.0, Products(xs, d));
    SquareOfSum(beta, 1.0, d);
    MixedTermsCancel(xs, ys, beta, d);
  }

  /** The solution of the normal equations costs less than every other choice. */
  lemma SolutionIsTheMinimiser(xs: seq<Vector>, ys: Vector, beta: Vector, other: Vector)
    requires |xs| == |ys| && |other| == |beta| && forall r :: 0 <= r < |xs| ==> |xs[r]| == |beta|
    requires Solves(NormalMatrix(xs, |beta|), Combine(xs, ys, |beta|), beta)
    ensures Cost(xs, ys, beta) <= Cost(xs, ys, other)
    ensures Cost(xs, ys, beta) == Cost(xs, ys, other) ==> other == beta
  {
    var d := Axpy(other, -1.0, beta);
    ThereAndBack(beta, other);
    hide Dot, Products, Residuals, Solves, NormalMatrix, Combine, Axpy, Cost, Zero;
    CostAround(xs, ys, beta, d);
    SquareIsPositive(Products(xs, d));
    SquareIsPositive(d);
  }

  lemma ThereAndBack(u: Vector, v: Vector)
    requires |u| == |v|
    ensures var d := Axpy(v, -1.0, u); Axpy(u, 1.0, d) == v && (d == Zero(|u|) ==> v == u)
  {
    var d := Axpy(v, -1.0, u);
    if d == Zero(|u|) {
      forall k | 0 <= k < |u|
        ensures v[k] == u[k]
      {
        assert d[k] == 0.0;
      }
    }
  }

  // ---------- the algorithm ----------

  lemma {:induction false} CombineStep(xs: seq<Vector>, weights: Vector, m: nat, n: nat)
    requires m < |xs| == |weights| && forall r :: 0 <= r < |xs| ==> |xs[r]| == n
    ensures Combine(xs[..m + 1], weights[..m + 1], n) == Axpy(Combine(xs[..m], weights[..m], n), weights[m], xs[m])
  {
    assert xs[..m + 1][..m] == xs[..m] && weights[..m + 1][..m] == weights[..m];
  }

  /** `f` times a row added to another, an entry at a time. */
  method AddRow(target: Vector, f: real, row: Vector) returns (sum: Vector)
    requires |target| == |row|
    ensures sum == Axpy(target, f, row)
  {
    sum := target;
    for j := 0 to |row|
      invariant |sum| == |row|
      invariant forall k :: 0 <= k < j ==> sum[k] == target[k] + f * row[k]
      invariant forall k :: j <= k < |row| ==> sum[k] == target[k]
    {
      sum := sum[j := sum[j] + f * row[j]];
    }
    forall k | 0 <= k < |row|
      ensures sum[k] == Axpy(target, f, row)[k]
    {
    }
  }

  /** Adds one row and its target to the normal equations. */
  method AddSample(a: array<Vector>, b: array<real>, row: Vector, target: real)
    requires a.Length == b.Length == |row| && forall i :: 0 <= i < a.Length ==> |a[i]| == |row|
    modifies a, b
    ensures forall i :: 0 <= i < a.Length ==> a[i] == Axpy(old(a[i]), row[i], row)
    ensures forall i :: 0 <= i < b.Length ==> b[i] == old(b[i]) + row[i] * target
  {
    for i := 0 to |row|
      invariant forall k :: 0 <= k < |row| ==> a[k] == if k < i then Axpy(old(a[k]), row[k], row) else old(a[k])
      invariant forall k :: 0 <= k < |row| ==> b[k] == if k < i then old(b[k]) + row[k] * target else old(b[k])
    {
      b[i] := b[i] + row[i] * target;
      a[i] := AddRow(a[i], row[i], row);
    }
  }

  /** The normal equations of the rows, accumulated row by row. */
  method Accumulate(xs: seq<Vector>, ys: Vector, n: nat) returns (a: array<Vector>, b: array<real>)
    requires |xs| == |ys| && forall r :: 0 <= r < |xs| ==> |xs[r]| == n
    ensures fresh(a) && fresh(b) && a[..] == NormalMatrix(xs, n) && b[..] == Combine(xs, ys, n)
  {
    hide Combine, Axpy, GramRow, NormalMatrix;
    a := new Vector[n](i => Zero(n));
    b := new real[n](i => 0.0);
    NoSample(xs, ys, n);
    for r := 0 to |xs|
      invariant fresh(a) && fresh(b) && a.Length == b.Length == n
      invariant forall i :: 0 <= i < n ==> a[i] == GramRow(xs[..r], i, n)
      invariant forall i :: 0 <= i < n ==> b[i] == Combine(xs[..r], ys[..r], n)[i]
    {
      AddSample(a, b, xs[r], ys[r]);
      SampleStep(xs, ys, r, n);
    }
    assert xs[..|xs|] == xs && ys[..|ys|] == ys;
    AddRidge(a, xs, n);
    assert b[..] == Combine(xs, ys, n);
  }

  lemma NoSample(xs: seq<Vector>, ys: Vector, n: nat)
    requires |xs| == |ys| && forall r :: 0 <= r < |xs| ==> |xs[r]| == n
    ensures forall i :: 0 <= i < n ==> GramRow(xs[..0], i, n) == Zero(n)
    ensures Combine(xs[..0], ys[..0], n) == Zero(n)
  {
  }

  /** Adds the ridge to the diagonal. */
  method AddRidge(a: array<Vector>, ghost xs: seq<Vector>, n: nat)
    requires a.Length == n && forall r :: 0 <= r < |xs| ==> |xs[r]| == n
    requires forall i :: 0 <= i < n ==> a[i] == GramRow(xs, i, n)
    modifies a
    ensures a[..] == NormalMatrix(xs, n)
  {
    hide GramRow;
    for i := 0 to n
      invariant forall k :: 0 <= k < n ==> a[k] == if k < i then NormalMatrix(xs, n)[k] else GramRow(xs, k, n)
    {
      a[i] := a[i][i := a[i][i] + RIDGE];
    }
  }

  /** One more row in the normal equations. */
  lemma SampleStep(xs: seq<Vector>, ys: Vector, r: nat, n: nat)
    requires r < |xs| == |ys| && forall k :: 0 <= k < |xs| ==> |xs[k]| == n
    ensures forall i :: 0 <= i < n ==> GramRow(xs[..r + 1], i, n) == Axpy(GramRow(xs[..r], i, n), xs[r][i], xs[r])
    ensures forall i :: 0 <= i < n ==>
              Combine(xs[..r + 1], ys[..r + 1], n)[i] == Combine(xs[..r], ys[..r], n)[i] + xs[r][i] * ys[r]
  {
    CombineStep(xs, ys, r, n);
    forall i | 0 <= i < n
      ensures GramRow(xs[..r + 1], i, n) == Axpy(GramRow(xs[..r], i, n), xs[r][i], xs[r])
    {
      CombineStep(xs, Column(xs, i), r, n);
      assert Column(xs, i)[..r + 1] == Column(xs[..r + 1], i) && Column(xs, i)[..r] == Column(xs[..r], i);
    }
  }

  /** The rows and targets paired, the excess of either dropped. */
  function Pairs(xs: seq<Vector>, ys: Vector): (p: (seq<Vector>, Vector))
    ensures |p.0| == |p.1| && p.0 <= xs && p.1 <= ys && (|p.0| == |xs| || |p.1| == |ys|)
  {
    var m := if |xs| <= |ys| then |xs| else |ys|;
    (xs[..m], ys[..m])
  }

  /** The coefficients that cost least, and all others more. */
  ghost predicate Minimises(xs: seq<Vector>, ys: Vector, beta: Vector)
    requires |xs| == |ys| && forall r :: 0 <= r < |xs| ==> |xs[r]| == |beta|
  {
    forall other: Vector | |other| == |beta| ::
      Cost(xs, ys, beta) <= Cost(xs, ys, other) && (Cost(xs, ys, other) == Cost(xs, ys, beta) ==> other == beta)
  }

  /** The normal equations, solved. */
  method Coefficients(xs: seq<Vector>, ys: Vector, n: nat) returns (beta: Vector)
    requires |xs| == |ys| && forall r :: 0 <= r < |xs| ==> |xs[r]| == n
    ensures |beta| == n && Minimises(xs, ys, beta)
  {
    hide Combine, NormalMatrix, Cost, Solves, NonSingular;
    var a, b := Accumulate(xs, ys, n);
    NormalIsNonSingular(xs, n);
    var x := Solve(a, b);
    beta := x.value;
    forall other: Vector | |other| == n
      ensures Cost(xs, ys, beta) <= Cost(xs, ys, other)
      ensures Cost(xs, ys, other) == Cost(xs, ys, beta) ==> other == beta
    {
      SolutionIsTheMinimiser(xs, ys, beta, other);
    }
  }

  /** The coefficients of the pairs, and the mean of their squared residuals (whose square root is
      the deviation the program keeps); no mean when there is no pair. */
  method Fit(xs: seq<Vector>, ys: Vector) returns (beta: Vector, variance: Option<real>)
    requires xs != [] && forall r :: 0 <= r < |xs| ==> |xs[r]| == |xs[0]|
    ensures |beta| == |xs[0]|
    ensures var (rows, targets) := Pairs(xs, ys);
            && Minimises(rows, targets, beta)
            && (variance == None <==> rows == [])
            && (variance.Some? ==>
                  variance.value * |rows| as real
                  == Dot(Residuals(rows, targets, beta), Residuals(rows, targets, beta)))
  {
    hide Minimises, Dot, Residuals;
    var (rows, targets) := Pairs(xs, ys);
    beta := Coefficients(rows, targets, |xs[0]|);
    var squares := SumOfSquares(rows, targets, beta);
    variance := if rows == [] then None else Some(squares / |rows| as real);
  }

  /** The sum of the squared residuals. */
  method SumOfSquares(xs: seq<Vector>, ys: Vector, beta: Vector) returns (squares: real)
    requires |xs| == |ys| && forall r :: 0 <= r < |xs| ==> |xs[r]| == |beta|
    ensures squares == Dot(Residuals(xs, ys, beta), Residuals(xs, ys, beta))
  {
    squares := 0.0;
    for r := 0 to |xs|
      invariant squares + DotFrom(Residuals(xs, ys, beta), Residuals(xs, ys, beta), r)
             == Dot(Residuals(xs, ys, beta), Residuals(xs, ys, beta))
    {
      var residual := ys[r] - Dot(xs[r], beta);
      squares := squares + residual * residual;
    }
  }
}
