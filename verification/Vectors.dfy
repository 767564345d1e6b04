/** Vectors of reals: scalar products and the sum of a vector and a multiple of another. */
module Vectors {
  type Vector = seq<real>

  /** The scalar product over the coordinates from `k` on. */
  function DotFrom(u: Vector, v: Vector, k: nat): real
    requires |u| == |v| && k <= |u|
    decreases |u| - k
  {
    if k == |u| then 0.0 else u[k] * v[k] + DotFrom(u, v, k + 1)
  }

  function Dot(u: Vector, v: Vector): real
    requires |u| == |v|
  {
    DotFrom(u, v, 0)
  }

  /** u + f p */
  function Axpy(u: Vector, f: real, p: Vector): (w: Vector)
    requires |u| == |p|
    ensures |w| == |u|
  {
    seq(|u|, j requires 0 <= j < |u| => u[j] + f * p[j])
  }

  function Zero(n: nat): (v: Vector)
    ensures |v| == n
  {
    seq(n, j => 0.0)
  }

  lemma {:induction false} DotAxpyFrom(u: Vector, f: real, p: Vector, v: Vector, k: nat)
    requires |u| == |p| == |v| && k <= |u|
    ensures DotFrom(Axpy(u, f, p), v, k) == DotFrom(u, v, k) + f * DotFrom(p, v, k)
    decreases |u| - k
  {
    if k < |u| {
      DotAxpyFrom(u, f, p, v, k + 1);
      Distribute(u[k], f, p[k], v[k], DotFrom(p, v, k + 1));
    }
  }

  lemma Distribute(a: real, f: real, b: real, c: real, d: real)
    ensures (a + f * b) * c == a * c + f * (b * c)
    ensures f * (b * c + d) == f * (b * c) + f * d
  {
  }

  lemma DotAxpy(u: Vector, f: real, p: Vector, v: Vector)
    requires |u| == |p| == |v|
    ensures Dot(Axpy(u, f, p), v) == Dot(u, v) + f * Dot(p, v)
  {
    DotAxpyFrom(u, f, p, v, 0);
  }

  lemma {:induction false} DotCommutesFrom(u: Vector, v: Vector, k: nat)
    requires |u| == |v| && k <= |u|
    ensures DotFrom(u, v, k) == DotFrom(v, u, k)
    decreases |u| - k
  {
    if k < |u| {
      DotCommutesFrom(u, v, k + 1);
    }
  }

  lemma DotCommutes(u: Vector, v: Vector)
    requires |u| == |v|
    ensures Dot(u, v) == Dot(v, u)
  {
    DotCommutesFrom(u, v, 0);
  }

  /** Changing one coordinate changes the product by its share. */
  lemma {:induction false} DotUpdateFrom(u: Vector, v: Vector, j: nat, t: real, k: nat)
    requires |u| == |v| && j < |u| && k <= |u|
    ensures DotFrom(u, v[j := t], k) == DotFrom(u, v, k) + if k <= j then u[j] * (t - v[j]) else 0.0
    decreases |u| - k
  {
    if k < |u| {
      DotUpdateFrom(u, v, j, t, k + 1);
    }
  }

  /** Coordinates with a zero on either side contribute nothing. */
  lemma {:induction false} DotSkipsZeros(u: Vector, v: Vector, k: nat, m: nat)
    requires |u| == |v| && k <= m <= |u|
    requires forall j :: k <= j < m ==> u[j] == 0.0 || v[j] == 0.0
    ensures DotFrom(u, v, k) == DotFrom(u, v, m)
    decreases m - k
  {
    if k < m {
      DotSkipsZeros(u, v, k + 1, m);
    }
  }

  lemma ProductOfEquals(x: real, y: real)
    requires x == y
    ensures x * y >= 0.0
    ensures x < 0.0 || x > 0.0 ==> x * y > 0.0
  {
  }

  lemma {:induction false} SquareIsPositiveFrom(u: Vector, v: Vector, k: nat)
    requires u == v && k <= |v|
    ensures DotFrom(u, v, k) >= 0.0
    ensures forall j :: k <= j < |v| && (v[j] < 0.0 || v[j] > 0.0) ==> DotFrom(u, v, k) > 0.0
    decreases |v| - k
  {
    if k < |v| {
      SquareIsPositiveFrom(u, v, k + 1);
      ProductOfEquals(u[k], v[k]);
      var p := u[k] * v[k];
      assert DotFrom(u, v, k) == p + DotFrom(u, v, k + 1);
      assert v[k] < 0.0 || v[k] > 0.0 ==> p > 0.0;
    }
  }

  /** |v|² is positive, and zero for the zero vector alone. */
  lemma SquareIsPositive(v: Vector)
    ensures Dot(v, v) >= 0.0
    ensures Dot(v, v) == 0.0 ==> v == Zero(|v|)
  {
    SquareIsPositiveFrom(v, v, 0);
    if Dot(v, v) == 0.0 {
      forall j | 0 <= j < |v|
        ensures v[j] == 0.0
      {
        assert !(v[j] < 0.0 || v[j] > 0.0);
      }
    }
  }

  lemma DotZero(u: Vector)
    ensures Dot(u, Zero(|u|)) == 0.0
  {
    DotSkipsZeros(u, Zero(|u|), 0, |u|);
  }
}
