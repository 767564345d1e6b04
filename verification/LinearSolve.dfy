/** Gaussian elimination with partial pivoting, in place: the unique solution of every
    non-singular system, and none exactly for the singular ones. */
module LinearSolve {
  import opened Bytes
  import opened Vectors

  type Matrix = seq<Vector>

  ghost predicate IsSquare(a: Matrix, n: nat) {
    |a| == n && forall i :: 0 <= i < n ==> |a[i]| == n
  }

  /** a x = b */
  ghost predicate Solves(a: Matrix, b: Vector, x: Vector) {
    |a| == |b| && forall i :: 0 <= i < |a| ==> |a[i]| == |x| && Dot(a[i], x) == b[i]
  }

  /** Only the zero vector is sent to zero. */
  ghost predicate NonSingular(a: Matrix) {
    forall v: Vector | |v| == |a| && Solves(a, Zero(|a|), v) :: v == Zero(|a|)
  }

  /** Two systems of `n` equations with the same solutions, the right-hand sides scaled by any
      `t`: with t = 1 the systems themselves, with t = 0 their kernels. */
  ghost predicate SameSolutions(n: nat, a: Matrix, b: Vector, a': Matrix, b': Vector)
    requires IsSquare(a, n) && IsSquare(a', n) && |b| == n && |b'| == n
  {
    forall x: Vector, t: real | |x| == n :: Satisfies(a, b, x, t) <==> Satisfies(a', b', x, t)
  }

  /** a x = t b */
  ghost predicate Satisfies(a: Matrix, b: Vector, x: Vector, t: real)
    requires IsSquare(a, |x|) && |b| == |x|
  {
    forall i :: 0 <= i < |a| ==> Dot(a[i], x) == t * b[i]
  }

  // ---------- the two row operations ----------

  function Swap<T>(s: seq<T>, i: nat, j: nat): (r: seq<T>)
    requires i < |s| && j < |s|
    ensures |r| == |s|
  {
    s[i := s[j]][j := s[i]]
  }

  lemma SwapKeepsSolutions(n: nat, a: Matrix, b: Vector, i: nat, j: nat)
    requires IsSquare(a, n) && |b| == n && i < n && j < n
    ensures SameSolutions(n, a, b, Swap(a, i, j), Swap(b, i, j))
  {
    forall x: Vector, t: real | |x| == n
      ensures Satisfies(a, b, x, t) <==> Satisfies(Swap(a, i, j), Swap(b, i, j), x, t)
    {
      var a', b' := Swap(a, i, j), Swap(b, i, j);
      if Satisfies(a', b', x, t) {
        forall k | 0 <= k < n
          ensures Dot(a[k], x) == t * b[k]
        {
          var k' := if k == i then j else if k == j then i else k;
          assert a'[k'] == a[k] && b'[k'] == b[k];
        }
      }
    }
  }

  /** Taking `f` times row `col` from row `row`. */
  lemma EliminationKeepsSolutions(n: nat, a: Matrix, b: Vector, row: nat, col: nat, f: real)
    requires IsSquare(a, n) && |b| == n && row < n && col < n && row != col
    ensures SameSolutions(n, a, b, a[row := Axpy(a[row], -f, a[col])], b[row := b[row] - f * b[col]])
  {
    var a', b' := a[row := Axpy(a[row], -f, a[col])], b[row := b[row] - f * b[col]];
    forall x: Vector, t: real | |x| == n
      ensures Satisfies(a, b, x, t) <==> Satisfies(a', b', x, t)
    {
      DotAxpy(a[row], -f, a[col], x);
      assert a'[col] == a[col] && b'[col] == b[col];
      assert forall k :: 0 <= k < n && k != row ==> a'[k] == a[k] && b'[k] == b[k];
      if Dot(a[col], x) == t * b[col] {
        ScaledDifference(Dot(a[row], x), Dot(a[col], x), f, t, b[row], b[col]);
      }
      OneRowApart(a, b, a', b', x, t, row, col);
    }
  }

  /** Two systems that differ in one row agree on `x` when that row does, or another fails. */
  lemma OneRowApart(a: Matrix, b: Vector, a': Matrix, b': Vector, x: Vector, t: real, row: nat, col: nat)
    requires IsSquare(a, |x|) && IsSquare(a', |x|) && |b| == |b'| == |x| && row < |x| && col < |x| && row != col
    requires forall k :: 0 <= k < |x| && k != row ==> a'[k] == a[k] && b'[k] == b[k]
    requires Dot(a[col], x) == t * b[col] ==> (Dot(a[row], x) == t * b[row] <==> Dot(a'[row], x) == t * b'[row])
    ensures Satisfies(a, b, x, t) <==> Satisfies(a', b', x, t)
  {
    assert a'[col] == a[col] && b'[col] == b[col];
    if Satisfies(a, b, x, t) {
      forall k | 0 <= k < |x|
        ensures Dot(a'[k], x) == t * b'[k]
      {
        assert Dot(a[k], x) == t * b[k];
        assert Dot(a[col], x) == t * b[col];
      }
    }
    if Satisfies(a', b', x, t) {
      forall k | 0 <= k < |x|
        ensures Dot(a[k], x) == t * b[k]
      {
        assert Dot(a'[k], x) == t * b'[k];
        assert Dot(a'[col], x) == t * b'[col];
      }
    }
  }

  lemma ScaledDifference(p: real, q: real, f: real, t: real, b: real, c: real)
    requires q == t * c
    ensures p + -f * q == t * (b - f * c) <==> p == t * b
  {
    assert f * (t * c) == t * (f * c);
  }

  lemma SameSolutionsChain(n: nat, a: Matrix, b: Vector, a': Matrix, b': Vector, a'': Matrix, b'': Vector)
    requires IsSquare(a, n) && IsSquare(a', n) && IsSquare(a'', n) && |b| == |b'| == |b''| == n
    requires SameSolutions(n, a, b, a', b') && SameSolutions(n, a', b', a'', b'')
    ensures SameSolutions(n, a, b, a'', b'')
  {
  }

  // ---------- triangular systems ----------

  /** Below the diagonal the first `cols` columns are zero; on it they are not. */
  ghost predicate Eliminated(a: Matrix, n: nat, cols: nat)
    requires IsSquare(a, n) && cols <= n
  {
    && (forall i, k :: 0 <= k < cols && k < i < n ==> a[i][k] == 0.0)
    && (forall k :: 0 <= k < cols ==> a[k][k] != 0.0)
  }

  /** Solving row `row` for its diagonal unknown leaves the rows below as they are. */
  lemma SolveOneRow(a: Matrix, n: nat, row: nat, x: Vector, target: real) returns (x': Vector)
    requires IsSquare(a, n) && row < n && |x| == n && a[row][row] != 0.0
    requires forall i :: row < i < n ==> a[i][row] == 0.0
    ensures x' == x[row := x[row] + (target - Dot(a[row], x)) / a[row][row]]
    ensures Dot(a[row], x') == target
    ensures forall i :: row < i < n ==> Dot(a[i], x') == Dot(a[i], x)
  {
    var t := x[row] + (target - Dot(a[row], x)) / a[row][row];
    x' := x[row := t];
    DotUpdateFrom(a[row], x, row, t, 0);
    assert a[row][row] * (t - x[row]) == target - Dot(a[row], x);
    forall i | row < i < n
      ensures Dot(a[i], x') == Dot(a[i], x)
    {
      DotUpdateFrom(a[i], x, row, t, 0);
    }
  }

  /** A column with no pivot left gives a non-zero vector the matrix sends to zero. */
  lemma {:induction false} KernelVector(a: Matrix, n: nat, col: nat, row: nat) returns (v: Vector)
    requires IsSquare(a, n) && row <= col < n && Eliminated(a, n, col)
    requires forall i :: col <= i < n ==> a[i][col] == 0.0
    ensures |v| == n && v[col] == 1.0
    ensures forall k :: 0 <= k < row || col < k < n ==> v[k] == 0.0
    ensures forall i :: row <= i < n ==> Dot(a[i], v) == 0.0
    decreases col - row
  {
    if row == col {
      v := Zero(n)[col := 1.0];
      forall i | row <= i < n
        ensures Dot(a[i], v) == 0.0
      {
        DotSkipsZeros(a[i], v, 0, n);
      }
    } else {
      var w := KernelVector(a, n, col, row + 1);
      v := SolveOneRow(a, n, row, w, 0.0);
    }
  }

  lemma NoPivotNoInverse(a: Matrix, n: nat, col: nat)
    requires IsSquare(a, n) && col < n && Eliminated(a, n, col)
    requires forall i :: col <= i < n ==> a[i][col] == 0.0
    ensures !NonSingular(a)
  {
    var v := KernelVector(a, n, col, 0);
    assert Solves(a, Zero(n), v);
    assert v[col] != Zero(n)[col];
  }

  /** With its whole diagonal non-zero a triangular matrix sends only zero to zero. */
  lemma {:induction false} TriangularZeros(a: Matrix, n: nat, v: Vector, row: nat)
    requires IsSquare(a, n) && Eliminated(a, n, n) && |v| == n && row <= n
    requires forall i :: 0 <= i < n ==> Dot(a[i], v) == 0.0
    ensures forall k :: row <= k < n ==> v[k] == 0.0
    decreases n - row
  {
    if row < n {
      TriangularZeros(a, n, v, row + 1);
      DotSkipsZeros(a[row], v, 0, row);
      DotSkipsZeros(a[row], v, row + 1, n);
      assert a[row][row] * v[row] == 0.0;
    }
  }

  lemma TriangularIsNonSingular(a: Matrix, n: nat)
    requires IsSquare(a, n) && Eliminated(a, n, n)
    ensures NonSingular(a)
  {
    forall v: Vector | |v| == |a| && Solves(a, Zero(|a|), v)
      ensures v == Zero(|a|)
    {
      TriangularZeros(a, n, v, 0);
    }
  }

  // ---------- carrying the answer back ----------

  lemma SolutionsCarry(n: nat, a: Matrix, b: Vector, a': Matrix, b': Vector)
    requires IsSquare(a, n) && IsSquare(a', n) && |b| == |b'| == n && SameSolutions(n, a, b, a', b')
    ensures NonSingular(a) <==> NonSingular(a')
    ensures forall x: Vector :: |x| == n ==> (Solves(a, b, x) <==> Solves(a', b', x))
  {
    forall x: Vector | |x| == n
      ensures Solves(a, b, x) <==> Solves(a', b', x)
      ensures Solves(a, Zero(n), x) <==> Solves(a', Zero(n), x)
    {
      assert Satisfies(a, b, x, 1.0) <==> Satisfies(a', b', x, 1.0);
      assert Satisfies(a, b, x, 0.0) <==> Satisfies(a', b', x, 0.0);
      AtScaleOne(a, b, x);
      AtScaleOne(a', b', x);
    }
  }

  lemma AtScaleOne(a: Matrix, b: Vector, x: Vector)
    requires IsSquare(a, |x|) && |b| == |x|
    ensures Satisfies(a, b, x, 1.0) <==> Solves(a, b, x)
    ensures Satisfies(a, b, x, 0.0) <==> Solves(a, Zero(|x|), x)
  {
  }

  /** A non-singular system has one solution at most. */
  lemma SolutionIsUnique(a: Matrix, b: Vector, x: Vector, y: Vector)
    requires NonSingular(a) && |x| == |y| == |a| && Solves(a, b, x) && Solves(a, b, y)
    ensures x == y
  {
    var n := |a|;
    var d := Axpy(x, -1.0, y);
    forall i | 0 <= i < n
      ensures Dot(a[i], d) == 0.0
    {
      DotCommutes(a[i], d);
      DotAxpy(x, -1.0, y, a[i]);
      DotCommutes(a[i], x);
      DotCommutes(a[i], y);
    }
    assert Solves(a, Zero(n), d);
    forall k | 0 <= k < n
      ensures x[k] == y[k]
    {
      assert d[k] == Zero(n)[k];
    }
  }

  // ---------- the algorithm ----------

  function Abs(x: real): (magnitude: real)
    ensures magnitude >= x && magnitude >= -x && (magnitude == x || magnitude == -x)
  {
    if x < 0.0 then -x else x
  }

  /** The row from `col` on whose entry in that column is largest, the last one on a tie. */
  method Pivot(a: array<Vector>, col: nat) returns (pivot: nat)
    requires col < a.Length && forall i :: 0 <= i < a.Length ==> |a[i]| == a.Length
    ensures col <= pivot < a.Length
    ensures forall i :: col <= i < a.Length ==> Abs(a[i][col]) <= Abs(a[pivot][col])
    ensures forall i :: pivot < i < a.Length ==> Abs(a[i][col]) < Abs(a[pivot][col])
  {
    pivot := col;
    for i := col + 1 to a.Length
      invariant col <= pivot < i
      invariant forall k :: col <= k < i ==> Abs(a[k][col]) <= Abs(a[pivot][col])
      invariant forall k :: pivot < k < i ==> Abs(a[k][col]) < Abs(a[pivot][col])
    {
      if Abs(a[i][col]) >= Abs(a[pivot][col]) {
        pivot := i;
      }
    }
  }

  /** Takes `f` times the row above from the row below, from column `col` on. */
  method SubtractRow(below: Vector, above: Vector, f: real, col: nat) returns (row: Vector)
    requires |below| == |above| && col <= |below|
    requires forall k :: 0 <= k < col ==> above[k] == 0.0
    ensures row == Axpy(below, -f, above)
  {
    row := below;
    for k := col to |below|
      invariant |row| == |below|
      invariant forall j :: 0 <= j < k ==> row[j] == below[j] - f * above[j]
      invariant forall j :: k <= j < |below| ==> row[j] == below[j]
    {
      row := row[k := row[k] - f * above[k]];
    }
    forall j | 0 <= j < |below|
      ensures row[j] == Axpy(below, -f, above)[j]
    {
      Opposite(f, above[j]);
    }
  }

  lemma Opposite(f: real, x: real)
    ensures -f * x == -(f * x)
  {
  }

  /** Takes the right multiple of the pivot row from every row below it. */
  method ClearBelow(a: array<Vector>, b: array<real>, col: nat)
    requires a.Length == b.Length && col < a.Length
    requires IsSquare(a[..], a.Length) && Eliminated(a[..], a.Length, col) && a[col][col] != 0.0
    modifies a, b
    ensures IsSquare(a[..], a.Length) && Eliminated(a[..], a.Length, col + 1)
    ensures SameSolutions(a.Length, old(a[..]), old(b[..]), a[..], b[..])
  {
    var n := a.Length;
    for row := col + 1 to n
      invariant IsSquare(a[..], n) && Eliminated(a[..], n, col)
      invariant SameSolutions(n, old(a[..]), old(b[..]), a[..], b[..])
      invariant a[col][col] != 0.0
      invariant forall i :: col < i < row ==> a[i][col] == 0.0
    {
      hide SameSolutions;
      ghost var a0, b0 := a[..], b[..];
      var f := a[row][col] / a[col][col];
      var reduced := SubtractRow(a[row], a[col], f, col);
      Cleared(a[row], a[col], f, col, reduced);
      assert reduced == Axpy(a0[row], -f, a0[col]);
      a[row] := reduced;
      var share := f * b[col];
      b[row] := b[row] - share;
      assert a[..] == a0[row := Axpy(a0[row], -f, a0[col])];
      assert b[..] == b0[row := b0[row] - f * b0[col]];
      EliminationKeepsSolutions(n, a0, b0, row, col, f);
      SameSolutionsChain(n, old(a[..]), old(b[..]), a0, b0, a[..], b[..]);
    }
  }

  /** The multiple taken clears the column and leaves the zeros before it. */
  lemma Cleared(below: Vector, above: Vector, f: real, col: nat, row: Vector)
    requires |below| == |above| && col < |below| && above[col] != 0.0 && f == below[col] / above[col]
    requires forall k :: 0 <= k < col ==> above[k] == 0.0 && below[k] == 0.0
    requires row == Axpy(below, -f, above)
    ensures forall k :: 0 <= k <= col ==> row[k] == 0.0
  {
    assert f * above[col] == below[col];
    forall k | 0 <= k <= col
      ensures row[k] == 0.0
    {
      Opposite(f, above[k]);
    }
  }

  /** One column: the pivot row is brought up and the column cleared below it. `None` when the
      whole column is zero from the diagonal down. */
  method EliminateColumn(a: array<Vector>, b: array<real>, col: nat) returns (ok: bool)
    requires a.Length == b.Length && col < a.Length
    requires IsSquare(a[..], a.Length) && Eliminated(a[..], a.Length, col)
    modifies a, b
    ensures IsSquare(a[..], a.Length)
    ensures SameSolutions(a.Length, old(a[..]), old(b[..]), a[..], b[..])
    ensures ok ==> Eliminated(a[..], a.Length, col + 1)
    ensures !ok ==> !NonSingular(a[..])
  {
    var n := a.Length;
    var pivot := Pivot(a, col);
    SwapKeepsSolutions(n, a[..], b[..], col, pivot);
    ghost var swapped, swappedB := Swap(a[..], col, pivot), Swap(b[..], col, pivot);
    a[col], a[pivot] := a[pivot], a[col];
    b[col], b[pivot] := b[pivot], b[col];
    assert a[..] == swapped && b[..] == swappedB;
    assert forall i :: col <= i < n ==> Abs(a[i][col]) <= Abs(a[col][col]);
    if a[col][col] == 0.0 {
      NoPivotNoInverse(a[..], n, col);
      return false;
    }
    ClearBelow(a, b, col);
    SameSolutionsChain(n, old(a[..]), old(b[..]), swapped, swappedB, a[..], b[..]);
    ok := true;
  }

  /** Solves a triangular system from its last row up. */
  method SubstituteBack(a: array<Vector>, b: array<real>) returns (x: Vector)
    requires a.Length == b.Length && IsSquare(a[..], a.Length) && Eliminated(a[..], a.Length, a.Length)
    ensures |x| == a.Length && Solves(a[..], b[..], x)
  {
    var n := a.Length;
    x := Zero(n);
    var row := n;
    while row > 0
      invariant 0 <= row <= n && |x| == n
      invariant forall k :: 0 <= k < row ==> x[k] == 0.0
      invariant forall i :: row <= i < n ==> Dot(a[i], x) == b[i]
    {
      row := row - 1;
      var s := 0.0;
      for k := row + 1 to n
        invariant s + DotFrom(a[row], x, k) == DotFrom(a[row], x, row + 1)
      {
        s := s + a[row][k] * x[k];
      }
      DotSkipsZeros(a[row], x, 0, row + 1);
      ghost var x' := SolveOneRow(a[..], n, row, x, b[row]);
      x := x[row := (b[row] - s) / a[row][row]];
      assert x == x';
    }
  }

  /** The solution of a x = b, `None` when a pivot is zero. */
  method Solve(a: array<Vector>, b: array<real>) returns (x: Option<Vector>)
    requires a.Length == b.Length && IsSquare(a[..], a.Length)
    modifies a, b
    ensures x.Some? <==> NonSingular(old(a[..]))
    ensures x.Some? ==> |x.value| == a.Length && Solves(old(a[..]), old(b[..]), x.value)
    ensures x.Some? ==> forall y: Vector :: |y| == a.Length && Solves(old(a[..]), old(b[..]), y) ==> y == x.value
  {
    var n := a.Length;
    for col := 0 to n
      invariant IsSquare(a[..], n) && Eliminated(a[..], n, col)
      invariant SameSolutions(n, old(a[..]), old(b[..]), a[..], b[..])
    {
      ghost var a0, b0 := a[..], b[..];
      var ok := EliminateColumn(a, b, col);
      SameSolutionsChain(n, old(a[..]), old(b[..]), a0, b0, a[..], b[..]);
      if !ok {
        SolutionsCarry(n, old(a[..]), old(b[..]), a[..], b[..]);
        return None;
      }
    }
    var v := SubstituteBack(a, b);
    TriangularIsNonSingular(a[..], n);
    SolutionsCarry(n, old(a[..]), old(b[..]), a[..], b[..]);
    forall y: Vector | |y| == n && Solves(old(a[..]), old(b[..]), y)
      ensures y == v
    {
      SolutionIsUnique(old(a[..]), old(b[..]), y, v);
    }
    x := Some(v);
  }
}
