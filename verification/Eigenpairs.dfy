/** What the basis found by the rotations says about the input: each column with its diagonal value is an eigenpair up to
  the off-diagonal entries that are left (tpt-vertex-simulation/src/modal.rs). */
module Eigenpairs {
  import opened LinearSystems
  import opened Rotations

  /** `a0` times the basis is the basis times `a`. */
  ghost predicate Intertwines(a0: Matrix, a: Matrix, v: Matrix, n: nat)
    requires IsSquare(a0, n) && IsSquare(a, n) && IsSquare(v, n)
  {
    forall i: nat, j: nat | i < n && j < n :: IntertwinesAt(a0, a, v, n, i, j)
  }

  ghost predicate IntertwinesAt(a0: Matrix, a: Matrix, v: Matrix, n: nat, i: nat, j: nat)
    requires IsSquare(a0, n) && IsSquare(a, n) && IsSquare(v, n) && i < n && j < n
  {
    Dot(a0[i], Column(v, n, j), 0) == Dot(v[i], Column(a, n, j), 0)
  }

  lemma IdentityIntertwines(a0: Matrix, n: nat)
    requires IsSquare(a0, n)
    ensures Intertwines(a0, a0, Identity(n), n)
  {
    var e := Identity(n);
    forall i: nat, j: nat | i < n && j < n
      ensures IntertwinesAt(a0, a0, e, n, i, j)
    {
      assert Column(e, n, j) == e[j];
      DotSymmetric(a0[i], e[j], 0);
      DotUnit(e[j], a0[i], j, 0);
      DotUnit(e[i], Column(a0, n, j), i, 0);
    }
  }

  // ----- A rotation keeps this

  /** The two numbers a pair is turned into. */
  function Low(g: Angle, x: real, y: real): real {
    g.c * x - g.s * y
  }

  function High(g: Angle, x: real, y: real): real {
    g.s * x + g.c * y
  }

  function Product(x: real, y: real): real {
    x * y
  }

  /** Two entries turned by the rotation. */
  function PairTurned(x: Vec, p: nat, q: nat, g: Angle): (y: Vec)
    requires p < q < |x|
    ensures |y| == |x|
    ensures forall i | 0 <= i < |x| ::
              y[i] == if i == p then Low(g, x[p], x[q]) else if i == q then High(g, x[p], x[q]) else x[i]
  {
    x[p := Low(g, x[p], x[q])][q := High(g, x[p], x[q])]
  }

  lemma PairProducts(g: Angle, x: real, y: real, u: real, w: real)
    requires g.c * g.c + g.s * g.s == 1.0
    ensures Product(Low(g, x, y), Low(g, u, w)) + Product(High(g, x, y), High(g, u, w)) == Product(x, u) + Product(y, w)
  {
    var c, s := g.c, g.s;
    assert (c * x - s * y) * (c * u - s * w) == c * c * (x * u) - c * s * (x * w) - c * s * (y * u) + s * s * (y * w);
    assert (s * x + c * y) * (s * u + c * w) == s * s * (x * u) + c * s * (x * w) + c * s * (y * u) + c * c * (y * w);
    assert c * c * (x * u) + s * s * (x * u) == (c * c + s * s) * (x * u);
    assert c * c * (y * w) + s * s * (y * w) == (c * c + s * s) * (y * w);
  }

  lemma DotHead(x: Vec, y: Vec, k: nat)
    requires |x| == |y| && k < |x|
    ensures Dot(x, y, k) == Product(x[k], y[k]) + Dot(x, y, k + 1)
  {
  }

  lemma {:induction false} DotTwoChanged(x: Vec, y: Vec, x': Vec, y': Vec, p: nat, q: nat, k: nat)
    requires |x| == |y| == |x'| == |y'| && p < q < |x| && k <= |x|
    requires forall i | 0 <= i < |x| && i != p && i != q :: x'[i] == x[i] && y'[i] == y[i]
    ensures Dot(x', y', k) == Dot(x, y, k) + (if k <= p then Product(x'[p], y'[p]) - Product(x[p], y[p]) else 0.0)
                              + (if k <= q then Product(x'[q], y'[q]) - Product(x[q], y[q]) else 0.0)
    decreases |x| - k
  {
    if k < |x| {
      DotTwoChanged(x, y, x', y', p, q, k + 1);
      DotHead(x, y, k);
      DotHead(x', y', k);
    }
    hide Dot, Product;
  }

  /** Turning two entries of both vectors keeps their dot product. */
  lemma DotPairTurned(x: Vec, y: Vec, p: nat, q: nat, g: Angle)
    requires |x| == |y| && p < q < |x| && g.c * g.c + g.s * g.s == 1.0
    ensures Dot(PairTurned(x, p, q, g), PairTurned(y, p, q, g), 0) == Dot(x, y, 0)
  {
    hide Dot, PairTurned, Low, High, Product;
    DotTwoChanged(x, y, PairTurned(x, p, q, g), PairTurned(y, p, q, g), p, q, 0);
    PairProducts(g, x[p], x[q], y[p], y[q]);
  }

  lemma RowOfTurned(v: Matrix, n: nat, p: nat, q: nat, g: Angle, i: nat)
    requires IsSquare(v, n) && p < q < n && i < n
    ensures Turned(v, n, p, q, g)[i] == PairTurned(v[i], p, q, g)
  {
    var x, y := Turned(v, n, p, q, g)[i], PairTurned(v[i], p, q, g);
    forall k | 0 <= k < n
      ensures x[k] == y[k]
    {
    }
  }

  /** The block in the corner: the diagonal entries the program writes, and the annihilated ones. */
  lemma BlockTurned(g: Angle, app: real, aqq: real, apq: real)
    requires Annihilates(g, app, aqq, apq)
    ensures Low(g, Low(g, app, apq), Low(g, apq, aqq)) == app - g.t * apq
    ensures High(g, High(g, app, apq), High(g, apq, aqq)) == aqq + g.t * apq
    ensures Low(g, High(g, app, apq), High(g, apq, aqq)) == 0.0 == High(g, Low(g, app, apq), Low(g, apq, aqq))
  {
    BlockAlgebra(g, app, aqq, apq);
    var c, s := g.c, g.s;
    assert s * (c * app) == c * (s * app);
    assert c * (s * aqq) == s * (c * aqq);
  }

  lemma EntryOfRotated(a: Matrix, n: nat, p: nat, q: nat, g: Angle, i: nat, j: nat)
    requires IsSquare(a, n) && p < q < n && i < n && j < n && !((i == p || i == q) && (j == p || j == q))
    ensures RotatedEntry(a, n, p, q, g, i, j)
            == if j == p then Low(g, a[i][p], a[i][q]) else if j == q then High(g, a[i][p], a[i][q])
               else if i == p then Low(g, a[j][p], a[j][q]) else if i == q then High(g, a[j][p], a[j][q]) else a[i][j]
  {
  }

  /** The rotated matrix has the columns of the matrix with two columns turned, their own two entries turned as well. */
  lemma ColumnOfRotated(a: Matrix, n: nat, p: nat, q: nat, g: Angle, j: nat)
    requires IsSquare(a, n) && p < q < n && j < n && Symmetric(a, n) && AnnihilatesAt(a, n, p, q, g)
    ensures Column(Rotated(a, n, p, q, g), n, j) == PairTurned(Column(Turned(a, n, p, q, g), n, j), p, q, g)
  {
    var m := Turned(a, n, p, q, g);
    var x, y := Column(Rotated(a, n, p, q, g), n, j), PairTurned(Column(m, n, j), p, q, g);
    BlockTurned(g, a[p][p], a[q][q], a[p][q]);
    assert a[p][q] == a[q][p] && a[p][j] == a[j][p] && a[q][j] == a[j][q];
    RowOfTurned(a, n, p, q, g, p);
    RowOfTurned(a, n, p, q, g, q);
    forall i | 0 <= i < n
      ensures x[i] == y[i]
    {
      assert x[i] == RotatedEntry(a, n, p, q, g, i, j);
      RowOfTurned(a, n, p, q, g, i);
      hide Low, High, PairTurned, Turned, Symmetric, AnnihilatesAt;
      if !((i == p || i == q) && (j == p || j == q)) {
        EntryOfRotated(a, n, p, q, g, i, j);
      }
    }
  }

  lemma DotTurnedColumn(w: Vec, m: Matrix, n: nat, p: nat, q: nat, g: Angle, j: nat)
    requires IsSquare(m, n) && |w| == n && p < q < n && j < n
    ensures Dot(w, Column(Turned(m, n, p, q, g), n, j), 0)
            == if j == p then Low(g, Dot(w, Column(m, n, p), 0), Dot(w, Column(m, n, q), 0))
               else if j == q then High(g, Dot(w, Column(m, n, p), 0), Dot(w, Column(m, n, q), 0))
               else Dot(w, Column(m, n, j), 0)
  {
    TurnedColumns(m, n, p, q, g, j);
    hide Dot, Column, Turned, Mixed, Low, High;
    DotLow(w, Column(m, n, p), Column(m, n, q), g);
  }

  lemma DotLow(w: Vec, x: Vec, y: Vec, g: Angle)
    requires |w| == |x| == |y|
    ensures Dot(w, Mixed(x, y, g.c, -g.s), 0) == Low(g, Dot(w, x, 0), Dot(w, y, 0))
    ensures Dot(w, Mixed(x, y, g.s, g.c), 0) == High(g, Dot(w, x, 0), Dot(w, y, 0))
  {
    DotMixedRight(x, y, w, g.c, -g.s, 0);
    DotMixedRight(x, y, w, g.s, g.c, 0);
    MinusTurned(g, Dot(w, x, 0), Dot(w, y, 0));
  }

  lemma MinusTurned(g: Angle, x: real, y: real)
    ensures g.c * x + -g.s * y == Low(g, x, y)
  {
  }

  lemma RotationIntertwines(a0: Matrix, a: Matrix, v: Matrix, n: nat, p: nat, q: nat, g: Angle)
    requires IsSquare(a0, n) && IsSquare(a, n) && IsSquare(v, n) && p < q < n
    requires Symmetric(a, n) && AnnihilatesAt(a, n, p, q, g) && Intertwines(a0, a, v, n)
    ensures Intertwines(a0, Rotated(a, n, p, q, g), Turned(v, n, p, q, g), n)
  {
    UnitAngle(g, a[p][p], a[q][q], a[p][q]);
    hide Low, High, Dot, Turned, Rotated, Column, PairTurned;
    forall i: nat, j: nat | i < n && j < n
      ensures IntertwinesAt(a0, Rotated(a, n, p, q, g), Turned(v, n, p, q, g), n, i, j)
    {
      assert IntertwinesAt(a0, a, v, n, i, p) && IntertwinesAt(a0, a, v, n, i, q) && IntertwinesAt(a0, a, v, n, i, j);
      ColumnOfRotated(a, n, p, q, g, j);
      RowOfTurned(v, n, p, q, g, i);
      DotTurnedColumn(a0[i], v, n, p, q, g, j);
      DotTurnedColumn(v[i], a, n, p, q, g, j);
      DotPairTurned(v[i], Column(Turned(a, n, p, q, g), n, j), p, q, g);
    }
  }

  // ----- Combinations of orthonormal columns

  /** The first `k` columns, weighted and added up. */
  function Combined(v: Matrix, n: nat, w: Vec, k: nat): (x: Vec)
    requires IsSquare(v, n) && |w| == n && k <= n
    ensures |x| == n
  {
    if k == 0 then seq(n, _ => 0.0)
    else Mixed(Combined(v, n, w, k - 1), Column(v, n, k - 1), 1.0, w[k - 1])
  }

  lemma {:induction false} CombinedIsTimes(v: Matrix, n: nat, w: Vec, k: nat, i: nat)
    requires IsSquare(v, n) && |w| == n && k <= n && i < n
    ensures Combined(v, n, w, k)[i] + Dot(v[i], w, k) == Dot(v[i], w, 0)
  {
    if k > 0 {
      CombinedIsTimes(v, n, w, k - 1, i);
    }
  }

  lemma {:induction false} ZeroDot(z: Vec, y: Vec, k: nat)
    requires |z| == |y| && k <= |z| && forall i | 0 <= i < |z| :: z[i] == 0.0
    ensures Dot(y, z, k) == 0.0
    decreases |z| - k
  {
    if k < |z| {
      ZeroDot(z, y, k + 1);
    }
  }

  lemma {:induction false} DotWithCombined(v: Matrix, n: nat, w: Vec, k: nat, i: nat)
    requires IsSquare(v, n) && |w| == n && k <= n && i < n && Orthonormal(v, n)
    ensures Dot(Column(v, n, i), Combined(v, n, w, k), 0) == if i < k then w[i] else 0.0
  {
    hide Dot;
    if k == 0 {
      ZeroDot(Combined(v, n, w, 0), Column(v, n, i), 0);
    } else {
      DotWithCombined(v, n, w, k - 1, i);
      DotMixedRight(Combined(v, n, w, k - 1), Column(v, n, k - 1), Column(v, n, i), 1.0, w[k - 1], 0);
      assert Dot(Column(v, n, i), Column(v, n, k - 1), 0) == if i == k - 1 then 1.0 else 0.0;
    }
  }

  /** A combination of orthonormal columns is as long as its weights. */
  lemma {:induction false} LengthOfCombined(v: Matrix, n: nat, w: Vec, k: nat)
    requires IsSquare(v, n) && |w| == n && k <= n && Orthonormal(v, n)
    ensures Dot(Combined(v, n, w, k), Combined(v, n, w, k), 0) + Dot(w, w, k) == Dot(w, w, 0)
  {
    if k == 0 {
      ZeroDot(Combined(v, n, w, 0), Combined(v, n, w, 0), 0);
    } else {
      var x, y, e := Combined(v, n, w, k - 1), Column(v, n, k - 1), w[k - 1];
      var z := Combined(v, n, w, k);
      LengthOfCombined(v, n, w, k - 1);
      DotWithCombined(v, n, w, k - 1, k - 1);
      DotWithCombined(v, n, w, k, k - 1);
      DotMixedRight(x, y, z, 1.0, e, 0);
      DotSymmetric(z, x, 0);
      DotMixedRight(x, y, x, 1.0, e, 0);
      DotSymmetric(z, y, 0);
      DotSymmetric(x, y, 0);
    }
  }

  // ----- The residual

  /** What is missing for `x` to be an eigenvector with value `lambda`. */
  function Residual(a0: Matrix, n: nat, lambda: real, x: Vec): (r: Vec)
    requires IsSquare(a0, n) && |x| == n
    ensures |r| == n
  {
    seq(n, i requires 0 <= i < n => Dot(a0[i], x, 0) - Product(x[i], lambda))
  }

  lemma TimesZero(x: real)
    ensures Product(x, 0.0) == 0.0
  {
  }

  lemma {:induction false} DotOneCleared(x: Vec, y: Vec, j: nat, k: nat)
    requires |x| == |y| && j < |x| && k <= |x|
    ensures Dot(x, y[j := 0.0], k) == Dot(x, y, k) - if k <= j then Product(x[j], y[j]) else 0.0
    decreases |x| - k
  {
    if k < |x| {
      DotOneCleared(x, y, j, k + 1);
      DotHead(x, y, k);
      DotHead(x, y[j := 0.0], k);
      TimesZero(x[k]);
    }
    hide Dot, Product;
  }

  lemma {:induction false} DotIsSum(w: Vec, squares: Vec, k: nat)
    requires |w| == |squares| && k <= |w| && forall i | 0 <= i < |w| :: squares[i] == w[i] * w[i]
    ensures Dot(w, w, k) == Sum(squares[k..])
    decreases |w| - k
  {
    if k < |w| {
      DotIsSum(w, squares, k + 1);
    }
  }

  lemma {:induction false} SumOfNonnegative(x: Vec)
    requires forall i | 0 <= i < |x| :: x[i] >= 0.0
    ensures Sum(x) >= 0.0 && forall i | 0 <= i < |x| :: x[i] <= Sum(x)
  {
    if x != [] {
      SumOfNonnegative(x[1..]);
      forall i | 0 <= i < |x|
        ensures x[i] <= Sum(x)
      {
        assert i > 0 ==> x[i] == x[1..][i - 1];
      }
    }
  }

  lemma SquareNotNegative(x: real)
    ensures x * x >= 0.0
  {
  }

  lemma OffRowNotNegative(a: Matrix, n: nat, i: nat)
    requires IsSquare(a, n) && i < n
    ensures Sum(OffRow(a, n, i)) >= 0.0
  {
    forall k | 0 <= k < n
      ensures OffRow(a, n, i)[k] >= 0.0
    {
      SquareNotNegative(a[i][k]);
    }
    SumOfNonnegative(OffRow(a, n, i));
  }

  lemma OffNotNegative(a: Matrix, n: nat)
    requires IsSquare(a, n)
    ensures Off(a, n) >= 0.0 && forall i | 0 <= i < n :: Sum(OffRow(a, n, i)) <= Off(a, n)
  {
    forall i | 0 <= i < n
      ensures OffRows(a, n)[i] == Sum(OffRow(a, n, i)) >= 0.0
    {
      OffRowNotNegative(a, n, i);
    }
    SumOfNonnegative(OffRows(a, n));
  }

  /** The squared residual of a basis column with its diagonal value is the off-diagonal mass of its row, so at most all of
    the off-diagonal mass. */
  lemma ResidualIsOffRow(a0: Matrix, a: Matrix, v: Matrix, n: nat, j: nat)
    requires IsSquare(a0, n) && IsSquare(a, n) && IsSquare(v, n) && j < n
    requires Symmetric(a, n) && Orthonormal(v, n) && Intertwines(a0, a, v, n)
    ensures var r := Residual(a0, n, a[j][j], Column(v, n, j)); Dot(r, r, 0) == Sum(OffRow(a, n, j)) <= Off(a, n)
  {
    var r, y := Residual(a0, n, a[j][j], Column(v, n, j)), Column(a, n, j);
    var w := y[j := 0.0];
    forall i | 0 <= i < n
      ensures r[i] == Combined(v, n, w, n)[i]
    {
      assert IntertwinesAt(a0, a, v, n, i, j);
      hide Dot, Product;
      DotOneCleared(v[i], y, j, 0);
      CombinedIsTimes(v, n, w, n, i);
    }
    assert r == Combined(v, n, w, n);
    LengthOfCombined(v, n, w, n);
    DotIsSum(w, OffRow(a, n, j), 0);
    assert OffRow(a, n, j)[0..] == OffRow(a, n, j);
    OffNotNegative(a, n);
  }
}
