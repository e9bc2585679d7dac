/** `solve_dense` in place, proved against the steps of `LinearSystems`
  (tpt-vertex-simulation/src/solve.rs). The row-major buffer of the source is a
  two-dimensional array here. */
module DenseSolver {
  import opened LinearSystems
  import opened Elimination
  import opened MatrixArrays

  method FindPivot(a: array2<real>, n: nat, col: nat) returns (piv: nat, best: real)
    requires a.Length0 == a.Length1 == n && col < n
    ensures piv == PivotFrom(Rows(a), n, col, col + 1, col) && best == Abs(a[piv, col])
  {
    hide Abs;
    piv := col;
    best := Abs(a[col, col]);
    var r := col + 1;
    while r < n
      invariant col <= piv < r <= n && best == Abs(a[piv, col])
      invariant forall i | col <= i < r :: Abs(Rows(a)[i][col]) <= Abs(Rows(a)[piv][col])
      invariant forall i | col <= i < piv :: Abs(Rows(a)[i][col]) < Abs(Rows(a)[piv][col])
      invariant PivotFrom(Rows(a), n, col, r, piv) == PivotFrom(Rows(a), n, col, col + 1, col)
    {
      var v := Abs(a[r, col]);
      if v > best {
        best := v;
        piv := r;
      }
      r := r + 1;
    }
  }

  method SwapRows(a: array2<real>, n: nat, i: nat, j: nat)
    requires a.Length0 == a.Length1 == n && i < n && j < n
    modifies a
    ensures Rows(a) == Swapped(old(Rows(a)), i, j)
  {
    ghost var before := Rows(a);
    var c := 0;
    while c < n
      invariant 0 <= c <= n
      invariant forall r, d | 0 <= r < n && 0 <= d < n ::
        a[r, d] == if d < c && r == i then before[j][d] else if d < c && r == j then before[i][d] else before[r][d]
    {
      a[i, c], a[j, c] := a[j, c], a[i, c];
      c := c + 1;
    }
    RowsEqual(a, Swapped(before, i, j));
  }

  /** Subtract `factor` times row `col` from row `r`, from column `col` on. */
  method ReduceRow(a: array2<real>, n: nat, col: nat, r: nat, factor: real)
    requires a.Length0 == a.Length1 == n && col < r < n
    modifies a
    ensures Rows(a) == old(Rows(a))[r := Reduced(old(Rows(a))[r], old(Rows(a))[col], factor, col)]
  {
    ghost var before := Rows(a);
    ghost var reduced := Reduced(before[r], before[col], factor, col);
    var c := col;
    while c < n
      invariant col <= c <= n
      invariant forall q, d | 0 <= q < n && 0 <= d < n ::
        a[q, d] == if q == r && d < c then reduced[d] else before[q][d]
    {
      a[r, c] := a[r, c] - factor * a[col, c];
      c := c + 1;
    }
    RowsEqual(a, before[r := reduced]);
  }

  /** A zero factor leaves the row as it is, which is why the source may skip it. */
  lemma ZeroFactor(x: Vec, y: Vec, from: nat)
    requires |x| == |y|
    ensures Reduced(x, y, 0.0, from) == x
  {
  }

  /** What becomes of row `r` when it is reduced by the pivot row. */
  ghost predicate BecomesReduced(w: System, n: nat, col: nat, r: nat, row: Vec, load: real)
    requires w.Square(n) && col < r < n && w.a[col][col] != 0.0
  {
    row == Reduced(w.a[r], w.a[col], Factor(w, n, col, r), col) && load == w.b[r] - Factor(w, n, col, r) * w.b[col]
  }

  /** One row of the elimination: a zero factor is skipped. */
  method EliminateRow(a: array2<real>, b: array<real>, n: nat, col: nat, r: nat, diag: real,
                      ghost w: System, ghost row: Vec, ghost load: real)
    requires a.Length0 == a.Length1 == b.Length == n && col < r < n && diag == a[col, col] != 0.0
    requires w.Square(n) && Rows(a)[col] == w.a[col] && Rows(a)[r] == w.a[r] && b[col] == w.b[col] && b[r] == w.b[r]
    requires diag == w.a[col][col] && BecomesReduced(w, n, col, r, row, load)
    modifies a, b
    ensures Rows(a) == old(Rows(a))[r := row]
    ensures b[..] == old(b[..])[r := load]
  {
    assert a[r, col] == w.a[r][col];
    var factor := a[r, col] / diag;
    if factor == 0.0 {
      ZeroFactor(w.a[r], w.a[col], col);
      assert load == b[r] && row == w.a[r];
      assert Rows(a)[r := row] == Rows(a) && b[..][r := load] == b[..];
    } else {
      assert factor == Factor(w, n, col, r);
      ReduceRow(a, n, col, r, factor);
      ghost var loads := b[..];
      assert loads[r] == w.b[r] && loads[col] == w.b[col];
      b[r] := b[r] - factor * b[col];
      assert b[r] == load;
      assert b[..] == loads[r := load];
    }
  }

  method ReduceBelow(a: array2<real>, b: array<real>, n: nat, col: nat)
    requires a.Length0 == a.Length1 == b.Length == n && col < n && a[col, col] != 0.0
    modifies a, b
    ensures System(Rows(a), b[..]) == ReducedBelow(System(old(Rows(a)), old(b[..])), n, col)
  {
    ghost var w := System(Rows(a), b[..]);
    ghost var t := ReducedBelow(w, n, col);
    ReduceRows(a, b, n, col, w, t);
  }

  method ReduceRows(a: array2<real>, b: array<real>, n: nat, col: nat, ghost w: System, ghost t: System)
    requires a.Length0 == a.Length1 == b.Length == n && col < n && a[col, col] != 0.0
    requires w == System(Rows(a), b[..]) && t.Square(n)
    requires forall r | 0 <= r <= col :: t.a[r] == w.a[r] && t.b[r] == w.b[r]
    requires forall r | col < r < n :: BecomesReduced(w, n, col, r, t.a[r], t.b[r])
    modifies a, b
    ensures System(Rows(a), b[..]) == t
  {
    var diag := a[col, col];
    var r := col + 1;
    while r < n
      invariant col + 1 <= r <= n
      invariant Rows(a) == t.a[..r] + w.a[r..]
      invariant b[..] == t.b[..r] + w.b[r..]
    {
      assert Rows(a)[r] == w.a[r] && Rows(a)[col] == w.a[col] && a[col, col] == Rows(a)[col][col];
      assert b[r] == b[..][r] == w.b[r] && b[col] == b[..][col] == w.b[col];
      EliminateRow(a, b, n, col, r, diag, w, t.a[r], t.b[r]);
      r := r + 1;
    }
  }

  method EliminateColumn(a: array2<real>, b: array<real>, n: nat, col: nat)
    requires a.Length0 == a.Length1 == b.Length == n && col < n
    modifies a, b
    ensures System(Rows(a), b[..]) == Eliminated(System(old(Rows(a)), old(b[..])), n, col)
  {
    ghost var s := System(Rows(a), b[..]);
    var piv, best := FindPivot(a, n, col);
    if best < TINY {
      return;
    }
    if piv != col {
      SwapRows(a, n, piv, col);
      b[piv], b[col] := b[col], b[piv];
    }
    assert System(Rows(a), b[..]) == WithPivot(s, n, col) by {
      assert b[..] == Swapped(s.b, piv, col);
      assert Rows(a) == Swapped(s.a, piv, col);
    }
    PivotNonzero(s, n, col);
    ReduceBelow(a, b, n, col);
  }

  method BackStep(a: array2<real>, b: array<real>, u: array<real>, n: nat, row: nat)
    requires a.Length0 == a.Length1 == b.Length == u.Length == n && row < n && u != b
    modifies u
    ensures u[..] == old(u[..])[row := BackValue(System(Rows(a), b[..]), n, old(u[..]), row, TINY)]
  {
    ghost var x := u[..];
    ghost var line := Rows(a)[row];
    var sum := b[row];
    var c := row + 1;
    while c < n
      invariant row + 1 <= c <= n && u[..] == x
      invariant sum - Dot(line, x, c) == b[row] - Dot(line, x, row + 1)
    {
      sum := sum - a[row, c] * u[c];
      c := c + 1;
    }
    var diag := a[row, row];
    u[row] := if Abs(diag) > TINY then sum / diag else 0.0;
  }

  method BackSubstitute(a: array2<real>, b: array<real>, n: nat) returns (u: array<real>)
    requires a.Length0 == a.Length1 == b.Length == n
    ensures u.Length == n && fresh(u) && u[..] == BackSubstituted(System(Rows(a), b[..]), n, 0, TINY)
  {
    u := new real[n](_ => 0.0);
    var row := n;
    assert u[..] == BackSubstituted(System(Rows(a), b[..]), n, n, TINY);
    while row > 0
      invariant 0 <= row <= n
      invariant u[..] == BackSubstituted(System(Rows(a), b[..]), n, row, TINY)
    {
      row := row - 1;
      BackStep(a, b, u, n, row);
    }
  }

  lemma ForwardStep(s: System, n: nat, col: nat)
    requires s.Square(n) && col < n
    ensures Forward(s, n, col).Square(n) && Forward(s, n, col + 1) == Eliminated(Forward(s, n, col), n, col)
  {
  }

  method ForwardEliminate(a: array2<real>, b: array<real>, n: nat)
    requires a.Length0 == a.Length1 == b.Length == n
    modifies a, b
    ensures System(Rows(a), b[..]) == Forward(System(old(Rows(a)), old(b[..])), n, n)
  {
    ghost var s := System(Rows(a), b[..]);
    var col := 0;
    while col < n
      invariant 0 <= col <= n
      invariant System(Rows(a), b[..]) == Forward(s, n, col)
    {
      ForwardStep(s, n, col);
      EliminateColumn(a, b, n, col);
      col := col + 1;
    }
  }

  /** The vector is zero on the dead unknowns, satisfies every equation, and is the only such vector. */
  ghost predicate OnlySolution(s: System, n: nat, dead: set<nat>, u: Vec)
    requires s.Square(n)
  {
    Solves(s, n, u) && VanishesOn(u, dead) && forall v: Vec | Solves(s, n, v) && VanishesOn(v, dead) :: v == u
  }

  /** The inputs are copied and left alone. With good pivots the result satisfies every equation of the caller's system,
    and nothing else does. */
  method SolveDense(k: array2<real>, f: array<real>, n: nat) returns (u: array<real>)
    requires k.Length0 == k.Length1 == f.Length == n
    ensures u.Length == n && u[..] == Solution(System(Rows(k), f[..]), n)
    ensures forall dead: set<nat> | GoodPivots(System(Rows(k), f[..]), n, dead) && AllDead(System(Rows(k), f[..]), n, dead) ::
              OnlySolution(System(Rows(k), f[..]), n, dead, u[..])
  {
    var a := new real[n, n]((i, j) requires 0 <= i < n && 0 <= j < n reads k => k[i, j]);
    var b := new real[n](i requires 0 <= i < n reads f => f[i]);
    RowsEqual(a, Rows(k));
    assert b[..] == f[..];
    ghost var s := System(Rows(k), f[..]);
    ForwardEliminate(a, b, n);
    u := BackSubstitute(a, b, n);
    forall dead: set<nat> | GoodPivots(s, n, dead) && AllDead(s, n, dead)
      ensures OnlySolution(s, n, dead, u[..])
    {
      SolutionIsTheSolution(s, n, dead);
    }
  }
}
