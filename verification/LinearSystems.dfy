/** Dense linear systems and Gaussian elimination with partial pivoting, step by
  step over the reals (tpt-vertex-simulation/src/solve.rs). */
module LinearSystems {
  type Vec = seq<real>
  type Matrix = seq<Vec>

  /** A pivot below this magnitude is treated as absent. */
  const TINY: real := 0.000000000000000001

  datatype System = System(a: Matrix, b: Vec)
  {
    ghost predicate Square(n: nat) {
      |a| == n && |b| == n && forall r | 0 <= r < n :: |a[r]| == n
    }
  }

  function Abs(x: real): real {
    if x < 0.0 then -x else x
  }

  /** The dot product of two vectors from index `k` on. */
  function Dot(x: Vec, y: Vec, k: nat): real
    requires |x| == |y| && k <= |x|
    decreases |x| - k
  {
    if k == |x| then 0.0 else x[k] * y[k] + Dot(x, y, k + 1)
  }

  ghost predicate RowHolds(s: System, n: nat, u: Vec, r: nat)
    requires s.Square(n) && |u| == n && r < n
  {
    Dot(s.a[r], u, 0) == s.b[r]
  }

  /** `u` satisfies every equation. */
  ghost predicate Solves(s: System, n: nat, u: Vec)
    requires s.Square(n)
  {
    |u| == n && forall r | 0 <= r < n :: RowHolds(s, n, u, r)
  }

  // ----- One elimination step

  /** The row the pivot search settles on: the first one of largest magnitude, scanning from `r` on. */
  function PivotFrom(a: Matrix, n: nat, col: nat, r: nat, best: nat): (piv: nat)
    requires |a| == n && (forall i | 0 <= i < n :: |a[i]| == n) && col <= best < n && best < r <= n
    requires forall i | col <= i < r :: Abs(a[i][col]) <= Abs(a[best][col])
    requires forall i | col <= i < best :: Abs(a[i][col]) < Abs(a[best][col])
    ensures col <= piv < n && forall i | col <= i < n :: Abs(a[i][col]) <= Abs(a[piv][col])
    ensures forall i | col <= i < piv :: Abs(a[i][col]) < Abs(a[piv][col])
    decreases n - r
  {
    if r == n then best
    else PivotFrom(a, n, col, r + 1, if Abs(a[r][col]) > Abs(a[best][col]) then r else best)
  }

  function Pivot(s: System, n: nat, col: nat): (piv: nat)
    requires s.Square(n) && col < n
    ensures col <= piv < n && forall i | col <= i < n :: Abs(s.a[i][col]) <= Abs(s.a[piv][col])
    ensures forall i | col <= i < piv :: Abs(s.a[i][col]) < Abs(s.a[piv][col])
  {
    PivotFrom(s.a, n, col, col + 1, col)
  }

  function Best(s: System, n: nat, col: nat): real
    requires s.Square(n) && col < n
  {
    Abs(s.a[Pivot(s, n, col)][col])
  }

  function Swapped<T>(s: seq<T>, i: nat, j: nat): seq<T>
    requires i < |s| && j < |s|
  {
    s[i := s[j]][j := s[i]]
  }

  /** `x` minus `factor` times `y`, from column `from` on. */
  function Reduced(x: Vec, y: Vec, factor: real, from: nat): (r: Vec)
    requires |x| == |y|
    ensures |r| == |x|
    ensures forall c | 0 <= c < |x| :: r[c] == if c < from then x[c] else x[c] - factor * y[c]
  {
    seq(|x|, c requires 0 <= c < |x| => if c < from then x[c] else x[c] - factor * y[c])
  }

  function Factor(s: System, n: nat, col: nat, r: nat): real
    requires s.Square(n) && col < n && r < n && s.a[col][col] != 0.0
  {
    s.a[r][col] / s.a[col][col]
  }

  /** The rows below the pivot row `col` have been reduced by it. */
  function ReducedBelow(s: System, n: nat, col: nat): (t: System)
    requires s.Square(n) && col < n && s.a[col][col] != 0.0
    ensures t.Square(n)
    ensures forall r | 0 <= r < n :: t.a[r] ==
              if col < r then Reduced(s.a[r], s.a[col], Factor(s, n, col, r), col) else s.a[r]
    ensures forall r | 0 <= r < n :: t.b[r] ==
              if col < r then s.b[r] - Factor(s, n, col, r) * s.b[col] else s.b[r]
  {
    System(
      seq(n, r requires 0 <= r < n =>
        if col < r then Reduced(s.a[r], s.a[col], Factor(s, n, col, r), col) else s.a[r]),
      seq(n, r requires 0 <= r < n =>
        if col < r then s.b[r] - Factor(s, n, col, r) * s.b[col] else s.b[r]))
  }

  function WithPivot(s: System, n: nat, col: nat): (t: System)
    requires s.Square(n) && col < n
    ensures t.Square(n)
  {
    var piv := Pivot(s, n, col);
    System(Swapped(s.a, piv, col), Swapped(s.b, piv, col))
  }

  /** The system after the elimination step of column `col`. */
  function Eliminated(s: System, n: nat, col: nat): (t: System)
    requires s.Square(n) && col < n
    ensures t.Square(n)
  {
    if Best(s, n, col) < TINY then s
    else
      PivotNonzero(s, n, col);
      ReducedBelow(WithPivot(s, n, col), n, col)
  }

  lemma PivotNonzero(s: System, n: nat, col: nat)
    requires s.Square(n) && col < n && Best(s, n, col) >= TINY
    ensures WithPivot(s, n, col).a[col][col] != 0.0
    ensures Abs(WithPivot(s, n, col).a[col][col]) == Best(s, n, col)
  {
  }

  /** The system after the elimination steps of columns `0 .. cols`. */
  function Forward(s: System, n: nat, cols: nat): (t: System)
    requires s.Square(n) && cols <= n
    ensures t.Square(n)
  {
    if cols == 0 then s else Eliminated(Forward(s, n, cols - 1), n, cols - 1)
  }

  /** One back-substitution step: the value of unknown `row`, given those after it, or zero when the diagonal entry is not
    above the threshold `least`. */
  function BackValue(s: System, n: nat, u: Vec, row: nat, least: real): real
    requires s.Square(n) && |u| == n && row < n && least >= 0.0
  {
    var sum := s.b[row] - Dot(s.a[row], u, row + 1);
    if Abs(s.a[row][row]) > least then sum / s.a[row][row] else 0.0
  }

  /** The unknowns `from ..`; the ones before are still zero. */
  function BackSubstituted(s: System, n: nat, from: nat, least: real): (u: Vec)
    requires s.Square(n) && from <= n && least >= 0.0
    ensures |u| == n
    decreases n - from
  {
    if from == n then seq(n, _ => 0.0)
    else
      var u := BackSubstituted(s, n, from + 1, least);
      u[from := BackValue(s, n, u, from, least)]
  }

  /** What `solve_dense` returns. */
  function Solution(s: System, n: nat): (u: Vec)
    requires s.Square(n)
    ensures |u| == n
  {
    BackSubstituted(Forward(s, n, n), n, 0, TINY)
  }
}
