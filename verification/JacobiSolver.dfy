/** `jacobi_eigen` in place (tpt-vertex-simulation/src/modal.rs). */
module JacobiSolver {
  import opened LinearSystems
  import opened MatrixArrays
  import opened Rotations
  import opened Eigenpairs

  /** An off-diagonal entry below this magnitude is skipped. */
  const SKIP: real := 0.00000000000001
  /** A sweep starts only while the off-diagonal norm is at least this. */
  const CONVERGED: real := 0.0000000001

  /** `v` is an orthonormal basis in which the symmetric matrix `a0` reads `a`; trace and norm are those of `a0`, and the
    off-diagonal mass has not grown. */
  ghost predicate Diagonalising(a0: Matrix, a: Matrix, v: Matrix, n: nat)
    requires IsSquare(a0, n)
  {
    && IsSquare(a, n) && IsSquare(v, n)
    && Symmetric(a, n) && Represents(a0, a, v, n) && Intertwines(a0, a, v, n) && Orthonormal(v, n)
    && Trace(a, n) == Trace(a0, n) && Norm(a, n) == Norm(a0, n) && Off(a, n) <= Off(a0, n)
  }

  lemma StartDiagonalising(a0: Matrix, n: nat)
    requires IsSquare(a0, n) && Symmetric(a0, n)
    ensures Diagonalising(a0, a0, Identity(n), n)
  {
    var e := Identity(n);
    IdentityIntertwines(a0, n);
    forall i | 0 <= i < n
      ensures Column(e, n, i) == e[i]
    {
    }
    forall i, j | 0 <= i < n && 0 <= j < n
      ensures Entry(a0, a0, e, n, i, j)
      ensures Dot(Column(e, n, i), Column(e, n, j), 0) == if i == j then 1.0 else 0.0
    {
      DotUnit(e[i], Times(a0, n, e[j]), i, 0);
      DotUnit(e[i], e[j], i, 0);
      DotSymmetric(a0[i], e[j], 0);
      DotUnit(e[j], a0[i], j, 0);
    }
  }

  lemma RotationDiagonalises(a0: Matrix, a: Matrix, v: Matrix, n: nat, p: nat, q: nat, g: Angle)
    requires IsSquare(a0, n) && Diagonalising(a0, a, v, n) && p < q < n && AnnihilatesAt(a, n, p, q, g)
    ensures Diagonalising(a0, Rotated(a, n, p, q, g), Turned(v, n, p, q, g), n)
    ensures LosesEntry(a, Rotated(a, n, p, q, g), n, p, q)
  {
    UnitAngle(g, a[p][p], a[q][q], a[p][q]);
    RotationRepresents(a0, a, v, n, p, q, g);
    RotationOrthonormal(a, v, n, p, q, g);
    RotationIntertwines(a0, a, v, n, p, q, g);
    TraceKept(a, n, p, q, g);
    NormKept(a, n, p, q, g);
    OffDrops(a, n, p, q, g);
    SquareNonnegative(a[p][q]);
  }

  /** Entry `(p, q)` is annihilated and the off-diagonal mass falls by exactly twice its square. */
  ghost predicate LosesEntry(before: Matrix, after: Matrix, n: nat, p: nat, q: nat)
    requires IsSquare(before, n) && IsSquare(after, n) && p < q < n
  {
    after[p][q] == 0.0 && Off(after, n) == Off(before, n) - 2.0 * (before[p][q] * before[p][q])
  }

  lemma LosingIsNotGrowing(before: Matrix, after: Matrix, n: nat, p: nat, q: nat)
    requires IsSquare(before, n) && IsSquare(after, n) && p < q < n && LosesEntry(before, after, n, p, q)
    ensures Off(after, n) <= Off(before, n)
  {
    SquareNonnegative(before[p][q]);
  }

  lemma SquareNonnegative(x: real)
    ensures x * x >= 0.0
  {
  }

  /** The program's choice of angle for a pivot entry. */
  method ChooseAngle(sqrt: real -> real, app: real, aqq: real, apq: real) returns (g: Angle)
    requires IsSqrt(sqrt) && apq != 0.0
    ensures Annihilates(g, app, aqq, apq)
  {
    var theta := (aqq - app) / (2.0 * apq);
    SquareNonnegative(theta);
    var root := sqrt(1.0 + theta * theta);
    TangentAnnihilates(theta, root);
    var t := SignOf(theta) / (Abs(theta) + root);
    SquareNonnegative(t);
    var h := sqrt(1.0 + t * t);
    assert h != 0.0;
    var c := 1.0 / h;
    g := Angle(c, t * c, t);
    CosineSquared(c, h, t);
    HalfDifference(theta, t, app, aqq, apq);
  }

  lemma CosineSquared(c: real, h: real, t: real)
    requires h != 0.0 && c == 1.0 / h && h * h == 1.0 + t * t
    ensures c * c * (1.0 + t * t) == 1.0
  {
    assert c * h == 1.0;
    assert c * c * (h * h) == (c * h) * (c * h);
  }

  lemma HalfDifference(theta: real, t: real, app: real, aqq: real, apq: real)
    requires apq != 0.0 && theta == (aqq - app) / (2.0 * apq) && t * t + 2.0 * theta * t == 1.0
    ensures t * (aqq - app) == apq * (1.0 - t * t)
  {
    assert aqq - app == theta * (2.0 * apq);
    assert t * (theta * (2.0 * apq)) == apq * (2.0 * theta * t);
  }

  /** The two update loops of one rotation. */
  method Rotate(a: array2<real>, v: array2<real>, n: nat, p: nat, q: nat, g: Angle)
    requires a.Length0 == a.Length1 == v.Length0 == v.Length1 == n && p < q < n && a != v
    requires Symmetric(Rows(a), n)
    modifies a, v
    ensures Rows(a) == Rotated(old(Rows(a)), n, p, q, g)
    ensures Rows(v) == Turned(old(Rows(v)), n, p, q, g)
  {
    RotateMatrix(a, n, p, q, g);
    TurnBasis(v, n, p, q, g);
  }

  /** The pivot block of the rotated matrix, and what lies outside the two rows and columns. */
  lemma BlockOfRotated(x: Matrix, n: nat, p: nat, q: nat, g: Angle)
    requires IsSquare(x, n) && p < q < n
    ensures var y := Rotated(x, n, p, q, g);
            && y[p][p] == x[p][p] - g.t * x[p][q] && y[q][q] == x[q][q] + g.t * x[p][q] && y[p][q] == y[q][p] == 0.0
            && forall r, k | 0 <= r < n && 0 <= k < n && r != p && r != q && k != p && k != q :: y[r][k] == x[r][k]
  {
  }

  method RotateMatrix(a: array2<real>, n: nat, p: nat, q: nat, g: Angle)
    requires a.Length0 == a.Length1 == n && p < q < n && Symmetric(Rows(a), n)
    modifies a
    ensures Rows(a) == Rotated(old(Rows(a)), n, p, q, g)
  {
    hide RotatedEntry;
    ghost var x := Rows(a);
    ghost var y := Rotated(x, n, p, q, g);
    BlockOfRotated(x, n, p, q, g);
    var app, aqq, apq := a[p, p], a[q, q], a[p, q];
    a[p, p] := app - g.t * apq;
    a[q, q] := aqq + g.t * apq;
    a[p, q] := 0.0;
    a[q, p] := 0.0;
    var i := 0;
    while i < n
      invariant 0 <= i <= n
      invariant forall r, k | 0 <= r < n && 0 <= k < n ::
        a[r, k] == if Done(r, k, p, q, i) then y[r][k] else x[r][k]
    {
      if i != p && i != q {
        RotateCross(a, n, p, q, g, i, x);
      }
      i := i + 1;
    }
    RowsEqual(a, y);
  }

  /** Row and column `i`, away from the pivot block. */
  method RotateCross(a: array2<real>, n: nat, p: nat, q: nat, g: Angle, i: nat, ghost x: Matrix)
    requires a.Length0 == a.Length1 == n && p < q < n && i < n && i != p && i != q
    requires IsSquare(x, n) && Symmetric(x, n) && a[i, p] == x[i][p] && a[i, q] == x[i][q]
    modifies a
    ensures var y := Rotated(x, n, p, q, g);
            a[i, p] == y[i][p] && a[p, i] == y[p][i] && a[i, q] == y[i][q] && a[q, i] == y[q][i]
    ensures forall r, k | 0 <= r < n && 0 <= k < n && !(r == i && (k == p || k == q)) && !(k == i && (r == p || r == q)) ::
              a[r, k] == old(a[r, k])
  {
    var aip, aiq := a[i, p], a[i, q];
    a[i, p] := g.c * aip - g.s * aiq;
    a[p, i] := a[i, p];
    a[i, q] := g.s * aip + g.c * aiq;
    a[q, i] := a[i, q];
  }

  /** Whether an entry has its final value once the indices below `i` are handled. */
  predicate Done(r: nat, k: nat, p: nat, q: nat, i: nat) {
    var rPivot, kPivot := r == p || r == q, k == p || k == q;
    (rPivot && kPivot) || (!rPivot && !kPivot) || (rPivot && k < i) || (kPivot && r < i)
  }

  method TurnBasis(v: array2<real>, n: nat, p: nat, q: nat, g: Angle)
    requires v.Length0 == v.Length1 == n && p < q < n
    modifies v
    ensures Rows(v) == Turned(old(Rows(v)), n, p, q, g)
  {
    ghost var x := Rows(v);
    ghost var y := Turned(x, n, p, q, g);
    var i := 0;
    while i < n
      invariant 0 <= i <= n
      invariant forall r, k | 0 <= r < n && 0 <= k < n :: v[r, k] == if r < i then y[r][k] else x[r][k]
    {
      var vip, viq := v[i, p], v[i, q];
      RowOfTurned(x, n, p, q, g, i);
      hide Turned, PairTurned, Low, High;
      v[i, p] := Low(g, vip, viq);
      v[i, q] := High(g, vip, viq);
      i := i + 1;
    }
    RowsEqual(v, y);
  }

  /** What a rotation that is not skipped takes from the off-diagonal mass at least. */
  const PROGRESS: real := 2.0 * (SKIP * SKIP)

  function Progress(sweeps: nat): real {
    sweeps as real * PROGRESS
  }

  /** The pairs before `(p, q)` in the order of the sweep are all negligible. */
  ghost predicate NegligibleBefore(a: Matrix, n: nat, p: nat, q: nat)
    requires IsSquare(a, n)
  {
    forall i, j | 0 <= i < j < n && (i < p || (i == p && j < q)) :: Abs(a[i][j]) < SKIP
  }

  /** Every entry above the diagonal is negligible. */
  ghost predicate Negligible(a: Matrix, n: nat)
    requires IsSquare(a, n)
  {
    forall i, j | 0 <= i < j < n :: Abs(a[i][j]) < SKIP
  }

  /** How far a sweep has come: nothing has changed while all pairs were negligible, and progress was made otherwise. */
  ghost predicate Swept(a: Matrix, v: Matrix, a': Matrix, v': Matrix, n: nat, p: nat, q: nat)
    requires IsSquare(a, n) && IsSquare(a', n)
  {
    if NegligibleBefore(a, n, p, q) then a' == a && v' == v else Off(a', n) <= Off(a, n) - PROGRESS
  }

  lemma ProgressMade(x: real)
    requires Abs(x) >= SKIP
    ensures 2.0 * (x * x) >= PROGRESS
  {
    if x < 0.0 {
      SquareAtLeast(-x, SKIP);
    } else {
      SquareAtLeast(x, SKIP);
    }
  }

  lemma SquareAtLeast(x: real, y: real)
    requires 0.0 <= y <= x
    ensures y * y <= x * x
  {
    if y < x {
      SquareBelow(y, x);
    }
  }

  /** One more pair. */
  lemma SweptMore(a: Matrix, v: Matrix, b: Matrix, w: Matrix, a': Matrix, v': Matrix, n: nat, p: nat, q: nat)
    requires IsSquare(a, n) && IsSquare(b, n) && IsSquare(a', n) && p < q < n && Swept(a, v, b, w, n, p, q)
    requires Abs(b[p][q]) < SKIP ==> a' == b && v' == w
    requires Abs(b[p][q]) >= SKIP ==> LosesEntry(b, a', n, p, q)
    ensures Swept(a, v, a', v', n, p, q + 1)
  {
    hide Off;
    if NegligibleBefore(a, n, p, q + 1) {
      assert NegligibleBefore(a, n, p, q);
    } else if Abs(b[p][q]) >= SKIP {
      ProgressMade(b[p][q]);
      SquareNonnegative(b[p][q]);
    }
  }

  lemma SweptRow(a: Matrix, v: Matrix, a': Matrix, v': Matrix, n: nat, p: nat)
    requires IsSquare(a, n) && IsSquare(a', n) && p < n && Swept(a, v, a', v', n, p, n)
    ensures Swept(a, v, a', v', n, p + 1, p + 2)
  {
    assert NegligibleBefore(a, n, p, n) <==> NegligibleBefore(a, n, p + 1, p + 2);
  }

  /** One cyclic sweep over all pairs. When every pair is negligible it changes nothing; otherwise it lowers the off-diagonal
    mass by at least twice the square of the skip threshold. */
  method Sweep(sqrt: real -> real, a: array2<real>, v: array2<real>, n: nat, ghost a0: Matrix)
    requires IsSqrt(sqrt) && a.Length0 == a.Length1 == v.Length0 == v.Length1 == n && a != v
    requires IsSquare(a0, n) && Diagonalising(a0, Rows(a), Rows(v), n)
    modifies a, v
    ensures Diagonalising(a0, Rows(a), Rows(v), n)
    ensures if Negligible(old(Rows(a)), n) then Rows(a) == old(Rows(a)) && Rows(v) == old(Rows(v))
            else Off(Rows(a), n) <= Off(old(Rows(a)), n) - PROGRESS
  {
    hide Diagonalising, Swept, NegligibleBefore, LosesEntry;
    ghost var start, basis := Rows(a), Rows(v);
    var p := 0;
    NothingSwept(start, basis, n);
    while p < n
      invariant 0 <= p <= n
      invariant Diagonalising(a0, Rows(a), Rows(v), n) && Swept(start, basis, Rows(a), Rows(v), n, p, p + 1)
    {
      var q := p + 1;
      while q < n
        invariant p + 1 <= q <= n
        invariant Diagonalising(a0, Rows(a), Rows(v), n) && Swept(start, basis, Rows(a), Rows(v), n, p, q)
      {
        ghost var b, w := Rows(a), Rows(v);
        assert b[p][q] == a[p, q];
        RotatePair(sqrt, a, v, n, p, q, a0);
        SweptMore(start, basis, b, w, Rows(a), Rows(v), n, p, q);
        q := q + 1;
      }
      SweptRow(start, basis, Rows(a), Rows(v), n, p);
      p := p + 1;
    }
    AllSwept(start, basis, Rows(a), Rows(v), n);
  }

  lemma NothingSwept(a: Matrix, v: Matrix, n: nat)
    requires IsSquare(a, n)
    ensures Swept(a, v, a, v, n, 0, 1)
  {
  }

  lemma AllSwept(a: Matrix, v: Matrix, a': Matrix, v': Matrix, n: nat)
    requires IsSquare(a, n) && IsSquare(a', n) && Swept(a, v, a', v', n, n, n + 1)
    ensures if Negligible(a, n) then a' == a && v' == v else Off(a', n) <= Off(a, n) - PROGRESS
  {
    assert Negligible(a, n) <==> NegligibleBefore(a, n, n, n + 1);
  }

  /** The body of the sweep: skip a negligible entry, otherwise annihilate it. */
  method RotatePair(sqrt: real -> real, a: array2<real>, v: array2<real>, n: nat, p: nat, q: nat, ghost a0: Matrix)
    requires IsSqrt(sqrt) && a.Length0 == a.Length1 == v.Length0 == v.Length1 == n && a != v && p < q < n
    requires IsSquare(a0, n) && Diagonalising(a0, Rows(a), Rows(v), n)
    modifies a, v
    ensures Diagonalising(a0, Rows(a), Rows(v), n)
    ensures Abs(old(a[p, q])) < SKIP ==> Rows(a) == old(Rows(a)) && Rows(v) == old(Rows(v))
    ensures Abs(old(a[p, q])) >= SKIP ==> LosesEntry(old(Rows(a)), Rows(a), n, p, q)
    ensures Off(Rows(a), n) <= Off(old(Rows(a)), n)
  {
    var apq := a[p, q];
    if Abs(apq) < SKIP {
      return;
    }
    ghost var before := Rows(a);
    var g := ChooseAngle(sqrt, a[p, p], a[q, q], apq);
    RotateBy(a, v, n, p, q, g, a0);
    LosingIsNotGrowing(before, Rows(a), n, p, q);
  }

  method RotateBy(a: array2<real>, v: array2<real>, n: nat, p: nat, q: nat, g: Angle, ghost a0: Matrix)
    requires a.Length0 == a.Length1 == v.Length0 == v.Length1 == n && a != v && p < q < n
    requires IsSquare(a0, n) && Diagonalising(a0, Rows(a), Rows(v), n) && AnnihilatesAt(Rows(a), n, p, q, g)
    modifies a, v
    ensures Diagonalising(a0, Rows(a), Rows(v), n) && LosesEntry(old(Rows(a)), Rows(a), n, p, q)
  {
    RotationDiagonalises(a0, Rows(a), Rows(v), n, p, q, g);
    Rotate(a, v, n, p, q, g);
  }

  /** The off-diagonal sum the program tests before each sweep. */
  method OffSum(a: array2<real>, n: nat) returns (off: real)
    requires a.Length0 == a.Length1 == n
    ensures off == Off(Rows(a), n)
  {
    off := 0.0;
    var i := 0;
    ghost var m := Rows(a);
    assert OffRows(m, n)[0..] == OffRows(m, n);
    while i < n
      invariant 0 <= i <= n
      invariant off + Sum(OffRows(m, n)[i..]) == Off(m, n)
    {
      off := AddOffRow(a, n, i, off);
      assert OffRows(m, n)[i..][1..] == OffRows(m, n)[i + 1..];
      i := i + 1;
    }
    assert OffRows(m, n)[n..] == [];
  }

  method AddOffRow(a: array2<real>, n: nat, i: nat, start: real) returns (off: real)
    requires a.Length0 == a.Length1 == n && i < n
    ensures off == start + Sum(OffRow(Rows(a), n, i))
  {
    off := start;
    ghost var squares := OffRow(Rows(a), n, i);
    var j := 0;
    assert squares[0..] == squares;
    while j < n
      invariant 0 <= j <= n
      invariant off + Sum(squares[j..]) == start + Sum(squares)
    {
      assert squares[j..][1..] == squares[j + 1..];
      if i != j {
        off := off + a[i, j] * a[i, j];
      }
      j := j + 1;
    }
    assert squares[n..] == [];
  }

  /** Indices in ascending order of value. */
  ghost predicate Ascending(values: Vec, idx: seq<nat>, n: nat) {
    && |idx| == n == |values|
    && (forall i | 0 <= i < n :: idx[i] < n)
    && (forall i, j | 0 <= i < j < n :: idx[i] != idx[j] && values[idx[i]] <= values[idx[j]])
  }

  ghost predicate AscendingSoFar(values: Vec, idx: seq<nat>, k: nat) {
    && |idx| == k <= |values|
    && (forall i | 0 <= i < k :: idx[i] < k)
    && (forall i, j | 0 <= i < j < k :: idx[i] != idx[j] && values[idx[i]] <= values[idx[j]])
  }

  lemma InsertAscending(values: Vec, idx: seq<nat>, k: nat, at: nat)
    requires AscendingSoFar(values, idx, k) && k < |values| && at <= k
    requires forall i | 0 <= i < at :: values[idx[i]] <= values[k]
    requires forall i | at <= i < k :: values[idx[i]] > values[k]
    ensures AscendingSoFar(values, idx[..at] + [k] + idx[at..], k + 1)
  {
    var r := idx[..at] + [k] + idx[at..];
    forall i, j | 0 <= i < j < k + 1
      ensures r[i] != r[j] && values[r[i]] <= values[r[j]]
    {
      assert r[i] == if i < at then idx[i] else if i == at then k else idx[i - 1];
      assert r[j] == if j < at then idx[j] else if j == at then k else idx[j - 1];
    }
  }

  /** The library's sort, as insertion of each index after those not larger. */
  method SortedIndices(values: Vec, n: nat) returns (idx: seq<nat>)
    requires |values| == n
    ensures Ascending(values, idx, n)
  {
    idx := [];
    var k := 0;
    while k < n
      invariant 0 <= k <= n && AscendingSoFar(values, idx, k)
    {
      var at := k;
      while at > 0 && values[idx[at - 1]] > values[k]
        invariant 0 <= at <= k
        invariant forall i | at <= i < k :: values[idx[i]] > values[k]
      {
        at := at - 1;
      }
      InsertAscending(values, idx, k, at);
      idx := idx[..at] + [k] + idx[at..];
      k := k + 1;
    }
  }

  /** Value and vector are an eigenpair of the matrix, up to a residual of this squared length. */
  ghost predicate EigenpairWithin(a0: Matrix, n: nat, lambda: real, x: Vec, bound: real)
    requires IsSquare(a0, n) && |x| == n
  {
    Dot(Residual(a0, n, lambda, x), Residual(a0, n, lambda, x), 0) <= bound
  }

  lemma PairsWithin(a0: Matrix, a: Matrix, v: Matrix, n: nat)
    requires IsSquare(a0, n) && Diagonalising(a0, a, v, n)
    ensures forall j | 0 <= j < n :: EigenpairWithin(a0, n, a[j][j], Column(v, n, j), Off(a, n))
  {
    forall j | 0 <= j < n
      ensures EigenpairWithin(a0, n, a[j][j], Column(v, n, j), Off(a, n))
    {
      ResidualIsOffRow(a0, a, v, n, j);
    }
  }

  lemma ConvergedOff(sqrt: real -> real, a: Matrix, n: nat)
    requires IsSqrt(sqrt) && IsSquare(a, n) && sqrt(Off(a, n)) < CONVERGED
    ensures Off(a, n) < CONVERGED * CONVERGED
  {
    OffNotNegative(a, n);
    SquareBelow(sqrt(Off(a, n)), CONVERGED);
  }

  lemma SquareBelow(x: real, y: real)
    requires 0.0 <= x < y
    ensures x * x < y * y
  {
    assert (y - x) * y > 0.0;
    assert (y - x) * x >= 0.0;
    assert y * y - x * x == (y - x) * y + (y - x) * x;
  }

  /** Eigenvalues ascending, each with its own column: the returned columns are an orthonormal basis in which the input
    reads with the returned values on the diagonal, and each pair is an eigenpair up to the off-diagonal mass left over.
    `sweeps` below 100 means the off-diagonal norm test succeeded; unless nothing is left to annihilate, every sweep has made
    progress. */
  method JacobiEigen(sqrt: real -> real, input: Matrix, n: nat)
    returns (values: Vec, vectors: array2<real>, ghost a: Matrix, ghost v: Matrix, ghost idx: seq<nat>, ghost sweeps: nat)
    requires IsSqrt(sqrt) && IsSquare(input, n) && Symmetric(input, n)
    ensures Diagonalising(input, a, v, n)
    ensures sweeps <= 100 && (Negligible(a, n) || Off(a, n) <= Off(input, n) - Progress(sweeps))
    ensures |values| == n && vectors.Length0 == vectors.Length1 == n && Ascending(Diagonal(a, n), idx, n)
    ensures forall m | 0 <= m < n :: values[m] == a[idx[m]][idx[m]] && Column(Rows(vectors), n, m) == Column(v, n, idx[m])
    ensures forall m | 0 <= m < n :: EigenpairWithin(input, n, values[m], Column(Rows(vectors), n, m), Off(a, n))
    ensures sweeps < 100 ==> Off(a, n) < CONVERGED * CONVERGED
  {
    var work := new real[n, n]((i, j) requires 0 <= i < n && 0 <= j < n => input[i][j]);
    var basis := new real[n, n]((i, j) => if i == j then 1.0 else 0.0);
    RowsEqual(work, input);
    RowsEqual(basis, Identity(n));
    hide Diagonalising, Negligible, Off, Identity, Progress, Ascending, EigenpairWithin;
    StartDiagonalising(input, n);
    sweeps := Diagonalise(sqrt, work, basis, n, input);
    a, v := Rows(work), Rows(basis);
    values, vectors, idx := SortPairs(work, basis, n);
    PairsWithin(input, a, v, n);
    if sweeps < 100 {
      ConvergedOff(sqrt, a, n);
    }
  }

  method Diagonalise(sqrt: real -> real, a: array2<real>, v: array2<real>, n: nat, ghost a0: Matrix)
    returns (ghost sweeps: nat)
    requires IsSqrt(sqrt) && a.Length0 == a.Length1 == v.Length0 == v.Length1 == n && a != v
    requires IsSquare(a0, n) && Diagonalising(a0, Rows(a), Rows(v), n)
    modifies a, v
    ensures Diagonalising(a0, Rows(a), Rows(v), n)
    ensures sweeps <= 100 && (sweeps < 100 ==> sqrt(Off(Rows(a), n)) < CONVERGED)
    ensures Negligible(Rows(a), n) || Off(Rows(a), n) <= Off(old(Rows(a)), n) - Progress(sweeps)
  {
    hide Diagonalising, Negligible, Off;
    ghost var start := Off(Rows(a), n);
    var sweep := 0;
    while sweep < 100
      invariant 0 <= sweep <= 100
      invariant Diagonalising(a0, Rows(a), Rows(v), n)
      invariant Negligible(Rows(a), n) || Off(Rows(a), n) <= start - Progress(sweep)
    {
      var off := OffSum(a, n);
      if sqrt(off) < CONVERGED {
        break;
      }
      Sweep(sqrt, a, v, n, a0);
      sweep := sweep + 1;
    }
    sweeps := sweep;
  }

  /** The final sort moves each eigenvalue together with its column. */
  method SortPairs(a: array2<real>, v: array2<real>, n: nat) returns (values: Vec, vectors: array2<real>, ghost idx: seq<nat>)
    requires a.Length0 == a.Length1 == v.Length0 == v.Length1 == n
    ensures fresh(vectors) && |values| == n && vectors.Length0 == vectors.Length1 == n
    ensures Ascending(Diagonal(Rows(a), n), idx, n)
    ensures forall m | 0 <= m < n ::
              values[m] == a[idx[m], idx[m]] && Column(Rows(vectors), n, m) == Column(Rows(v), n, idx[m])
  {
    var eigvals := seq(n, i requires 0 <= i < n reads a => a[i, i]);
    assert eigvals == Diagonal(Rows(a), n);
    var order := SortedIndices(eigvals, n);
    values := seq(n, m requires 0 <= m < n => eigvals[order[m]]);
    vectors := new real[n, n]((_, _) => 0.0);
    var col := 0;
    while col < n
      invariant 0 <= col <= n
      invariant forall r, k | 0 <= r < n && 0 <= k < col :: vectors[r, k] == v[r, order[k]]
    {
      var row := 0;
      while row < n
        invariant 0 <= row <= n
        invariant forall r, k | 0 <= r < n && 0 <= k < col :: vectors[r, k] == v[r, order[k]]
        invariant forall r | 0 <= r < row :: vectors[r, col] == v[r, order[col]]
      {
        vectors[row, col] := v[row, order[col]];
        row := row + 1;
      }
      col := col + 1;
    }
    idx := order;
  }
}
