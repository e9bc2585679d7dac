/** Why `solve_dense` is right: each step keeps the solution set, the result is
  triangular, and back substitution finds the one solution. */
module Elimination {
  import opened LinearSystems

  // ----- Dot products

  lemma {:induction false} DotReduced(x: Vec, y: Vec, factor: real, from: nat, u: Vec, k: nat)
    requires |x| == |y| == |u| && k <= |u|
    requires forall c | k <= c < from && c < |u| :: y[c] == 0.0
    ensures Dot(Reduced(x, y, factor, from), u, k) == Dot(x, u, k) - factor * Dot(y, u, k)
    decreases |u| - k
  {
    if k < |u| {
      DotReduced(x, y, factor, from, u, k + 1);
      var r, p, q := Reduced(x, y, factor, from)[k], Dot(x, u, k + 1), Dot(y, u, k + 1);
      assert r == x[k] - factor * y[k];
      assert r * u[k] == x[k] * u[k] - factor * (y[k] * u[k]);
      assert factor * (y[k] * u[k] + q) == factor * (y[k] * u[k]) + factor * q;
    }
  }

  lemma {:induction false} DotZeroPrefix(x: Vec, u: Vec, k: nat, end: nat)
    requires |x| == |u| && k <= end <= |x|
    requires forall c | k <= c < end :: x[c] == 0.0
    ensures Dot(x, u, k) == Dot(x, u, end)
    decreases end - k
  {
    if k < end {
      DotZeroPrefix(x, u, k + 1, end);
    }
  }

  lemma {:induction false} DotSameTail(x: Vec, u: Vec, v: Vec, k: nat)
    requires |x| == |u| == |v| && k <= |x|
    requires forall c | k <= c < |x| :: u[c] == v[c]
    ensures Dot(x, u, k) == Dot(x, v, k)
    decreases |x| - k
  {
    if k < |x| {
      DotSameTail(x, u, v, k + 1);
    }
  }

  // ----- Steps keep the solutions

  /** Entries below the diagonal are zero in the first `cols` columns. */
  ghost predicate Echelon(s: System, n: nat, cols: nat)
    requires s.Square(n)
  {
    forall r, c | 0 <= c < cols && c < r < n :: s.a[r][c] == 0.0
  }

  lemma SwapKeepsSolutions(s: System, n: nat, col: nat, u: Vec)
    requires s.Square(n) && col < n && |u| == n
    ensures Solves(s, n, u) <==> Solves(WithPivot(s, n, col), n, u)
  {
    var t, piv := WithPivot(s, n, col), Pivot(s, n, col);
    assert forall r | 0 <= r < n :: RowHolds(t, n, u, r) <==> RowHolds(s, n, u, if r == piv then col else if r == col then piv else r);
    if Solves(t, n, u) {
      forall r | 0 <= r < n
        ensures RowHolds(s, n, u, r)
      {
        assert RowHolds(t, n, u, if r == piv then col else if r == col then piv else r);
      }
    }
  }

  lemma SwapKeepsEchelon(s: System, n: nat, col: nat)
    requires s.Square(n) && col < n && Echelon(s, n, col)
    ensures Echelon(WithPivot(s, n, col), n, col)
  {
  }

  lemma ReductionKeepsSolutions(s: System, n: nat, col: nat, u: Vec)
    requires s.Square(n) && col < n && |u| == n && Echelon(s, n, col) && s.a[col][col] != 0.0
    ensures Solves(s, n, u) <==> Solves(ReducedBelow(s, n, col), n, u)
  {
    hide Dot;
    var t := ReducedBelow(s, n, col);
    assert RowHolds(t, n, u, col) <==> RowHolds(s, n, u, col);
    forall r | 0 <= r < n
      ensures RowHolds(s, n, u, col) ==> (RowHolds(s, n, u, r) <==> RowHolds(t, n, u, r))
    {
      if r > col {
        DotReduced(s.a[r], s.a[col], Factor(s, n, col, r), col, u, 0);
      }
    }
  }

  lemma ReductionMakesEchelon(s: System, n: nat, col: nat)
    requires s.Square(n) && col < n && Echelon(s, n, col) && s.a[col][col] != 0.0
    ensures Echelon(ReducedBelow(s, n, col), n, col + 1)
  {
    var t := ReducedBelow(s, n, col);
    forall r, c | 0 <= c < col + 1 && c < r < n
      ensures t.a[r][c] == 0.0
    {
      if c == col {
        assert t.a[r][c] == s.a[r][col] - s.a[r][col] / s.a[col][col] * s.a[col][col];
      }
    }
  }

  /** A degree of freedom no equation mentions: zero row, zero column, zero load (a lattice node in no tetrahedron). */
  ghost predicate Dead(s: System, n: nat, d: nat)
    requires s.Square(n)
  {
    d < n && s.b[d] == 0.0 && forall i | 0 <= i < n :: s.a[d][i] == 0.0 && s.a[i][d] == 0.0
  }

  /** Every column outside `dead` meets a pivot the solver keeps to the end. */
  ghost predicate GoodPivots(s: System, n: nat, dead: set<nat>)
    requires s.Square(n)
  {
    forall col | 0 <= col < n && col !in dead :: GoodPivot(s, n, col)
  }

  ghost predicate GoodPivot(s: System, n: nat, col: nat)
    requires s.Square(n) && col < n
  {
    Best(Forward(s, n, col), n, col) > TINY
  }

  /** Every column outside `dead` meets a pivot the solver eliminates with. */
  ghost predicate UsedPivots(s: System, n: nat, dead: set<nat>)
    requires s.Square(n)
  {
    forall col | 0 <= col < n && col !in dead :: UsedPivot(s, n, col)
  }

  ghost predicate UsedPivot(s: System, n: nat, col: nat)
    requires s.Square(n) && col < n
  {
    Best(Forward(s, n, col), n, col) >= TINY
  }

  ghost predicate AllDead(s: System, n: nat, dead: set<nat>)
    requires s.Square(n)
  {
    forall d | d in dead :: Dead(s, n, d)
  }

  ghost predicate VanishesOn(u: Vec, dead: set<nat>) {
    forall d | d in dead && d < |u| :: u[d] == 0.0
  }

  ghost predicate SameSolutions(s: System, t: System, n: nat)
    requires s.Square(n) && t.Square(n)
  {
    forall u: Vec | |u| == n :: Solves(s, n, u) <==> Solves(t, n, u)
  }

  /** The diagonal entries of the finished columns are pivots eliminated with. */
  ghost predicate KeptPivots(s: System, n: nat, dead: set<nat>, cols: nat)
    requires s.Square(n) && cols <= n
  {
    forall c | 0 <= c < cols && c !in dead :: Abs(s.a[c][c]) >= TINY
  }

  lemma DeadAfterSwap(s: System, n: nat, col: nat, d: nat)
    requires s.Square(n) && col < n && col != d && Dead(s, n, d) && Best(s, n, col) >= TINY
    ensures Dead(WithPivot(s, n, col), n, d)
  {
    var piv := Pivot(s, n, col);
    assert s.a[piv][col] != 0.0;
    assert piv != d;
  }

  lemma DeadAfterReduction(w: System, n: nat, col: nat, d: nat)
    requires w.Square(n) && col < n && col != d && Dead(w, n, d) && w.a[col][col] != 0.0
    ensures Dead(ReducedBelow(w, n, col), n, d)
  {
    var t := ReducedBelow(w, n, col);
    if d > col {
      assert Factor(w, n, col, d) == 0.0;
    }
    forall i | 0 <= i < n
      ensures t.a[d][i] == 0.0 && t.a[i][d] == 0.0
    {
    }
  }

  lemma DeadStays(s: System, n: nat, col: nat, d: nat)
    requires s.Square(n) && col < n && Dead(s, n, d)
    requires col == d || Best(s, n, col) >= TINY
    ensures Dead(Eliminated(s, n, col), n, d)
  {
    if col == d {
      assert Best(s, n, col) == 0.0;
    } else {
      PivotNonzero(s, n, col);
      DeadAfterSwap(s, n, col, d);
      DeadAfterReduction(WithPivot(s, n, col), n, col, d);
    }
  }

  /** One column of a run. */
  lemma DeadColumn(t: System, n: nat, dead: set<nat>, col: nat)
    requires t.Square(n) && col < n && col in dead && Echelon(t, n, col) && AllDead(t, n, dead) && KeptPivots(t, n, dead, col)
    ensures Eliminated(t, n, col) == t && Echelon(t, n, col + 1) && KeptPivots(t, n, dead, col + 1)
  {
    assert Dead(t, n, col);
  }

  lemma LiveColumn(t: System, n: nat, dead: set<nat>, col: nat)
    requires t.Square(n) && col < n && col !in dead && Best(t, n, col) >= TINY
    requires Echelon(t, n, col) && KeptPivots(t, n, dead, col)
    ensures var v := Eliminated(t, n, col);
            Echelon(v, n, col + 1) && KeptPivots(v, n, dead, col + 1) && SameSolutions(t, v, n)
  {
    PivotNonzero(t, n, col);
    var w := WithPivot(t, n, col);
    SwapKeepsEchelon(t, n, col);
    ReductionMakesEchelon(w, n, col);
    forall u: Vec | |u| == n
      ensures Solves(t, n, u) <==> Solves(Eliminated(t, n, col), n, u)
    {
      SwapKeepsSolutions(t, n, col, u);
      ReductionKeepsSolutions(w, n, col, u);
    }
  }

  lemma LiveColumnKeepsDead(t: System, n: nat, dead: set<nat>, col: nat)
    requires t.Square(n) && col < n && col !in dead && Best(t, n, col) >= TINY && AllDead(t, n, dead)
    ensures AllDead(Eliminated(t, n, col), n, dead)
  {
    forall d | d in dead
      ensures Dead(Eliminated(t, n, col), n, d)
    {
      DeadStays(t, n, col, d);
    }
  }

  lemma {:induction false} RunUnderway(s: System, n: nat, dead: set<nat>, cols: nat)
    requires s.Square(n) && cols <= n && UsedPivots(s, n, dead) && AllDead(s, n, dead)
    ensures var t := Forward(s, n, cols);
            Echelon(t, n, cols) && KeptPivots(t, n, dead, cols) && AllDead(t, n, dead) && SameSolutions(s, t, n)
  {
    if cols > 0 {
      hide Eliminated, Best, Dead, Echelon, KeptPivots, Solves;
      var col := cols - 1;
      var t := Forward(s, n, col);
      RunUnderway(s, n, dead, col);
      if col in dead {
        DeadColumn(t, n, dead, col);
      } else {
        assert UsedPivot(s, n, col);
        LiveColumn(t, n, dead, col);
        LiveColumnKeepsDead(t, n, dead, col);
      }
    }
  }

  lemma PivotPlaced(t: System, n: nat, c: nat)
    requires t.Square(n) && c < n && Best(t, n, c) >= TINY
    ensures Abs(Eliminated(t, n, c).a[c][c]) == Best(t, n, c)
  {
    PivotNonzero(t, n, c);
  }

  lemma DoneRowsStay(t: System, n: nat, col: nat, c: nat)
    requires t.Square(n) && c < col < n
    ensures Eliminated(t, n, col).a[c] == t.a[c]
  {
  }

  /** A diagonal entry is final once its column is done. */
  lemma {:induction false} PivotStays(s: System, n: nat, c: nat, cols: nat)
    requires s.Square(n) && c < cols <= n && UsedPivot(s, n, c)
    ensures Abs(Forward(s, n, cols).a[c][c]) == Best(Forward(s, n, c), n, c)
  {
    hide Eliminated, Best;
    var t := Forward(s, n, cols - 1);
    if cols == c + 1 {
      PivotPlaced(t, n, c);
    } else {
      PivotStays(s, n, c, cols - 1);
      DoneRowsStay(t, n, cols - 1, c);
    }
  }

  // ----- Back substitution

  /** Later steps of back substitution do not disturb the unknowns already found. */
  lemma {:induction false} BackStable(s: System, n: nat, from: nat, i: nat, least: real)
    requires s.Square(n) && from <= i < n && least >= 0.0
    ensures BackSubstituted(s, n, from, least)[i] == BackSubstituted(s, n, i, least)[i]
    decreases i - from
  {
    if from < i {
      BackStable(s, n, from + 1, i, least);
    }
  }

  lemma DotFromDiagonal(x: Vec, u: Vec, r: nat)
    requires |x| == |u| && r < |x| && forall c | 0 <= c < r :: x[c] == 0.0
    ensures Dot(x, u, 0) == x[r] * u[r] + Dot(x, u, r + 1)
  {
    DotZeroPrefix(x, u, 0, r);
  }

  lemma TriangularRow(s: System, n: nat, u: Vec, r: nat)
    requires s.Square(n) && |u| == n && r < n && Echelon(s, n, n)
    ensures Dot(s.a[r], u, 0) == s.a[r][r] * u[r] + Dot(s.a[r], u, r + 1)
  {
    hide Dot;
    DotFromDiagonal(s.a[r], u, r);
  }

  /** What back substitution found for an unknown agrees with what it found for the later ones. */
  lemma BackAgrees(s: System, n: nat, r: nat, least: real)
    requires s.Square(n) && r < n && least >= 0.0
    ensures BackSubstituted(s, n, 0, least)[r] == BackValue(s, n, BackSubstituted(s, n, 0, least), r, least)
  {
    var u, v := BackSubstituted(s, n, 0, least), BackSubstituted(s, n, r + 1, least);
    BackStable(s, n, 0, r, least);
    forall c | r + 1 <= c < n
      ensures u[c] == v[c]
    {
      BackStable(s, n, 0, c, least);
      BackStable(s, n, r + 1, c, least);
    }
    DotSameTail(s.a[r], u, v, r + 1);
    hide Dot;
  }

  lemma BackSolvesRow(s: System, n: nat, dead: set<nat>, r: nat, least: real)
    requires s.Square(n) && r < n && Echelon(s, n, n) && least >= 0.0
    requires if r in dead then Dead(s, n, r) else Abs(s.a[r][r]) > least
    ensures RowHolds(s, n, BackSubstituted(s, n, 0, least), r)
    ensures r in dead ==> BackSubstituted(s, n, 0, least)[r] == 0.0
  {
    var u := BackSubstituted(s, n, 0, least);
    BackAgrees(s, n, r, least);
    TriangularRow(s, n, u, r);
    if r in dead {
      DotZeroPrefix(s.a[r], u, 0, n);
    } else {
      hide Dot, Echelon, BackSubstituted;
      TimesQuotient(s.a[r][r], s.b[r] - Dot(s.a[r], u, r + 1));
    }
  }

  lemma TimesQuotient(d: real, sum: real)
    requires d != 0.0
    ensures d * (sum / d) == sum
  {
  }

  lemma CancelPivot(d: real, x: real, y: real, rest: real, b: real)
    requires d != 0.0 && d * x + rest == b && d * y + rest == b
    ensures x == y
  {
    assert d * (x - y) == 0.0;
  }

  /** Two solutions that vanish on the dead unknowns agree, from the last unknown up. */
  lemma {:induction false} SolutionsAgree(s: System, n: nat, dead: set<nat>, u: Vec, v: Vec, from: nat)
    requires s.Square(n) && Echelon(s, n, n) && Solves(s, n, u) && Solves(s, n, v) && from <= n
    requires forall r | 0 <= r < n :: if r in dead then u[r] == 0.0 == v[r] else s.a[r][r] != 0.0
    ensures forall r | from <= r < n :: u[r] == v[r]
    decreases n - from
  {
    hide Dot, Echelon;
    if from < n {
      SolutionsAgree(s, n, dead, u, v, from + 1);
      DotSameTail(s.a[from], u, v, from + 1);
      TriangularRow(s, n, u, from);
      TriangularRow(s, n, v, from);
      assert RowHolds(s, n, u, from) && RowHolds(s, n, v, from);
      if from !in dead {
        var rest := Dot(s.a[from], u, from + 1);
        assert Dot(s.a[from], v, from + 1) == rest;
        CancelPivot(s.a[from][from], u[from], v[from], rest, s.b[from]);
      }
    }
  }

  /** Back substitution that keeps every live pivot solves the original system. */
  lemma KeepingSolves(s: System, n: nat, dead: set<nat>, least: real)
    requires s.Square(n) && UsedPivots(s, n, dead) && AllDead(s, n, dead) && least >= 0.0
    requires forall c | 0 <= c < n && c !in dead :: Best(Forward(s, n, c), n, c) > least
    ensures var u := BackSubstituted(Forward(s, n, n), n, 0, least); Solves(s, n, u) && VanishesOn(u, dead)
  {
    var t := Forward(s, n, n);
    var u := BackSubstituted(t, n, 0, least);
    RunUnderway(s, n, dead, n);
    hide Forward, Best, BackSubstituted, RowHolds, Echelon, Dead;
    forall r | 0 <= r < n
      ensures RowHolds(t, n, u, r)
      ensures r in dead ==> u[r] == 0.0
    {
      if r in dead {
        assert Dead(t, n, r);
      } else {
        assert UsedPivot(s, n, r);
        PivotStays(s, n, r, n);
      }
      BackSolvesRow(t, n, dead, r, least);
    }
  }

  /** The solver's result satisfies the original equations, is zero on the dead unknowns, and is the only such vector. */
  lemma SolutionIsTheSolution(s: System, n: nat, dead: set<nat>)
    requires s.Square(n) && GoodPivots(s, n, dead) && AllDead(s, n, dead)
    ensures Solves(s, n, Solution(s, n)) && VanishesOn(Solution(s, n), dead)
    ensures forall v: Vec | Solves(s, n, v) && VanishesOn(v, dead) :: v == Solution(s, n)
  {
    assert forall c | 0 <= c < n && c !in dead :: GoodPivot(s, n, c);
    KeepingSolves(s, n, dead, TINY);
    forall v: Vec | Solves(s, n, v) && VanishesOn(v, dead)
      ensures v == Solution(s, n)
    {
      OnlyOneSolution(s, n, dead, Solution(s, n), v);
    }
  }

  /** Eliminating with every live pivot leaves room for at most one solution that vanishes on the dead unknowns. */
  lemma OnlyOneSolution(s: System, n: nat, dead: set<nat>, u: Vec, v: Vec)
    requires s.Square(n) && UsedPivots(s, n, dead) && AllDead(s, n, dead)
    requires Solves(s, n, u) && Solves(s, n, v) && VanishesOn(u, dead) && VanishesOn(v, dead)
    ensures u == v
  {
    var t := Forward(s, n, n);
    RunUnderway(s, n, dead, n);
    assert Solves(t, n, u) && Solves(t, n, v);
    SolutionsAgree(t, n, dead, u, v, 0);
  }

  // ----- The border case

  /** The solver eliminates with the pivot of column `c` but drops it in back substitution. */
  ghost predicate DroppedPivot(s: System, n: nat, c: nat)
    requires s.Square(n) && c < n
  {
    Best(Forward(s, n, c), n, c) == TINY
  }

  /** Unknowns behind dropped pivots are zero. */
  ghost predicate ZeroWhereDropped(s: System, n: nat, dead: set<nat>, v: Vec)
    requires s.Square(n) && |v| == n
  {
    forall c | 0 <= c < n && c !in dead && DroppedPivot(s, n, c) :: v[c] == 0.0
  }

  /** The value found for one unknown, when the later ones are right. */
  lemma BackValueIff(t: System, n: nat, dead: set<nat>, v: Vec, r: nat)
    requires t.Square(n) && Echelon(t, n, n) && Solves(t, n, v) && r < n
    requires if r in dead then Dead(t, n, r) && v[r] == 0.0 else Abs(t.a[r][r]) >= TINY
    ensures BackValue(t, n, v, r, TINY) == v[r] <==> r in dead || Abs(t.a[r][r]) > TINY || v[r] == 0.0
  {
    TriangularRow(t, n, v, r);
    assert RowHolds(t, n, v, r);
    if r !in dead {
      hide Dot, Echelon;
      var d, sum := t.a[r][r], t.b[r] - Dot(t.a[r], v, r + 1);
      assert sum == d * v[r];
      TimesQuotient(d, sum);
      CancelPivot(d, sum / d, v[r], 0.0, sum);
    }
  }

  /** Back substitution finds a given solution from unknown `from` on iff no unknown behind a dropped pivot is missed. */
  lemma {:induction false} BackFindsIff(t: System, n: nat, dead: set<nat>, v: Vec, from: nat)
    requires t.Square(n) && Echelon(t, n, n) && Solves(t, n, v) && from <= n
    requires forall r | 0 <= r < n :: if r in dead then Dead(t, n, r) && v[r] == 0.0 else Abs(t.a[r][r]) >= TINY
    ensures (forall r | from <= r < n :: BackSubstituted(t, n, from, TINY)[r] == v[r])
            <==> (forall r | from <= r < n && r !in dead && Abs(t.a[r][r]) == TINY :: v[r] == 0.0)
    decreases n - from
  {
    if from < n {
      BackFindsIff(t, n, dead, v, from + 1);
      BackValueIff(t, n, dead, v, from);
      var w := BackSubstituted(t, n, from + 1, TINY);
      assert BackSubstituted(t, n, from, TINY)[from] == BackValue(t, n, w, from, TINY);
      assert forall r | from < r < n :: BackSubstituted(t, n, from, TINY)[r] == w[r];
      if forall r | from < r < n :: w[r] == v[r] {
        DotSameTail(t.a[from], w, v, from + 1);
      }
    }
  }

  lemma LeadingPivots(s: System, n: nat, dead: set<nat>)
    requires s.Square(n) && UsedPivots(s, n, dead) && AllDead(s, n, dead)
    ensures forall r | 0 <= r < n && r !in dead :: Abs(Forward(s, n, n).a[r][r]) >= TINY
    ensures forall r | 0 <= r < n && r !in dead :: DroppedPivot(s, n, r) <==> Abs(Forward(s, n, n).a[r][r]) == TINY
  {
    forall r | 0 <= r < n && r !in dead
      ensures Abs(Forward(s, n, n).a[r][r]) == Best(Forward(s, n, r), n, r) >= TINY
    {
      assert UsedPivot(s, n, r);
      PivotStays(s, n, r, n);
    }
  }

  /** What exact back substitution finds: no pivot is dropped. */
  function ExactSolution(s: System, n: nat): (u: Vec)
    requires s.Square(n)
    ensures |u| == n
  {
    BackSubstituted(Forward(s, n, n), n, 0, 0.0)
  }

  /** The two thresholds disagree: a pivot of exactly `TINY` is eliminated with but dropped by back substitution. When all
    live pivots are eliminated with there is exactly one solution, and the solver returns it iff it is zero behind every
    dropped pivot; otherwise what it returns solves nothing. */
  lemma SolvedDespiteDroppedIff(s: System, n: nat, dead: set<nat>, v: Vec)
    requires s.Square(n) && UsedPivots(s, n, dead) && AllDead(s, n, dead)
    ensures Solves(s, n, v) && VanishesOn(v, dead) <==> v == ExactSolution(s, n)
    ensures Solution(s, n) == ExactSolution(s, n) <==> ZeroWhereDropped(s, n, dead, ExactSolution(s, n))
    ensures Solves(s, n, Solution(s, n)) && VanishesOn(Solution(s, n), dead)
            <==> ZeroWhereDropped(s, n, dead, ExactSolution(s, n))
  {
    var t, u, x := Forward(s, n, n), Solution(s, n), ExactSolution(s, n);
    forall c | 0 <= c < n && c !in dead
      ensures Best(Forward(s, n, c), n, c) > 0.0
    {
      assert UsedPivot(s, n, c);
    }
    KeepingSolves(s, n, dead, 0.0);
    RunUnderway(s, n, dead, n);
    LeadingPivots(s, n, dead);
    assert Solves(t, n, x);
    BackFindsIff(t, n, dead, x, 0);
    if Solves(s, n, u) && VanishesOn(u, dead) {
      OnlyOneSolution(s, n, dead, u, x);
    }
    if Solves(s, n, v) && VanishesOn(v, dead) {
      OnlyOneSolution(s, n, dead, v, x);
    }
  }

  /** With one unknown: the system is solved iff its coefficient is above the threshold or there is nothing to solve; so
    the threshold itself with any load is a failing input. */
  lemma OneUnknownSolvedIff(k: real, f: real)
    ensures var s := System([[k]], [f]); Solves(s, 1, Solution(s, 1)) <==> Abs(k) > TINY || f == 0.0
  {
    var s := System([[k]], [f]);
    var t := Forward(s, 1, 1);
    assert Forward(s, 1, 0) == s;
    assert t.a[0] == [k] && t.b[0] == f;
    assert t.a == [[k]] && t.b == [f];
    assert BackSubstituted(t, 1, 1, TINY) == [0.0];
    var u := Solution(s, 1);
    assert u == [if Abs(k) > TINY then f / k else 0.0];
    assert Dot([k], u, 0) == k * u[0];
    assert RowHolds(s, 1, u, 0) <==> k * u[0] == f;
    if Abs(k) > TINY {
      assert k * (f / k) == f;
    }
  }

  // ----- Growth of the entries

  ghost predicate Bounded(s: System, n: nat, m: real)
    requires s.Square(n)
  {
    forall r, c | 0 <= r < n && 0 <= c < n :: Abs(s.a[r][c]) <= m
  }

  function PowerOfTwo(k: nat): real {
    if k == 0 then 1.0 else 2.0 * PowerOfTwo(k - 1)
  }

  /** Partial pivoting keeps every multiplier at magnitude at most one. */
  lemma MultiplierAtMostOne(s: System, n: nat, col: nat, r: nat)
    requires s.Square(n) && col < r < n && Best(s, n, col) >= TINY
    ensures WithPivot(s, n, col).a[col][col] != 0.0
    ensures Abs(Factor(WithPivot(s, n, col), n, col, r)) <= 1.0
  {
    PivotNonzero(s, n, col);
    var w := WithPivot(s, n, col);
    var x, d := w.a[r][col], w.a[col][col];
    assert Abs(x) <= Abs(d);
    QuotientAtMostOne(x, d);
  }

  lemma QuotientAtMostOne(x: real, d: real)
    requires d != 0.0 && Abs(x) <= Abs(d)
    ensures Abs(x / d) <= 1.0
  {
    var q := x / d;
    assert q * d == x;
    SignOfFactor(1.0 - q, d);
    SignOfFactor(1.0 + q, d);
    assert (1.0 - q) * d == d - x;
    assert (1.0 + q) * d == d + x;
  }

  lemma SignOfFactor(a: real, d: real)
    ensures d > 0.0 && a * d >= 0.0 ==> a >= 0.0
    ensures d < 0.0 && a * d <= 0.0 ==> a >= 0.0
  {
  }

  lemma ProductBound(f: real, y: real, m: real)
    requires Abs(f) <= 1.0 && Abs(y) <= m
    ensures Abs(f * y) <= m
  {
    ProductNonnegative(1.0 - f, Abs(y));
    ProductNonnegative(1.0 + f, Abs(y));
    Distribute(f, Abs(y));
    NegatedFactor(f, y);
  }

  lemma ProductNonnegative(x: real, y: real)
    requires x >= 0.0 && y >= 0.0
    ensures x * y >= 0.0
  {
  }

  lemma Distribute(f: real, y: real)
    ensures (1.0 - f) * y == y - f * y && (1.0 + f) * y == y + f * y
  {
  }

  lemma NegatedFactor(f: real, y: real)
    ensures f * -y == -(f * y)
  {
  }

  lemma ReducedEntryBound(x: real, f: real, y: real, m: real, z: real)
    requires Abs(x) <= m && Abs(f) <= 1.0 && Abs(y) <= m && (z == x || z == x - f * y)
    ensures Abs(z) <= 2.0 * m
  {
    ProductBound(f, y, m);
  }

  lemma ReducedRowBound(x: Vec, y: Vec, f: real, from: nat, m: real)
    requires |x| == |y| && Abs(f) <= 1.0 && m >= 0.0
    requires forall c | 0 <= c < |x| :: Abs(x[c]) <= m && Abs(y[c]) <= m
    ensures forall c | 0 <= c < |x| :: Abs(Reduced(x, y, f, from)[c]) <= 2.0 * m
  {
    hide Abs;
    forall c | 0 <= c < |x|
      ensures Abs(Reduced(x, y, f, from)[c]) <= 2.0 * m
    {
      ReducedEntryBound(x[c], f, y[c], m, Reduced(x, y, f, from)[c]);
    }
  }

  lemma StepDoublesAtMost(s: System, n: nat, col: nat, m: real)
    requires s.Square(n) && col < n && m >= 0.0 && Bounded(s, n, m)
    ensures Bounded(Eliminated(s, n, col), n, 2.0 * m)
  {
    hide Abs;
    if Best(s, n, col) >= TINY {
      PivotNonzero(s, n, col);
      var w := WithPivot(s, n, col);
      assert Bounded(w, n, m);
      forall r, c | 0 <= r < n && 0 <= c < n
        ensures Abs(Eliminated(s, n, col).a[r][c]) <= 2.0 * m
      {
        if r > col {
          MultiplierAtMostOne(s, n, col, r);
          ReducedRowBound(w.a[r], w.a[col], Factor(w, n, col, r), col, m);
        }
      }
    }
  }

  function Doubled(m: real, times: nat): real {
    if times == 0 then m else 2.0 * Doubled(m, times - 1)
  }

  lemma {:induction false} DoubledIsPower(m: real, times: nat)
    ensures Doubled(m, times) == PowerOfTwo(times) * m
  {
    if times > 0 {
      DoubledIsPower(m, times - 1);
    }
  }

  lemma {:induction false} EntriesAtMostDouble(s: System, n: nat, cols: nat, m: real)
    requires s.Square(n) && cols <= n && m >= 0.0 && Bounded(s, n, m)
    ensures Bounded(Forward(s, n, cols), n, Doubled(m, cols)) && Doubled(m, cols) >= 0.0
  {
    hide Bounded, Eliminated;
    if cols > 0 {
      EntriesAtMostDouble(s, n, cols - 1, m);
      var t, k := Forward(s, n, cols - 1), Doubled(m, cols - 1);
      StepDoublesAtMost(t, n, cols - 1, k);
      var v, d := Eliminated(t, n, cols - 1), 2.0 * k;
      assert Bounded(v, n, d);
      assert Forward(s, n, cols) == v && Doubled(m, cols) == d;
    }
  }

  /** After eliminating `cols` columns every entry is at most `2^cols` times the largest of the original matrix. */
  lemma GrowthBound(s: System, n: nat, cols: nat, m: real)
    requires s.Square(n) && cols <= n && m >= 0.0 && Bounded(s, n, m)
    ensures Bounded(Forward(s, n, cols), n, PowerOfTwo(cols) * m)
  {
    EntriesAtMostDouble(s, n, cols, m);
    DoubledIsPower(m, cols);
  }
}
