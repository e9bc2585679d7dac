/** Jacobi rotations: what one rotation does to a symmetric matrix and to the
  basis that diagonalises it (tpt-vertex-simulation/src/modal.rs). */
module Rotations {
  import opened LinearSystems

  ghost predicate IsSquare(a: Matrix, n: nat) {
    |a| == n && forall r | 0 <= r < n :: |a[r]| == n
  }

  ghost predicate Symmetric(a: Matrix, n: nat)
    requires IsSquare(a, n)
  {
    forall i, j | 0 <= i < n && 0 <= j < n :: a[i][j] == a[j][i]
  }

  // ----- Sums

  function Sum(x: Vec): real {
    if x == [] then 0.0 else x[0] + Sum(x[1..])
  }

  lemma {:induction false} SumOfSums(x: Vec, y: Vec)
    requires |x| == |y|
    ensures Sum(seq(|x|, i requires 0 <= i < |x| => x[i] + y[i])) == Sum(x) + Sum(y)
  {
    if x != [] {
      SumOfSums(x[1..], y[1..]);
      var z := seq(|x|, i requires 0 <= i < |x| => x[i] + y[i]);
      assert z[1..] == seq(|x[1..]|, i requires 0 <= i < |x[1..]| => x[1..][i] + y[1..][i]);
    }
  }

  lemma {:induction false} SumOneChanged(x: Vec, y: Vec, p: nat)
    requires |x| == |y| && p < |x| && forall i | 0 <= i < |x| && i != p :: y[i] == x[i]
    ensures Sum(y) - Sum(x) == y[p] - x[p]
  {
    if p == 0 {
      assert x[1..] == y[1..];
    } else {
      SumOneChanged(x[1..], y[1..], p - 1);
    }
  }

  /** Changing two terms changes the sum by what the two terms change by. */
  lemma SumTwoChanged(x: Vec, y: Vec, p: nat, q: nat)
    requires |x| == |y| && p < q < |x| && forall i | 0 <= i < |x| && i != p && i != q :: y[i] == x[i]
    ensures Sum(y) - Sum(x) == y[p] + y[q] - x[p] - x[q]
  {
    var z := x[p := y[p]];
    SumOneChanged(x, z, p);
    SumOneChanged(z, y, q);
  }

  // ----- Bilinear form

  function Column(v: Matrix, n: nat, j: nat): (x: Vec)
    requires IsSquare(v, n) && j < n
    ensures |x| == n
  {
    seq(n, i requires 0 <= i < n => v[i][j])
  }

  function Times(a: Matrix, n: nat, y: Vec): (x: Vec)
    requires IsSquare(a, n) && |y| == n
    ensures |x| == n
  {
    seq(n, i requires 0 <= i < n => Dot(a[i], y, 0))
  }

  /** `x` transposed times `a` times `y`. */
  function Form(a: Matrix, n: nat, x: Vec, y: Vec): real
    requires IsSquare(a, n) && |x| == n && |y| == n
  {
    Dot(x, Times(a, n, y), 0)
  }

  function Mixed(x: Vec, y: Vec, alpha: real, beta: real): (z: Vec)
    requires |x| == |y|
    ensures |z| == |x|
  {
    seq(|x|, i requires 0 <= i < |x| => alpha * x[i] + beta * y[i])
  }

  lemma {:induction false} DotMixedRight(x: Vec, y: Vec, w: Vec, alpha: real, beta: real, k: nat)
    requires |x| == |y| == |w| && k <= |x|
    ensures Dot(w, Mixed(x, y, alpha, beta), k) == alpha * Dot(w, x, k) + beta * Dot(w, y, k)
    decreases |x| - k
  {
    if k < |x| {
      DotMixedRight(x, y, w, alpha, beta, k + 1);
      var z := Mixed(x, y, alpha, beta);
      DotMixedTerm(x[k], y[k], w[k], alpha, beta, Dot(w, x, k + 1), Dot(w, y, k + 1), z[k], Dot(w, z, k + 1));
    }
  }

  lemma DotMixedTerm(x: real, y: real, w: real, alpha: real, beta: real, dx: real, dy: real, z: real, dz: real)
    requires z == alpha * x + beta * y && dz == alpha * dx + beta * dy
    ensures w * z + dz == alpha * (w * x + dx) + beta * (w * y + dy)
  {
    assert w * z == alpha * (w * x) + beta * (w * y);
    assert alpha * (w * x + dx) == alpha * (w * x) + alpha * dx;
    assert beta * (w * y + dy) == beta * (w * y) + beta * dy;
  }

  lemma {:induction false} DotSymmetric(x: Vec, y: Vec, k: nat)
    requires |x| == |y| && k <= |x|
    ensures Dot(x, y, k) == Dot(y, x, k)
    decreases |x| - k
  {
    if k < |x| {
      DotSymmetric(x, y, k + 1);
    }
  }

  lemma FormMixed(a: Matrix, n: nat, x: Vec, y: Vec, w: Vec, alpha: real, beta: real)
    requires IsSquare(a, n) && |x| == |y| == |w| == n
    ensures Form(a, n, w, Mixed(x, y, alpha, beta)) == alpha * Form(a, n, w, x) + beta * Form(a, n, w, y)
    ensures Form(a, n, Mixed(x, y, alpha, beta), w) == alpha * Form(a, n, x, w) + beta * Form(a, n, y, w)
  {
    var z := Mixed(x, y, alpha, beta);
    assert Times(a, n, z) == Mixed(Times(a, n, x), Times(a, n, y), alpha, beta) by {
      forall i | 0 <= i < n
        ensures Times(a, n, z)[i] == Mixed(Times(a, n, x), Times(a, n, y), alpha, beta)[i]
      {
        DotMixedRight(x, y, a[i], alpha, beta, 0);
      }
    }
    DotMixedRight(Times(a, n, x), Times(a, n, y), w, alpha, beta, 0);
    var t := Times(a, n, w);
    DotSymmetric(z, t, 0);
    DotSymmetric(x, t, 0);
    DotSymmetric(y, t, 0);
    DotMixedRight(x, y, t, alpha, beta, 0);
  }

  // ----- One rotation

  /** The rotation angle: `c` and `s` are its cosine and sine, `t` its tangent. */
  datatype Angle = Angle(c: real, s: real, t: real)

  /** The angle annihilates the off-diagonal entry `apq` of a symmetric 2x2 block. */
  ghost predicate Annihilates(g: Angle, app: real, aqq: real, apq: real) {
    g.s == g.t * g.c && g.c * g.c * (1.0 + g.t * g.t) == 1.0 && g.t * (aqq - app) == apq * (1.0 - g.t * g.t)
  }

  lemma UnitAngle(g: Angle, app: real, aqq: real, apq: real)
    requires Annihilates(g, app, aqq, apq)
    ensures g.c * g.c + g.s * g.s == 1.0
  {
    assert g.s * g.s == g.c * g.c * (g.t * g.t);
  }

  /** The entry of the rotated matrix, as the program writes it. */
  function RotatedEntry(a: Matrix, n: nat, p: nat, q: nat, g: Angle, i: nat, j: nat): real
    requires IsSquare(a, n) && p < q < n && i < n && j < n
  {
    if i == p && j == p then a[p][p] - g.t * a[p][q]
    else if i == q && j == q then a[q][q] + g.t * a[p][q]
    else if i == p && j == q then 0.0
    else if i == q && j == p then 0.0
    else if j == p then g.c * a[i][p] - g.s * a[i][q]
    else if j == q then g.s * a[i][p] + g.c * a[i][q]
    else if i == p then g.c * a[j][p] - g.s * a[j][q]
    else if i == q then g.s * a[j][p] + g.c * a[j][q]
    else a[i][j]
  }

  function Rotated(a: Matrix, n: nat, p: nat, q: nat, g: Angle): (b: Matrix)
    requires IsSquare(a, n) && p < q < n
    ensures IsSquare(b, n)
  {
    seq(n, i requires 0 <= i < n => seq(n, j requires 0 <= j < n => RotatedEntry(a, n, p, q, g, i, j)))
  }

  /** The basis after the rotation: columns `p` and `q` are turned. */
  function Turned(v: Matrix, n: nat, p: nat, q: nat, g: Angle): (w: Matrix)
    requires IsSquare(v, n) && p < q < n
    ensures IsSquare(w, n)
  {
    seq(n, i requires 0 <= i < n => seq(n, j requires 0 <= j < n =>
      if j == p then g.c * v[i][p] - g.s * v[i][q]
      else if j == q then g.s * v[i][p] + g.c * v[i][q]
      else v[i][j]))
  }

  lemma TurnedColumns(v: Matrix, n: nat, p: nat, q: nat, g: Angle, j: nat)
    requires IsSquare(v, n) && p < q < n && j < n
    ensures Column(Turned(v, n, p, q, g), n, j) ==
      if j == p then Mixed(Column(v, n, p), Column(v, n, q), g.c, -g.s)
      else if j == q then Mixed(Column(v, n, p), Column(v, n, q), g.s, g.c)
      else Column(v, n, j)
  {
    var w := Column(Turned(v, n, p, q, g), n, j);
    var x, y := Column(v, n, p), Column(v, n, q);
    if j == p {
      forall i | 0 <= i < n
        ensures w[i] == Mixed(x, y, g.c, -g.s)[i]
      {
        assert (-g.s) * y[i] == -(g.s * y[i]);
      }
    } else if j == q {
      forall i | 0 <= i < n
        ensures w[i] == Mixed(x, y, g.s, g.c)[i]
      {
      }
    }
  }

  /** The 2x2 block: the two diagonal entries written by the program, and the annihilated one. */
  lemma BlockAlgebra(g: Angle, app: real, aqq: real, apq: real)
    requires Annihilates(g, app, aqq, apq)
    ensures g.c * (g.c * app - g.s * apq) - g.s * (g.c * apq - g.s * aqq) == app - g.t * apq
    ensures g.s * (g.s * app + g.c * apq) + g.c * (g.s * apq + g.c * aqq) == aqq + g.t * apq
    ensures g.c * (g.s * app + g.c * apq) - g.s * (g.s * apq + g.c * aqq) == 0.0
  {
    var c, s, t := g.c, g.s, g.t;
    var k := c * c;
    var t2 := t * t;
    assert c * s == k * t;
    assert s * s == k * t2;
    assert k + k * t2 == 1.0;
    var d := aqq - app;
    assert t * d == apq - apq * t2;
    calc {
      c * (c * app - s * apq) - s * (c * apq - s * aqq);
      k * app - 2.0 * (c * s) * apq + s * s * aqq;
      k * app - 2.0 * (k * t) * apq + k * t2 * aqq;
      { assert k * t2 * aqq == k * t2 * app + k * (t * (t * d)); }
      k * app + k * t2 * app - 2.0 * (k * t) * apq + k * (t * (t * d));
      { assert k * app + k * t2 * app == (k + k * t2) * app; }
      app - 2.0 * (k * t) * apq + k * (t * (apq - apq * t2));
      { assert k * (t * (apq - apq * t2)) == k * t * apq - k * t2 * (t * apq); }
      app - k * t * apq - k * t2 * (t * apq);
      { assert k * t * apq + k * t2 * (t * apq) == (k + k * t2) * (t * apq); }
      app - t * apq;
    }
    calc {
      s * (s * app + c * apq) + c * (s * apq + c * aqq);
      s * s * app + 2.0 * (c * s) * apq + k * aqq;
      k * t2 * app + 2.0 * (k * t) * apq + k * aqq;
      { assert k * t2 * app == k * t2 * aqq - k * (t * (t * d)); }
      k * t2 * aqq + k * aqq + 2.0 * (k * t) * apq - k * (t * (t * d));
      { assert k * t2 * aqq + k * aqq == (k + k * t2) * aqq; }
      aqq + 2.0 * (k * t) * apq - k * (t * (apq - apq * t2));
      { assert k * (t * (apq - apq * t2)) == k * t * apq - k * t2 * (t * apq); }
      aqq + k * t * apq + k * t2 * (t * apq);
      { assert k * t * apq + k * t2 * (t * apq) == (k + k * t2) * (t * apq); }
      aqq + t * apq;
    }
    calc {
      c * (s * app + c * apq) - s * (s * apq + c * aqq);
      k * t * app + k * apq - k * t2 * apq - k * t * aqq;
      k * (apq - apq * t2) - k * (t * d);
      0.0;
    }
  }

  // ----- The rotation is a change of basis

  /** `a` is the matrix of the form `a0` in the basis of `v`'s columns: `a` is `v` transposed times `a0` times `v`. */
  ghost predicate Represents(a0: Matrix, a: Matrix, v: Matrix, n: nat)
    requires IsSquare(a0, n) && IsSquare(a, n) && IsSquare(v, n)
  {
    forall i, j | 0 <= i < n && 0 <= j < n :: Entry(a0, a, v, n, i, j)
  }

  ghost predicate Entry(a0: Matrix, a: Matrix, v: Matrix, n: nat, i: nat, j: nat)
    requires IsSquare(a0, n) && IsSquare(a, n) && IsSquare(v, n) && i < n && j < n
  {
    a[i][j] == Form(a0, n, Column(v, n, i), Column(v, n, j))
  }

  ghost predicate AnnihilatesAt(a: Matrix, n: nat, p: nat, q: nat, g: Angle)
    requires IsSquare(a, n) && p < q < n
  {
    Annihilates(g, a[p][p], a[q][q], a[p][q])
  }

  /** Columns other than `p` and `q`, against the turned ones. */
  lemma OuterEntry(a0: Matrix, a: Matrix, v: Matrix, n: nat, p: nat, q: nat, g: Angle, i: nat)
    requires IsSquare(a0, n) && IsSquare(a, n) && IsSquare(v, n) && p < q < n && i < n && i != p && i != q
    requires Represents(a0, a, v, n) && Symmetric(a, n)
    ensures var w, b := Turned(v, n, p, q, g), Rotated(a, n, p, q, g);
            Entry(a0, b, w, n, i, p) && Entry(a0, b, w, n, i, q) && Entry(a0, b, w, n, p, i) && Entry(a0, b, w, n, q, i)
  {
    var x, y, z := Column(v, n, p), Column(v, n, q), Column(v, n, i);
    TurnedColumns(v, n, p, q, g, p);
    TurnedColumns(v, n, p, q, g, q);
    TurnedColumns(v, n, p, q, g, i);
    FormMixed(a0, n, x, y, z, g.c, -g.s);
    FormMixed(a0, n, x, y, z, g.s, g.c);
    assert Entry(a0, a, v, n, i, p) && Entry(a0, a, v, n, i, q) && Entry(a0, a, v, n, p, i) && Entry(a0, a, v, n, q, i);
    assert a[p][i] == a[i][p] && a[q][i] == a[i][q];
    assert (-g.s) * a[i][q] == -(g.s * a[i][q]);
  }

  lemma BlockEntries(a0: Matrix, a: Matrix, v: Matrix, n: nat, p: nat, q: nat, g: Angle)
    requires IsSquare(a0, n) && IsSquare(a, n) && IsSquare(v, n) && p < q < n
    requires Represents(a0, a, v, n) && Symmetric(a, n) && AnnihilatesAt(a, n, p, q, g)
    ensures var w, b := Turned(v, n, p, q, g), Rotated(a, n, p, q, g);
            Entry(a0, b, w, n, p, p) && Entry(a0, b, w, n, q, q) && Entry(a0, b, w, n, p, q) && Entry(a0, b, w, n, q, p)
  {
    var x, y := Column(v, n, p), Column(v, n, q);
    var app, aqq, apq := a[p][p], a[q][q], a[p][q];
    TurnedColumns(v, n, p, q, g, p);
    TurnedColumns(v, n, p, q, g, q);
    assert Entry(a0, a, v, n, p, p) && Entry(a0, a, v, n, q, q) && Entry(a0, a, v, n, p, q) && Entry(a0, a, v, n, q, p);
    assert a[q][p] == apq;
    MixedForms(a0, n, x, y, g, app, aqq, apq);
    BlockAlgebra(g, app, aqq, apq);
  }

  /** The form on the turned pair of columns, expanded. */
  lemma MixedForms(a0: Matrix, n: nat, x: Vec, y: Vec, g: Angle, app: real, aqq: real, apq: real)
    requires IsSquare(a0, n) && |x| == |y| == n
    requires Form(a0, n, x, x) == app && Form(a0, n, y, y) == aqq && Form(a0, n, x, y) == apq == Form(a0, n, y, x)
    ensures var xt, yt := Mixed(x, y, g.c, -g.s), Mixed(x, y, g.s, g.c);
            && Form(a0, n, xt, xt) == g.c * (g.c * app - g.s * apq) - g.s * (g.c * apq - g.s * aqq)
            && Form(a0, n, yt, yt) == g.s * (g.s * app + g.c * apq) + g.c * (g.s * apq + g.c * aqq)
            && Form(a0, n, xt, yt) == g.c * (g.s * app + g.c * apq) - g.s * (g.s * apq + g.c * aqq) == Form(a0, n, yt, xt)
  {
    hide Form, Mixed;
    var xt, yt := Mixed(x, y, g.c, -g.s), Mixed(x, y, g.s, g.c);
    FormMixed(a0, n, x, y, x, g.c, -g.s);
    FormMixed(a0, n, x, y, y, g.c, -g.s);
    FormMixed(a0, n, x, y, x, g.s, g.c);
    FormMixed(a0, n, x, y, y, g.s, g.c);
    var fxx, fxy := Form(a0, n, x, xt), Form(a0, n, y, xt);
    assert fxx == g.c * app - g.s * apq && fxy == g.c * apq - g.s * aqq;
    FormMixed(a0, n, x, y, xt, g.c, -g.s);
    assert Form(a0, n, xt, xt) == g.c * fxx + (-g.s) * fxy;
    var gxx, gxy := Form(a0, n, x, yt), Form(a0, n, y, yt);
    assert gxx == g.s * app + g.c * apq && gxy == g.s * apq + g.c * aqq;
    FormMixed(a0, n, x, y, yt, g.s, g.c);
    FormMixed(a0, n, x, y, yt, g.c, -g.s);
    assert Form(a0, n, xt, yt) == g.c * gxx + (-g.s) * gxy;
    FormMixed(a0, n, x, y, xt, g.s, g.c);
    assert Form(a0, n, yt, xt) == g.s * fxx + g.c * fxy;
    assert g.s * fxx + g.c * fxy == g.c * gxx - g.s * gxy by {
      CrossTerms(g.c, g.s, app, aqq, apq);
    }
  }

  lemma CrossTerms(c: real, s: real, app: real, aqq: real, apq: real)
    ensures s * (c * app - s * apq) + c * (c * apq - s * aqq) == c * (s * app + c * apq) - s * (s * apq + c * aqq)
  {
  }

  /** One rotation keeps `a` the matrix of the original form in the current basis, and keeps it symmetric. */
  lemma RotationRepresents(a0: Matrix, a: Matrix, v: Matrix, n: nat, p: nat, q: nat, g: Angle)
    requires IsSquare(a0, n) && IsSquare(a, n) && IsSquare(v, n) && p < q < n
    requires Represents(a0, a, v, n) && Symmetric(a, n) && AnnihilatesAt(a, n, p, q, g)
    ensures Represents(a0, Rotated(a, n, p, q, g), Turned(v, n, p, q, g), n)
    ensures Symmetric(Rotated(a, n, p, q, g), n)
  {
    var w, b := Turned(v, n, p, q, g), Rotated(a, n, p, q, g);
    forall i, j | 0 <= i < n && 0 <= j < n
      ensures Entry(a0, b, w, n, i, j)
    {
      if i != p && i != q {
        OuterEntry(a0, a, v, n, p, q, g, i);
        if j != p && j != q {
          TurnedColumns(v, n, p, q, g, i);
          TurnedColumns(v, n, p, q, g, j);
          assert Entry(a0, a, v, n, i, j);
        }
      } else if j != p && j != q {
        OuterEntry(a0, a, v, n, p, q, g, j);
      } else {
        BlockEntries(a0, a, v, n, p, q, g);
      }
    }
  }

  // ----- Orthonormal bases

  function Identity(n: nat): (e: Matrix)
    ensures IsSquare(e, n)
  {
    seq(n, i requires 0 <= i < n => seq(n, j requires 0 <= j < n => if i == j then 1.0 else 0.0))
  }

  ghost predicate Orthonormal(v: Matrix, n: nat)
    requires IsSquare(v, n)
  {
    forall i, j | 0 <= i < n && 0 <= j < n ::
      Dot(Column(v, n, i), Column(v, n, j), 0) == if i == j then 1.0 else 0.0
  }

  lemma {:induction false} DotUnit(e: Vec, y: Vec, i: nat, k: nat)
    requires |e| == |y| && i < |e| && k <= |e| && forall j | 0 <= j < |e| :: e[j] == if i == j then 1.0 else 0.0
    ensures Dot(e, y, k) == if k <= i then y[i] else 0.0
    decreases |e| - k
  {
    if k < |e| {
      DotUnit(e, y, i, k + 1);
    }
  }

  lemma IdentityForm(n: nat, x: Vec, y: Vec)
    requires |x| == |y| == n
    ensures Form(Identity(n), n, x, y) == Dot(x, y, 0)
  {
    assert Times(Identity(n), n, y) == y by {
      forall i | 0 <= i < n
        ensures Times(Identity(n), n, y)[i] == y[i]
      {
        DotUnit(Identity(n)[i], y, i, 0);
      }
    }
  }

  lemma OrthonormalIsRepresented(v: Matrix, n: nat)
    requires IsSquare(v, n)
    ensures Orthonormal(v, n) <==> Represents(Identity(n), Identity(n), v, n)
  {
    forall i, j | 0 <= i < n && 0 <= j < n
      ensures Form(Identity(n), n, Column(v, n, i), Column(v, n, j)) == Dot(Column(v, n, i), Column(v, n, j), 0)
    {
      IdentityForm(n, Column(v, n, i), Column(v, n, j));
    }
    if Represents(Identity(n), Identity(n), v, n) {
      forall i, j | 0 <= i < n && 0 <= j < n
        ensures Dot(Column(v, n, i), Column(v, n, j), 0) == if i == j then 1.0 else 0.0
      {
        assert Entry(Identity(n), Identity(n), v, n, i, j);
      }
    }
  }

  /** A rotation keeps the basis orthonormal: the identity form looks the same in every basis it produces. */
  lemma RotationOrthonormal(a: Matrix, v: Matrix, n: nat, p: nat, q: nat, g: Angle)
    requires IsSquare(a, n) && IsSquare(v, n) && p < q < n && AnnihilatesAt(a, n, p, q, g) && Orthonormal(v, n)
    ensures Orthonormal(Turned(v, n, p, q, g), n)
  {
    var e := Identity(n);
    var app, aqq, apq := a[p][p], a[q][q], a[p][q];
    OrthonormalIsRepresented(v, n);
    forall i, j | 0 <= i < n && 0 <= j < n
      ensures RotatedEntry(e, n, p, q, g, i, j) == e[i][j]
    {
    }
    assert Rotated(e, n, p, q, g) == e by {
      forall i | 0 <= i < n
        ensures Rotated(e, n, p, q, g)[i] == e[i]
      {
      }
    }
    assert AnnihilatesAt(e, n, p, q, g);
    RotationRepresents(e, e, v, n, p, q, g);
    OrthonormalIsRepresented(Turned(v, n, p, q, g), n);
  }

  // ----- Trace, off-diagonal mass and norm

  function Diagonal(a: Matrix, n: nat): (x: Vec)
    requires IsSquare(a, n)
    ensures |x| == n
  {
    seq(n, i requires 0 <= i < n => a[i][i])
  }

  function Trace(a: Matrix, n: nat): real
    requires IsSquare(a, n)
  {
    Sum(Diagonal(a, n))
  }

  /** The squares of row `i` off the diagonal. */
  function OffRow(a: Matrix, n: nat, i: nat): (x: Vec)
    requires IsSquare(a, n) && i < n
    ensures |x| == n
  {
    seq(n, j requires 0 <= j < n => if i == j then 0.0 else a[i][j] * a[i][j])
  }

  function OffRows(a: Matrix, n: nat): (x: Vec)
    requires IsSquare(a, n)
    ensures |x| == n
  {
    seq(n, i requires 0 <= i < n => Sum(OffRow(a, n, i)))
  }

  /** The sum of the squares off the diagonal. */
  function Off(a: Matrix, n: nat): real
    requires IsSquare(a, n)
  {
    Sum(OffRows(a, n))
  }

  function DiagonalSquares(a: Matrix, n: nat): (x: Vec)
    requires IsSquare(a, n)
    ensures |x| == n
  {
    seq(n, i requires 0 <= i < n => a[i][i] * a[i][i])
  }

  /** The squared Frobenius norm. */
  function Norm(a: Matrix, n: nat): real
    requires IsSquare(a, n)
  {
    Off(a, n) + Sum(DiagonalSquares(a, n))
  }

  lemma TraceKept(a: Matrix, n: nat, p: nat, q: nat, g: Angle)
    requires IsSquare(a, n) && p < q < n
    ensures Trace(Rotated(a, n, p, q, g), n) == Trace(a, n)
  {
    SumTwoChanged(Diagonal(a, n), Diagonal(Rotated(a, n, p, q, g), n), p, q);
  }

  /** Turning a pair of numbers keeps the sum of their squares. */
  lemma PairSquares(c: real, s: real, x: real, y: real)
    requires c * c + s * s == 1.0
    ensures (c * x - s * y) * (c * x - s * y) + (s * x + c * y) * (s * x + c * y) == x * x + y * y
  {
    var u, w := c * x - s * y, s * x + c * y;
    assert u * u == c * c * (x * x) - 2.0 * (c * s) * (x * y) + s * s * (y * y);
    assert w * w == s * s * (x * x) + 2.0 * (c * s) * (x * y) + c * c * (y * y);
    assert c * c * (x * x) + s * s * (x * x) == (c * c + s * s) * (x * x);
    assert s * s * (y * y) + c * c * (y * y) == (c * c + s * s) * (y * y);
  }

  lemma OuterRowKept(a: Matrix, n: nat, p: nat, q: nat, g: Angle, i: nat)
    requires IsSquare(a, n) && p < q < n && i < n && i != p && i != q && g.c * g.c + g.s * g.s == 1.0
    ensures Sum(OffRow(Rotated(a, n, p, q, g), n, i)) == Sum(OffRow(a, n, i))
  {
    var x, y := a[i], Rotated(a, n, p, q, g)[i];
    assert y[p] == g.c * x[p] - g.s * x[q] && y[q] == g.s * x[p] + g.c * x[q];
    TurnedSquares(g.c, g.s, x[p], x[q], y[p], y[q]);
    SumTwoChanged(OffRow(a, n, i), OffRow(Rotated(a, n, p, q, g), n, i), p, q);
  }

  lemma TurnedSquares(c: real, s: real, x: real, y: real, u: real, w: real)
    requires c * c + s * s == 1.0 && u == c * x - s * y && w == s * x + c * y
    ensures u * u + w * w == x * x + y * y
  {
    PairSquares(c, s, x, y);
  }

  lemma PairRowKept(a: Matrix, n: nat, p: nat, q: nat, g: Angle, j: nat)
    requires IsSquare(a, n) && p < q < n && j < n && j != p && j != q && Symmetric(a, n) && g.c * g.c + g.s * g.s == 1.0
    ensures PairRow(Rotated(a, n, p, q, g), n, p, q)[j] == PairRow(a, n, p, q)[j]
  {
    PairSquares(g.c, g.s, a[j][p], a[j][q]);
    assert a[p][j] == a[j][p] && a[q][j] == a[j][q];
  }

  /** Rows `p` and `q` together lose exactly the two annihilated entries. */
  lemma InnerRowsLose(a: Matrix, n: nat, p: nat, q: nat, g: Angle)
    requires IsSquare(a, n) && p < q < n && Symmetric(a, n) && g.c * g.c + g.s * g.s == 1.0
    ensures var b := Rotated(a, n, p, q, g);
            Sum(OffRow(b, n, p)) + Sum(OffRow(b, n, q))
            == Sum(OffRow(a, n, p)) + Sum(OffRow(a, n, q)) - 2.0 * (a[p][q] * a[p][q])
  {
    var b := Rotated(a, n, p, q, g);
    var x, y := PairRow(a, n, p, q), PairRow(b, n, p, q);
    SumOfSums(OffRow(a, n, p), OffRow(a, n, q));
    SumOfSums(OffRow(b, n, p), OffRow(b, n, q));
    forall j | 0 <= j < n && j != p && j != q
      ensures y[j] == x[j]
    {
      PairRowKept(a, n, p, q, g, j);
    }
    PairRowCorners(a, n, p, q, g);
    SumTwoChanged(x, y, p, q);
  }

  lemma PairRowCorners(a: Matrix, n: nat, p: nat, q: nat, g: Angle)
    requires IsSquare(a, n) && p < q < n && Symmetric(a, n)
    ensures var x, y := PairRow(a, n, p, q), PairRow(Rotated(a, n, p, q, g), n, p, q);
            x[p] == a[p][q] * a[p][q] == x[q] && y[p] == 0.0 == y[q]
  {
    assert a[q][p] == a[p][q];
  }

  /** The off-diagonal squares of two rows, added up column by column. */
  function PairRow(a: Matrix, n: nat, p: nat, q: nat): (x: Vec)
    requires IsSquare(a, n) && p < n && q < n
    ensures |x| == n
  {
    var y, z := OffRow(a, n, p), OffRow(a, n, q);
    seq(|y|, j requires 0 <= j < |y| => y[j] + z[j])
  }

  /** A rotation lowers the off-diagonal mass by exactly twice the square of the entry it annihilates. */
  lemma OffDrops(a: Matrix, n: nat, p: nat, q: nat, g: Angle)
    requires IsSquare(a, n) && p < q < n && Symmetric(a, n) && g.c * g.c + g.s * g.s == 1.0
    ensures Off(Rotated(a, n, p, q, g), n) == Off(a, n) - 2.0 * (a[p][q] * a[p][q])
  {
    var b := Rotated(a, n, p, q, g);
    forall i | 0 <= i < n && i != p && i != q
      ensures OffRows(b, n)[i] == OffRows(a, n)[i]
    {
      OuterRowKept(a, n, p, q, g, i);
    }
    InnerRowsLose(a, n, p, q, g);
    SumTwoChanged(OffRows(a, n), OffRows(b, n), p, q);
  }

  /** The diagonal gains what the off-diagonal part loses, so the norm is unchanged. */
  lemma NormKept(a: Matrix, n: nat, p: nat, q: nat, g: Angle)
    requires IsSquare(a, n) && p < q < n && Symmetric(a, n) && AnnihilatesAt(a, n, p, q, g)
    ensures Norm(Rotated(a, n, p, q, g), n) == Norm(a, n)
  {
    var b := Rotated(a, n, p, q, g);
    var app, aqq, apq := a[p][p], a[q][q], a[p][q];
    UnitAngle(g, app, aqq, apq);
    OffDrops(a, n, p, q, g);
    SumTwoChanged(DiagonalSquares(a, n), DiagonalSquares(b, n), p, q);
    DiagonalGain(g, app, aqq, apq);
  }

  lemma DiagonalGain(g: Angle, app: real, aqq: real, apq: real)
    requires Annihilates(g, app, aqq, apq)
    ensures (app - g.t * apq) * (app - g.t * apq) + (aqq + g.t * apq) * (aqq + g.t * apq)
            == app * app + aqq * aqq + 2.0 * (apq * apq)
  {
    var d, e := aqq - app, g.t * apq;
    assert g.t * d == apq * (1.0 - g.t * g.t);
    assert e * d == apq * (g.t * d);
    assert apq * (apq * (1.0 - g.t * g.t)) == apq * apq - e * e by {
      assert e * e == apq * apq * (g.t * g.t);
    }
    assert (app - e) * (app - e) == app * app - 2.0 * (e * app) + e * e;
    assert (aqq + e) * (aqq + e) == aqq * aqq + 2.0 * (e * aqq) + e * e;
    assert 2.0 * (e * aqq) - 2.0 * (e * app) == 2.0 * (e * d);
  }

  // ----- The angle the program chooses

  /** A square-root operation. */
  ghost predicate IsSqrt(sqrt: real -> real) {
    forall x :: x >= 0.0 ==> sqrt(x) >= 0.0 && sqrt(x) * sqrt(x) == x
  }

  function SignOf(x: real): real {
    if x < 0.0 then -1.0 else 1.0
  }

  lemma TangentAnnihilates(theta: real, root: real)
    requires root * root == 1.0 + theta * theta
    ensures Abs(theta) + root != 0.0
    ensures var t := SignOf(theta) / (Abs(theta) + root); t * t + 2.0 * theta * t == 1.0
  {
    var m := Abs(theta);
    var d := m + root;
    assert theta * theta >= 0.0;
    assert root != 0.0;
    var sg := SignOf(theta);
    var t := sg / d;
    assert t * d == sg;
    assert m * m == theta * theta;
    assert d * d == m * m + 2.0 * (m * root) + root * root;
    assert d * d - 2.0 * (m * d) == 1.0 by {
      assert m * d == m * m + m * root;
    }
    assert sg * sg == 1.0 && theta == sg * m;
    assert (t * d) * (t * d) == 1.0;
    assert (t * t) * (d * d) == 1.0;
    assert theta * t * d == m by {
      assert theta * t * d == theta * (t * d);
    }
    var k := t * t + 2.0 * theta * t - 1.0;
    assert k * (d * d) == (t * t) * (d * d) + 2.0 * (theta * t * d) * d - d * d;
    assert k * (d * d) == 0.0;
    SquarePositive(d);
    ZeroProduct(k, d * d);
  }

  lemma SquarePositive(d: real)
    requires d != 0.0
    ensures d * d > 0.0
  {
  }

  lemma ZeroProduct(k: real, e: real)
    requires e != 0.0 && k * e == 0.0
    ensures k == 0.0
  {
  }
}
