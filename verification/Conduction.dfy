/** The assembled conductivity matrix and what it means
  (`element_conductivity` and the assembly loops of tpt-vertex-simulation/src/thermal.rs). */
module Conduction {
  import opened LinearSystems
  import opened Rotations
  import opened Elements
  import opened Points

  /** A volume mesh: node positions, and four node indices per tetrahedron. */
  datatype VolMesh = VolMesh(nodes: seq<Point>, tets: seq<seq<nat>>)
  {
    ghost predicate Valid() {
      forall e | 0 <= e < |tets| :: |tets[e]| == 4 && forall i | 0 <= i < 4 :: tets[e][i] < |nodes|
    }

    function CornersOf(e: nat): Corners
      requires Valid() && e < |tets|
    {
      var t := tets[e];
      Corners(nodes[t[0]], nodes[t[1]], nodes[t[2]], nodes[t[3]])
    }
  }

  /** The gradients of the four shape functions, coordinate by coordinate. */
  function AlongX(g: Gradients): Vec { [g.g0.x, g.g1.x, g.g2.x, g.g3.x] }
  function AlongY(g: Gradients): Vec { [g.g0.y, g.g1.y, g.g2.y, g.g3.y] }
  function AlongZ(g: Gradients): Vec { [g.g0.z, g.g1.z, g.g2.z, g.g3.z] }

  function Mul(u: real, v: real): real {
    u * v
  }

  function Inner(a: real, a': real, b: real, b': real, c: real, c': real): real {
    a * a' + b * b' + c * c'
  }

  /** `weight` times the Gram matrix of three coordinate vectors. */
  function WeightedGram(x: Vec, y: Vec, z: Vec, weight: real): (k: Matrix)
    requires |x| == |y| == |z|
    ensures IsSquare(k, |x|)
  {
    seq(|x|, i requires 0 <= i < |x| => seq(|x|, j requires 0 <= j < |x| =>
      Mul(weight, Inner(x[i], x[j], y[i], y[j], z[i], z[j]))))
  }

  function GramOf(g: Gradients, weight: real): (k: Matrix)
    ensures IsSquare(k, 4)
  {
    WeightedGram(AlongX(g), AlongY(g), AlongZ(g), weight)
  }

  /** Conductivity times volume times the inner products of the gradients. */
  function ElementConductivity(t: Corners, conductivity: real): (k: Matrix)
    ensures IsSquare(k, 4)
  {
    GramOf(ShapeGradients(t), Mul(conductivity, Abs(TetVolume(t))))
  }

  function AddAt(k: Matrix, n: nat, r: nat, c: nat, d: real): (m: Matrix)
    requires IsSquare(k, n) && r < n && c < n
    ensures IsSquare(m, n)
  {
    k[r := k[r][c := k[r][c] + d]]
  }

  /** One element: its nodes and its matrix. */
  datatype Element = Element(tet: seq<nat>, ke: Matrix)
  {
    ghost predicate Fits(n: nat) {
      |tet| == 4 && IsSquare(ke, 4) && forall i | 0 <= i < 4 :: tet[i] < n
    }

    /** The four nodal values of a global vector. */
    function Local(x: Vec): (y: Vec)
      requires Fits(|x|)
      ensures |y| == 4
    {
      [x[tet[0]], x[tet[1]], x[tet[2]], x[tet[3]]]
    }
  }

  function ElementsOf(mesh: VolMesh, conductivity: real): (es: seq<Element>)
    requires mesh.Valid()
    ensures |es| == |mesh.tets| && AllFit(es, |mesh.nodes|)
  {
    seq(|mesh.tets|, e requires 0 <= e < |mesh.tets| =>
      Element(mesh.tets[e], ElementConductivity(mesh.CornersOf(e), conductivity)))
  }

  ghost predicate AllFit(es: seq<Element>, n: nat) {
    forall e | 0 <= e < |es| :: es[e].Fits(n)
  }

  /** The first `m` of the sixteen entries of one element have been added, row by row. */
  function Scattered(k: Matrix, n: nat, e: Element, m: nat): (r: Matrix)
    requires IsSquare(k, n) && e.Fits(n) && m <= 16
    ensures IsSquare(r, n)
  {
    if m == 0 then k
    else
      var i, j := (m - 1) / 4, (m - 1) % 4;
      AddAt(Scattered(k, n, e, m - 1), n, e.tet[i], e.tet[j], e.ke[i][j])
  }

  function ZeroMatrix(n: nat): (z: Matrix)
    ensures IsSquare(z, n)
  {
    seq(n, _ => seq(n, _ => 0.0))
  }

  /** The matrix of a list of elements. */
  function Assembled(es: seq<Element>, n: nat): (k: Matrix)
    requires AllFit(es, n)
    ensures IsSquare(k, n)
  {
    if es == [] then ZeroMatrix(n)
    else Scattered(Assembled(es[..|es| - 1], n), n, es[|es| - 1], 16)
  }

  // ----- Scattering an element adds its form

  lemma {:induction false} DotOneChanged(x: Vec, x': Vec, y: Vec, c: nat, d: real, k: nat)
    requires |x| == |y| && c < |x| && x' == x[c := x[c] + d] && k <= |x|
    ensures Dot(x', y, k) == Dot(x, y, k) + (if k <= c then d * y[c] else 0.0)
    decreases |x| - k
  {
    if k < |x| {
      DotOneChanged(x, x', y, c, d, k + 1);
      if k == c {
        assert (x[c] + d) * y[c] == x[c] * y[c] + d * y[c];
      }
    }
  }

  /** The share of one matrix entry in the form. */
  function Product(u: real, d: real, v: real): real {
    u * (d * v)
  }

  lemma FormAddAt(k: Matrix, n: nat, r: nat, c: nat, d: real, x: Vec, y: Vec) returns (delta: real)
    requires IsSquare(k, n) && r < n && c < n && |x| == |y| == n
    ensures delta == Product(x[r], d, y[c])
    ensures Form(AddAt(k, n, r, c, d), n, x, y) == Form(k, n, x, y) + delta
  {
    var m := AddAt(k, n, r, c, d);
    var before, after := Times(k, n, y), Times(m, n, y);
    DotOneChanged(k[r], m[r], y, c, d, 0);
    assert after == before[r := before[r] + d * y[c]];
    DotOneChanged(before, after, x, r, d * y[c], 0);
    DotSymmetric(x, after, 0);
    DotSymmetric(x, before, 0);
    delta := Product(x[r], d, y[c]);
  }

  lemma ScatteredStep(k: Matrix, n: nat, e: Element, m: nat, x: Vec, y: Vec) returns (delta: real)
    requires IsSquare(k, n) && e.Fits(n) && m < 16 && |x| == |y| == n
    ensures delta == Product(e.Local(x)[m / 4], e.ke[m / 4][m % 4], e.Local(y)[m % 4])
    ensures Form(Scattered(k, n, e, m + 1), n, x, y) == Form(Scattered(k, n, e, m), n, x, y) + delta
  {
    delta := FormAddAt(Scattered(k, n, e, m), n, e.tet[m / 4], e.tet[m % 4], e.ke[m / 4][m % 4], x, y);
    LocalAt(e, x, m / 4);
    LocalAt(e, y, m % 4);
  }

  lemma LocalAt(e: Element, x: Vec, i: nat)
    requires e.Fits(|x|) && i < 4
    ensures e.Local(x)[i] == x[e.tet[i]]
  {
  }

  lemma DotOfFour(x: Vec, y: Vec)
    requires |x| == |y| == 4
    ensures Dot(x, y, 0) == x[0] * y[0] + x[1] * y[1] + x[2] * y[2] + x[3] * y[3]
  {
    assert Dot(x, y, 3) == x[3] * y[3];
    assert Dot(x, y, 2) == x[2] * y[2] + Dot(x, y, 3);
  }

  lemma RowDelta(row: Vec, ys: Vec, s: real, d0: real, d1: real, d2: real, d3: real) returns (delta: real)
    requires |row| == |ys| == 4
    requires d0 == Product(s, row[0], ys[0]) && d1 == Product(s, row[1], ys[1])
    requires d2 == Product(s, row[2], ys[2]) && d3 == Product(s, row[3], ys[3])
    ensures delta == d0 + d1 + d2 + d3 && delta == Mul(s, Dot(row, ys, 0))
  {
    DotOfFour(row, ys);
    delta := d0 + d1 + d2 + d3;
    Distribute(s, row[0] * ys[0], row[1] * ys[1], row[2] * ys[2], row[3] * ys[3]);
  }

  lemma Distribute(s: real, a: real, b: real, c: real, d: real)
    ensures s * (a + b + c + d) == s * a + s * b + s * c + s * d
  {
  }

  /** Adding one row of an element adds its share of the element's form. */
  lemma RowScattered(k: Matrix, n: nat, e: Element, i: nat, x: Vec, y: Vec) returns (delta: real)
    requires IsSquare(k, n) && e.Fits(n) && i < 4 && |x| == |y| == n
    ensures delta == Mul(e.Local(x)[i], Dot(e.ke[i], e.Local(y), 0))
    ensures Form(Scattered(k, n, e, 4 * i + 4), n, x, y) == Form(Scattered(k, n, e, 4 * i), n, x, y) + delta
  {
    hide Form, Dot, Scattered;
    var d0 := ScatteredStep(k, n, e, 4 * i, x, y);
    var d1 := ScatteredStep(k, n, e, 4 * i + 1, x, y);
    var d2 := ScatteredStep(k, n, e, 4 * i + 2, x, y);
    var d3 := ScatteredStep(k, n, e, 4 * i + 3, x, y);
    delta := RowDelta(e.ke[i], e.Local(y), e.Local(x)[i], d0, d1, d2, d3);
  }

  lemma FormOfFour(ke: Matrix, u: Vec, v: Vec, d0: real, d1: real, d2: real, d3: real)
    requires IsSquare(ke, 4) && |u| == |v| == 4
    requires d0 == Mul(u[0], Dot(ke[0], v, 0)) && d1 == Mul(u[1], Dot(ke[1], v, 0))
    requires d2 == Mul(u[2], Dot(ke[2], v, 0)) && d3 == Mul(u[3], Dot(ke[3], v, 0))
    ensures Form(ke, 4, u, v) == d0 + d1 + d2 + d3
  {
    DotOfFour(u, Times(ke, 4, v));
  }

  /** Scattering adds the element's own form of the local values. */
  lemma ElementScattered(k: Matrix, n: nat, e: Element, x: Vec, y: Vec)
    requires IsSquare(k, n) && e.Fits(n) && |x| == |y| == n
    ensures Form(Scattered(k, n, e, 16), n, x, y) == Form(k, n, x, y) + Form(e.ke, 4, e.Local(x), e.Local(y))
  {
    var d0 := RowScattered(k, n, e, 0, x, y);
    var d1 := RowScattered(k, n, e, 1, x, y);
    var d2 := RowScattered(k, n, e, 2, x, y);
    var d3 := RowScattered(k, n, e, 3, x, y);
    assert Scattered(k, n, e, 0) == k;
    FormOfFour(e.ke, e.Local(x), e.Local(y), d0, d1, d2, d3);
  }

  /** The sum of the elements' forms. */
  function TotalForm(es: seq<Element>, x: Vec, y: Vec): real
    requires AllFit(es, |x|) && |x| == |y|
  {
    if es == [] then 0.0
    else var e := es[|es| - 1]; TotalForm(es[..|es| - 1], x, y) + Form(e.ke, 4, e.Local(x), e.Local(y))
  }

  lemma {:induction false} DotZeroVector(x: Vec, z: Vec, k: nat)
    requires |x| == |z| && k <= |x| && forall i | 0 <= i < |z| :: z[i] == 0.0
    ensures Dot(x, z, k) == 0.0 == Dot(z, x, k)
    decreases |x| - k
  {
    if k < |x| {
      DotZeroVector(x, z, k + 1);
    }
  }

  lemma ZeroForm(n: nat, x: Vec, y: Vec)
    requires |x| == |y| == n
    ensures Form(ZeroMatrix(n), n, x, y) == 0.0
  {
    forall i | 0 <= i < n
      ensures Times(ZeroMatrix(n), n, y)[i] == 0.0
    {
      DotZeroVector(y, ZeroMatrix(n)[i], 0);
    }
    DotZeroVector(x, Times(ZeroMatrix(n), n, y), 0);
  }

  /** The assembled matrix represents the sum of the elements' forms: nothing is lost, doubled or put elsewhere. */
  lemma {:induction false} AssembledIsTotal(es: seq<Element>, n: nat, x: Vec, y: Vec)
    requires AllFit(es, n) && |x| == |y| == n
    ensures Form(Assembled(es, n), n, x, y) == TotalForm(es, x, y)
  {
    if es == [] {
      ZeroForm(n, x, y);
    } else {
      var rest := es[..|es| - 1];
      AssembledIsTotal(rest, n, x, y);
      ElementScattered(Assembled(rest, n), n, es[|es| - 1], x, y);
    }
  }

  // ----- The form of one element

  /** The outer product of a vector with itself, weighted. */
  function Outer(x: Vec, weight: real): (k: Matrix)
    ensures IsSquare(k, |x|)
  {
    seq(|x|, i requires 0 <= i < |x| => Scaled(x, Mul(weight, x[i])))
  }

  function Scaled(x: Vec, s: real): (y: Vec)
    ensures |y| == |x|
  {
    seq(|x|, i requires 0 <= i < |x| => Mul(s, x[i]))
  }

  lemma {:induction false} DotScaled(v: Vec, x: Vec, s: real, k: nat)
    requires |v| == |x| && k <= |x|
    ensures Dot(v, Scaled(x, s), k) == Mul(s, Dot(v, x, k))
    decreases |x| - k
  {
    if k < |x| {
      DotScaled(v, x, s, k + 1);
      ScaledTerm(v[k], Scaled(x, s)[k], x[k], s, Dot(v, x, k + 1), Dot(v, Scaled(x, s), k + 1));
    }
  }

  lemma ScaledTerm(v: real, y: real, x: real, s: real, d: real, e: real)
    requires y == Mul(s, x) && e == Mul(s, d)
    ensures v * y + e == Mul(s, v * x + d)
  {
  }

  function MatrixSum(a: Matrix, b: Matrix, n: nat): (k: Matrix)
    requires IsSquare(a, n) && IsSquare(b, n)
    ensures IsSquare(k, n)
  {
    seq(n, i requires 0 <= i < n => Mixed(a[i], b[i], 1.0, 1.0))
  }

  lemma FormOfSum(a: Matrix, b: Matrix, n: nat, u: Vec, v: Vec)
    requires IsSquare(a, n) && IsSquare(b, n) && |u| == |v| == n
    ensures Form(MatrixSum(a, b, n), n, u, v) == Form(a, n, u, v) + Form(b, n, u, v)
  {
    var ta, tb, t := Times(a, n, v), Times(b, n, v), Times(MatrixSum(a, b, n), n, v);
    forall i | 0 <= i < n
      ensures t[i] == Mixed(ta, tb, 1.0, 1.0)[i]
    {
      DotMixedRight(a[i], b[i], v, 1.0, 1.0, 0);
      DotSymmetric(Mixed(a[i], b[i], 1.0, 1.0), v, 0);
      DotSymmetric(a[i], v, 0);
      DotSymmetric(b[i], v, 0);
    }
    assert t == Mixed(ta, tb, 1.0, 1.0);
    DotMixedRight(ta, tb, u, 1.0, 1.0, 0);
  }

  lemma OuterRow(x: Vec, weight: real, v: Vec, i: nat)
    requires |x| == |v| && i < |x|
    ensures Dot(Outer(x, weight)[i], v, 0) == Mul(Mul(weight, Dot(v, x, 0)), x[i])
  {
    var s := Mul(weight, x[i]);
    DotScaled(v, x, s, 0);
    DotSymmetric(Scaled(x, s), v, 0);
    Regroup(weight, x[i], Dot(v, x, 0));
  }

  lemma Regroup(w: real, x: real, p: real)
    ensures Mul(Mul(w, x), p) == Mul(Mul(w, p), x)
  {
  }

  lemma OuterForm(x: Vec, weight: real, u: Vec, v: Vec)
    requires |x| == |u| == |v|
    ensures Form(Outer(x, weight), |x|, u, v) == Mul(Mul(weight, Dot(v, x, 0)), Dot(u, x, 0))
  {
    var t, s := Times(Outer(x, weight), |x|, v), Mul(weight, Dot(v, x, 0));
    forall i | 0 <= i < |x|
      ensures t[i] == Scaled(x, s)[i]
    {
      OuterRow(x, weight, v, i);
    }
    assert t == Scaled(x, s);
    DotScaled(u, x, s, 0);
  }

  lemma GramIsSumOfOuters(x: Vec, y: Vec, z: Vec, weight: real)
    requires |x| == |y| == |z|
    ensures WeightedGram(x, y, z, weight)
            == MatrixSum(MatrixSum(Outer(x, weight), Outer(y, weight), |x|), Outer(z, weight), |x|)
  {
    var n := |x|;
    var k := MatrixSum(MatrixSum(Outer(x, weight), Outer(y, weight), n), Outer(z, weight), n);
    forall i | 0 <= i < n
      ensures WeightedGram(x, y, z, weight)[i] == k[i]
    {
      forall j | 0 <= j < n
        ensures WeightedGram(x, y, z, weight)[i][j] == k[i][j]
      {
        assert k[i][j] == 1.0 * (1.0 * Outer(x, weight)[i][j] + 1.0 * Outer(y, weight)[i][j]) + 1.0 * Outer(z, weight)[i][j];
        GramTerm(weight, x[i], x[j], y[i], y[j], z[i], z[j]);
      }
    }
  }

  lemma GramTerm(w: real, a: real, a': real, b: real, b': real, c: real, c': real)
    ensures Mul(w, Inner(a, a', b, b', c, c')) == Mul(Mul(w, a), a') + Mul(Mul(w, b), b') + Mul(Mul(w, c), c')
  {
  }

  /** The form of a weighted Gram matrix is the weighted inner product of the three projections. */
  lemma GramForm(x: Vec, y: Vec, z: Vec, weight: real, u: Vec, v: Vec)
    requires |x| == |y| == |z| == |u| == |v|
    ensures Form(WeightedGram(x, y, z, weight), |x|, u, v)
            == Mul(Mul(weight, Dot(v, x, 0)), Dot(u, x, 0)) + Mul(Mul(weight, Dot(v, y, 0)), Dot(u, y, 0))
               + Mul(Mul(weight, Dot(v, z, 0)), Dot(u, z, 0))
  {
    var n := |x|;
    var a, b, c := Outer(x, weight), Outer(y, weight), Outer(z, weight);
    GramIsSumOfOuters(x, y, z, weight);
    FormOfSum(MatrixSum(a, b, n), c, n, u, v);
    FormOfSum(a, b, n, u, v);
    OuterForm(x, weight, u, v);
    OuterForm(y, weight, u, v);
    OuterForm(z, weight, u, v);
  }

  /** An element whose matrix is a weighted Gram matrix. */
  ghost predicate IsGram(e: Element, x: Vec, y: Vec, z: Vec, weight: real) {
    |x| == |y| == |z| == 4 && e.ke == WeightedGram(x, y, z, weight)
  }

  /** What the heat conduction needs of every element. */
  ghost predicate Conducts(e: Element, nonnegative: bool) {
    exists x: Vec, y: Vec, z: Vec, weight: real ::
      && IsGram(e, x, y, z, weight) && (nonnegative ==> weight >= 0.0)
      && SumsToZero(x) && SumsToZero(y) && SumsToZero(z)
  }

  ghost predicate SumsToZero(x: Vec) {
    |x| == 4 && x[0] + x[1] + x[2] + x[3] == 0.0
  }

  lemma ElementSymmetric(e: Element, u: Vec, v: Vec)
    requires Conducts(e, false) && |u| == |v| == 4
    ensures Form(e.ke, 4, u, v) == Form(e.ke, 4, v, u)
  {
    var x: Vec, y: Vec, z: Vec, weight: real :| IsGram(e, x, y, z, weight);
    GramForm(x, y, z, weight, u, v);
    GramForm(x, y, z, weight, v, u);
  }

  lemma ElementUniform(e: Element, u: Vec, level: real)
    requires Conducts(e, false) && |u| == 4
    ensures Form(e.ke, 4, u, [level, level, level, level]) == 0.0
  {
    var x: Vec, y: Vec, z: Vec, weight: real :|
      IsGram(e, x, y, z, weight) && SumsToZero(x) && SumsToZero(y) && SumsToZero(z);
    var v := [level, level, level, level];
    GramForm(x, y, z, weight, u, v);
    UniformProjection(x, level);
    UniformProjection(y, level);
    UniformProjection(z, level);
  }

  lemma UniformProjection(x: Vec, level: real)
    requires SumsToZero(x)
    ensures Dot([level, level, level, level], x, 0) == 0.0
  {
    DotOfFour([level, level, level, level], x);
    assert x[0] * level + x[1] * level + x[2] * level + x[3] * level == (x[0] + x[1] + x[2] + x[3]) * level;
  }

  lemma ElementNonnegative(e: Element, u: Vec)
    requires Conducts(e, true) && |u| == 4
    ensures Form(e.ke, 4, u, u) >= 0.0
  {
    var x: Vec, y: Vec, z: Vec, weight: real :| IsGram(e, x, y, z, weight) && weight >= 0.0;
    GramForm(x, y, z, weight, u, u);
    WeightedSquare(weight, Dot(u, x, 0));
    WeightedSquare(weight, Dot(u, y, 0));
    WeightedSquare(weight, Dot(u, z, 0));
  }

  lemma WeightedSquare(w: real, p: real)
    requires w >= 0.0
    ensures Mul(Mul(w, p), p) >= 0.0
  {
    assert p * p >= 0.0;
    assert Mul(Mul(w, p), p) == w * (p * p);
  }

  // ----- Symmetry, zero row sums, positive semidefiniteness

  ghost predicate AllConduct(es: seq<Element>, nonnegative: bool) {
    forall e | 0 <= e < |es| :: Conducts(es[e], nonnegative)
  }

  lemma {:induction false} TotalSymmetric(es: seq<Element>, x: Vec, y: Vec)
    requires AllFit(es, |x|) && |x| == |y| && AllConduct(es, false)
    ensures TotalForm(es, x, y) == TotalForm(es, y, x)
  {
    if es != [] {
      var e := es[|es| - 1];
      TotalSymmetric(es[..|es| - 1], x, y);
      ElementSymmetric(e, e.Local(x), e.Local(y));
    }
  }

  /** A uniform temperature has no gradient anywhere, so it conducts nothing. */
  lemma {:induction false} UniformConductsNothing(es: seq<Element>, x: Vec, y: Vec, level: real)
    requires AllFit(es, |x|) && |x| == |y| && AllConduct(es, false)
    requires forall i | 0 <= i < |y| :: y[i] == level
    ensures TotalForm(es, x, y) == 0.0
  {
    if es != [] {
      var e := es[|es| - 1];
      UniformConductsNothing(es[..|es| - 1], x, y, level);
      assert e.Local(y) == [level, level, level, level];
      ElementUniform(e, e.Local(x), level);
    }
  }

  lemma {:induction false} TotalNonnegative(es: seq<Element>, x: Vec)
    requires AllFit(es, |x|) && AllConduct(es, true)
    ensures TotalForm(es, x, x) >= 0.0
  {
    if es != [] {
      var e := es[|es| - 1];
      TotalNonnegative(es[..|es| - 1], x);
      ElementNonnegative(e, e.Local(x));
    }
  }

  function Unit(n: nat, a: nat): (e: Vec)
    requires a < n
    ensures |e| == n
  {
    seq(n, i requires 0 <= i < n => if i == a then 1.0 else 0.0)
  }

  lemma UnitForm(k: Matrix, n: nat, a: nat, y: Vec)
    requires IsSquare(k, n) && a < n && |y| == n
    ensures Form(k, n, Unit(n, a), y) == Dot(k[a], y, 0)
  {
    DotUnit(Unit(n, a), Times(k, n, y), a, 0);
  }

  lemma UnitEntry(k: Matrix, n: nat, a: nat, b: nat)
    requires IsSquare(k, n) && a < n && b < n
    ensures Form(k, n, Unit(n, a), Unit(n, b)) == k[a][b]
  {
    UnitForm(k, n, a, Unit(n, b));
    DotSymmetric(k[a], Unit(n, b), 0);
    DotUnit(Unit(n, b), k[a], b, 0);
  }

  function Ones(n: nat): (e: Vec)
    ensures |e| == n
  {
    seq(n, _ => 1.0)
  }

  ghost predicate RowsSumToZero(k: Matrix, n: nat)
    requires IsSquare(k, n)
  {
    forall a | 0 <= a < n :: Dot(k[a], Ones(n), 0) == 0.0
  }

  ghost predicate PositiveSemidefinite(k: Matrix, n: nat)
    requires IsSquare(k, n)
  {
    forall x: Vec | |x| == n :: Form(k, n, x, x) >= 0.0
  }

  lemma AssembledSymmetric(es: seq<Element>, n: nat)
    requires AllFit(es, n) && AllConduct(es, false)
    ensures Symmetric(Assembled(es, n), n)
  {
    var k := Assembled(es, n);
    forall a, b | 0 <= a < n && 0 <= b < n
      ensures k[a][b] == k[b][a]
    {
      UnitEntry(k, n, a, b);
      UnitEntry(k, n, b, a);
      AssembledIsTotal(es, n, Unit(n, a), Unit(n, b));
      AssembledIsTotal(es, n, Unit(n, b), Unit(n, a));
      TotalSymmetric(es, Unit(n, a), Unit(n, b));
    }
  }

  lemma AssembledRowSums(es: seq<Element>, n: nat)
    requires AllFit(es, n) && AllConduct(es, false)
    ensures RowsSumToZero(Assembled(es, n), n)
  {
    forall a | 0 <= a < n
      ensures Dot(Assembled(es, n)[a], Ones(n), 0) == 0.0
    {
      UnitForm(Assembled(es, n), n, a, Ones(n));
      AssembledIsTotal(es, n, Unit(n, a), Ones(n));
      UniformConductsNothing(es, Unit(n, a), Ones(n), 1.0);
    }
  }

  lemma AssembledSemidefinite(es: seq<Element>, n: nat)
    requires AllFit(es, n) && AllConduct(es, true)
    ensures PositiveSemidefinite(Assembled(es, n), n)
  {
    forall x: Vec | |x| == n
      ensures Form(Assembled(es, n), n, x, x) >= 0.0
    {
      AssembledIsTotal(es, n, x, x);
      TotalNonnegative(es, x);
    }
  }

  lemma MeshElementConducts(mesh: VolMesh, conductivity: real, e: nat)
    requires mesh.Valid() && e < |mesh.tets|
    ensures Conducts(ElementsOf(mesh, conductivity)[e], conductivity >= 0.0)
  {
    ConductivityConducts(ElementsOf(mesh, conductivity)[e], mesh.CornersOf(e), conductivity);
  }

  lemma ConductivityConducts(e: Element, t: Corners, conductivity: real)
    requires e.ke == ElementConductivity(t, conductivity)
    ensures Conducts(e, conductivity >= 0.0)
  {
    ShapeGradientsBalanced(t);
    NonnegativeWeight(conductivity, Abs(TetVolume(t)));
    GramConducts(e, ShapeGradients(t), Mul(conductivity, Abs(TetVolume(t))), conductivity >= 0.0);
  }

  lemma GramConducts(e: Element, g: Gradients, weight: real, nonnegative: bool)
    requires e.ke == GramOf(g, weight) && Balanced(g)
    requires nonnegative ==> weight >= 0.0
    ensures Conducts(e, nonnegative)
  {
    BalancedSums(g);
    assert IsGram(e, AlongX(g), AlongY(g), AlongZ(g), weight);
  }

  lemma BalancedSums(g: Gradients)
    requires Balanced(g)
    ensures SumsToZero(AlongX(g)) && SumsToZero(AlongY(g)) && SumsToZero(AlongZ(g))
  {
  }

  lemma NonnegativeWeight(c: real, v: real)
    ensures c >= 0.0 && v >= 0.0 ==> Mul(c, v) >= 0.0
  {
  }

  /** For every mesh the conductivity matrix is symmetric, its rows sum to zero, and with nonnegative conductivity it is
    positive semidefinite. */
  lemma ConductivityMatrix(mesh: VolMesh, conductivity: real)
    requires mesh.Valid()
    ensures var n, k := |mesh.nodes|, Assembled(ElementsOf(mesh, conductivity), |mesh.nodes|);
            Symmetric(k, n) && RowsSumToZero(k, n) && (conductivity >= 0.0 ==> PositiveSemidefinite(k, n))
  {
    var es, n := ElementsOf(mesh, conductivity), |mesh.nodes|;
    forall e | 0 <= e < |es|
      ensures Conducts(es[e], conductivity >= 0.0)
    {
      MeshElementConducts(mesh, conductivity, e);
    }
    AllConductWeakly(es, conductivity >= 0.0);
    AssembledSymmetric(es, n);
    AssembledRowSums(es, n);
    if conductivity >= 0.0 {
      AssembledSemidefinite(es, n);
    }
  }

  lemma AllConductWeakly(es: seq<Element>, nonnegative: bool)
    requires AllConduct(es, nonnegative)
    ensures AllConduct(es, false)
  {
  }
}
