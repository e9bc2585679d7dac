/** The linear tetrahedron: shape-function gradients and the conductivity form
  (tpt-vertex-simulation/src/element.rs, thermal.rs). */
module Elements {
  import opened LinearSystems
  import opened Points

  /** Four corner positions. */
  datatype Corners = Corners(a: Point, b: Point, c: Point, d: Point)

  function Determinant(u: Point, v: Point, w: Point): real {
    u.x * (v.y * w.z - w.y * v.z) - v.x * (u.y * w.z - w.y * u.z) + w.x * (u.y * v.z - v.y * u.z)
  }

  /** Signed volume. */
  function TetVolume(t: Corners): real {
    var ab, ac, ad := t.b.Minus(t.a), t.c.Minus(t.a), t.d.Minus(t.a);
    (ab.x * (ac.y * ad.z - ac.z * ad.y) + ab.y * (ac.z * ad.x - ac.x * ad.z) + ab.z * (ac.x * ad.y - ac.y * ad.x)) / 6.0
  }

  datatype Gradients = Gradients(g0: Point, g1: Point, g2: Point, g3: Point)

  /** The rows of the inverse of the matrix with columns `u`, `v`, `w`; zero when the determinant is negligible. */
  function InverseRows(u: Point, v: Point, w: Point): (Point, Point, Point) {
    var det := Determinant(u, v, w);
    if Abs(det) < TINY then (ORIGIN, ORIGIN, ORIGIN)
    else
      var inv := 1.0 / det;
      (Point((v.y * w.z - w.y * v.z) * inv, (w.x * v.z - v.x * w.z) * inv, (v.x * w.y - w.x * v.y) * inv),
       Point((w.y * u.z - u.y * w.z) * inv, (u.x * w.z - w.x * u.z) * inv, (w.x * u.y - u.x * w.y) * inv),
       Point((u.y * v.z - v.y * u.z) * inv, (v.x * u.z - u.x * v.z) * inv, (u.x * v.y - v.x * u.y) * inv))
  }

  /** The constant gradients of the four shape functions: the transposed inverse Jacobian applied to the reference ones. */
  function ShapeGradients(t: Corners): Gradients {
    var (r0, r1, r2) := InverseRows(t.b.Minus(t.a), t.c.Minus(t.a), t.d.Minus(t.a));
    Gradients(ORIGIN.Minus(r0.Plus(r1).Plus(r2)), r0, r1, r2)
  }

  /** The gradient of the linear interpolation of four corner values. */
  function Interpolated(g: Gradients, t0: real, t1: real, t2: real, t3: real): Point {
    g.g0.Scaled(t0).Plus(g.g1.Scaled(t1)).Plus(g.g2.Scaled(t2)).Plus(g.g3.Scaled(t3))
  }

  predicate Fat(t: Corners) {
    Abs(Determinant(t.b.Minus(t.a), t.c.Minus(t.a), t.d.Minus(t.a))) >= TINY
  }

  /** The volume is a sixth of the determinant whose inverse gives the gradients. */
  lemma VolumeIsSixthOfDeterminant(t: Corners)
    ensures 6.0 * TetVolume(t) == Determinant(t.b.Minus(t.a), t.c.Minus(t.a), t.d.Minus(t.a))
  {
  }

  lemma DeterminantSplits(u: Point, v: Point, w: Point, r: Point)
    ensures Determinant(u.Minus(r), v.Minus(r), w.Minus(r)) + Determinant(r, v, w) + Determinant(u, r, w) + Determinant(u, v, r)
            == Determinant(u, v, w)
  {
  }

  /** Volumes are additive: those of the four tetrahedra that a point makes with the faces sum to the whole. */
  lemma VolumeSplits(t: Corners, p: Point)
    ensures TetVolume(t) == TetVolume(t.(a := p)) + TetVolume(t.(b := p)) + TetVolume(t.(c := p)) + TetVolume(t.(d := p))
  {
    var u, v, w, r := t.b.Minus(t.a), t.c.Minus(t.a), t.d.Minus(t.a), p.Minus(t.a);
    assert t.b.Minus(p) == u.Minus(r) && t.c.Minus(p) == v.Minus(r) && t.d.Minus(p) == w.Minus(r);
    VolumeIsSixthOfDeterminant(t);
    VolumeIsSixthOfDeterminant(t.(a := p));
    VolumeIsSixthOfDeterminant(t.(b := p));
    VolumeIsSixthOfDeterminant(t.(c := p));
    VolumeIsSixthOfDeterminant(t.(d := p));
    DeterminantSplits(u, v, w, r);
    hide Determinant, TetVolume, Point.Minus;
  }

  /** The adjugate identity: three polynomial identities for each of the three coordinates. */
  lemma AdjugateIdentity(u: Point, v: Point, w: Point, b: Point)
    ensures var det := Determinant(u, v, w);
            var du, dv, dw := b.DotWith(u), b.DotWith(v), b.DotWith(w);
            && (v.y * w.z - w.y * v.z) * du + (w.y * u.z - u.y * w.z) * dv + (u.y * v.z - v.y * u.z) * dw == b.x * det
            && (w.x * v.z - v.x * w.z) * du + (u.x * w.z - w.x * u.z) * dv + (v.x * u.z - u.x * v.z) * dw == b.y * det
            && (v.x * w.y - w.x * v.y) * du + (w.x * u.y - u.x * w.y) * dv + (u.x * v.y - v.x * u.y) * dw == b.z * det
  {
  }

  lemma ScaledTriple(p: real, q: real, r: real, x: real, y: real, z: real, inv: real, goal: real, det: real)
    requires p * x + q * y + r * z == goal * det && inv * det == 1.0
    ensures p * inv * x + q * inv * y + r * inv * z == goal
  {
    assert p * inv * x == inv * (p * x);
    assert q * inv * y == inv * (q * y);
    assert r * inv * z == inv * (r * z);
    assert inv * (goal * det) == goal * (inv * det);
  }

  lemma InverseRecoversScaled(u: Point, v: Point, w: Point, b: Point, inv: real)
    requires inv * Determinant(u, v, w) == 1.0
    ensures var du, dv, dw := b.DotWith(u), b.DotWith(v), b.DotWith(w);
            && (v.y * w.z - w.y * v.z) * inv * du + (w.y * u.z - u.y * w.z) * inv * dv + (u.y * v.z - v.y * u.z) * inv * dw == b.x
            && (w.x * v.z - v.x * w.z) * inv * du + (u.x * w.z - w.x * u.z) * inv * dv + (v.x * u.z - u.x * v.z) * inv * dw == b.y
            && (v.x * w.y - w.x * v.y) * inv * du + (w.x * u.y - u.x * w.y) * inv * dv + (u.x * v.y - v.x * u.y) * inv * dw == b.z
  {
    AdjugateIdentity(u, v, w, b);
    hide Determinant;
    var det, du, dv, dw := Determinant(u, v, w), b.DotWith(u), b.DotWith(v), b.DotWith(w);
    ScaledTriple(v.y * w.z - w.y * v.z, w.y * u.z - u.y * w.z, u.y * v.z - v.y * u.z, du, dv, dw, inv, b.x, det);
    ScaledTriple(w.x * v.z - v.x * w.z, u.x * w.z - w.x * u.z, v.x * u.z - u.x * v.z, du, dv, dw, inv, b.y, det);
    ScaledTriple(v.x * w.y - w.x * v.y, w.x * u.y - u.x * w.y, u.x * v.y - v.x * u.y, du, dv, dw, inv, b.z, det);
  }

  /** The inverse rows turn the derivatives along the three edges back into the gradient. */
  lemma InverseRecovers(u: Point, v: Point, w: Point, b: Point)
    requires Abs(Determinant(u, v, w)) >= TINY
    ensures var (r0, r1, r2) := InverseRows(u, v, w);
            r0.Scaled(b.DotWith(u)).Plus(r1.Scaled(b.DotWith(v))).Plus(r2.Scaled(b.DotWith(w))) == b
  {
    var det := Determinant(u, v, w);
    var inv := 1.0 / det;
    assert inv * det == 1.0;
    var du, dv, dw := b.DotWith(u), b.DotWith(v), b.DotWith(w);
    InverseRecoversScaled(u, v, w, b, inv);
    var (r0, r1, r2) := InverseRows(u, v, w);
    Components(r0, r1, r2, du, dv, dw, b);
  }

  lemma Components(r0: Point, r1: Point, r2: Point, du: real, dv: real, dw: real, b: Point)
    requires r0.x * du + r1.x * dv + r2.x * dw == b.x
    requires r0.y * du + r1.y * dv + r2.y * dw == b.y
    requires r0.z * du + r1.z * dv + r2.z * dw == b.z
    ensures r0.Scaled(du).Plus(r1.Scaled(dv)).Plus(r2.Scaled(dw)) == b
  {
  }

  /** The four gradients sum to zero. */
  ghost predicate Balanced(g: Gradients) {
    g.g0 == ORIGIN.Minus(g.g1.Plus(g.g2).Plus(g.g3))
  }

  lemma ShapeGradientsBalanced(t: Corners)
    ensures Balanced(ShapeGradients(t))
  {
  }

  /** So only differences to the first corner's value matter. */
  lemma OnlyDifferences(g: Gradients, t0: real, t1: real, t2: real, t3: real)
    requires Balanced(g)
    ensures Interpolated(g, t0, t1, t2, t3) == g.g1.Scaled(t1 - t0).Plus(g.g2.Scaled(t2 - t0)).Plus(g.g3.Scaled(t3 - t0))
  {
    DifferenceTerm(g.g1.x, g.g2.x, g.g3.x, g.g0.x, t0, t1, t2, t3);
    DifferenceTerm(g.g1.y, g.g2.y, g.g3.y, g.g0.y, t0, t1, t2, t3);
    DifferenceTerm(g.g1.z, g.g2.z, g.g3.z, g.g0.z, t0, t1, t2, t3);
  }

  lemma DifferenceTerm(p: real, q: real, r: real, o: real, t0: real, t1: real, t2: real, t3: real)
    requires o == 0.0 - (p + q + r)
    ensures t0 * o + t1 * p + t2 * q + t3 * r == (t1 - t0) * p + (t2 - t0) * q + (t3 - t0) * r
  {
  }

  /** Every linear field is reproduced exactly, whatever the shape of the tetrahedron. */
  lemma LinearFieldReproduced(t: Corners, offset: real, slope: Point)
    requires Fat(t)
    ensures Interpolated(ShapeGradients(t), offset + slope.DotWith(t.a), offset + slope.DotWith(t.b),
                         offset + slope.DotWith(t.c), offset + slope.DotWith(t.d)) == slope
  {
    var u, v, w := t.b.Minus(t.a), t.c.Minus(t.a), t.d.Minus(t.a);
    var ta, tb, tc, td := slope.DotWith(t.a), slope.DotWith(t.b), slope.DotWith(t.c), slope.DotWith(t.d);
    ShapeGradientsBalanced(t);
    OnlyDifferences(ShapeGradients(t), offset + ta, offset + tb, offset + tc, offset + td);
    DotDifference(slope, t.b, t.a);
    DotDifference(slope, t.c, t.a);
    DotDifference(slope, t.d, t.a);
    InverseRecovers(u, v, w, slope);
  }

  lemma DotDifference(s: Point, p: Point, q: Point)
    ensures s.DotWith(p.Minus(q)) == s.DotWith(p) - s.DotWith(q)
  {
  }
}
