/** The energy of linear temperature fields: conductivity times volume times slope by slope, for one tetrahedron and for a
  whole mesh (tpt-vertex-simulation/src/thermal.rs:57-95). */
module Energy {
  import opened LinearSystems
  import opened Rotations
  import opened Points
  import opened Elements
  import opened Conduction

  /** The values of the linear field with this slope at four corners. */
  function FieldAt(t: Corners, slope: Point): (u: Vec)
    ensures |u| == 4
  {
    [slope.DotWith(t.a), slope.DotWith(t.b), slope.DotWith(t.c), slope.DotWith(t.d)]
  }

  /** Conductivity times volume times the product of two slopes. */
  function Exchanged(conductivity: real, volume: real, b: Point, c: Point): real {
    conductivity * volume * (b.x * c.x + b.y * c.y + b.z * c.z)
  }

  lemma Projections(t: Corners, slope: Point)
    requires Fat(t)
    ensures var g, u := ShapeGradients(t), FieldAt(t, slope);
            Dot(u, AlongX(g), 0) == slope.x && Dot(u, AlongY(g), 0) == slope.y && Dot(u, AlongZ(g), 0) == slope.z
  {
    var g, u := ShapeGradients(t), FieldAt(t, slope);
    LinearFieldReproduced(t, 0.0, slope);
    DotOfFour(u, AlongX(g));
    DotOfFour(u, AlongY(g));
    DotOfFour(u, AlongZ(g));
    hide ShapeGradients, Dot, Point.DotWith;
    InterpolatedBy(g, u[0], u[1], u[2], u[3]);
  }

  lemma InterpolatedBy(g: Gradients, t0: real, t1: real, t2: real, t3: real)
    ensures Interpolated(g, t0, t1, t2, t3).x == t0 * g.g0.x + t1 * g.g1.x + t2 * g.g2.x + t3 * g.g3.x
    ensures Interpolated(g, t0, t1, t2, t3).y == t0 * g.g0.y + t1 * g.g1.y + t2 * g.g2.y + t3 * g.g3.y
    ensures Interpolated(g, t0, t1, t2, t3).z == t0 * g.g0.z + t1 * g.g1.z + t2 * g.g2.z + t3 * g.g3.z
  {
  }

  /** For one tetrahedron: conductivity times volume times the product of the slopes. */
  lemma ElementEnergy(t: Corners, conductivity: real, b: Point, c: Point)
    requires Fat(t)
    ensures Form(ElementConductivity(t, conductivity), 4, FieldAt(t, b), FieldAt(t, c))
            == Exchanged(conductivity, Abs(TetVolume(t)), b, c)
  {
    var g, w := ShapeGradients(t), Mul(conductivity, Abs(TetVolume(t)));
    Projections(t, b);
    Projections(t, c);
    GramForm(AlongX(g), AlongY(g), AlongZ(g), w, FieldAt(t, b), FieldAt(t, c));
    hide ShapeGradients, FieldAt, Dot, Form, TetVolume, WeightedGram;
    Distributed(w, b, c);
  }

  lemma Distributed(w: real, b: Point, c: Point)
    ensures Mul(Mul(w, c.x), b.x) + Mul(Mul(w, c.y), b.y) + Mul(Mul(w, c.z), b.z) == w * (b.x * c.x + b.y * c.y + b.z * c.z)
  {
    assert w * c.x * b.x == w * (b.x * c.x);
    assert w * c.y * b.y == w * (b.y * c.y);
    assert w * c.z * b.z == w * (b.z * c.z);
  }

  /** The nodal values of the linear field with this slope. */
  function Field(mesh: VolMesh, slope: Point): (u: Vec)
    ensures |u| == |mesh.nodes|
  {
    seq(|mesh.nodes|, i requires 0 <= i < |mesh.nodes| => slope.DotWith(mesh.nodes[i]))
  }

  /** The volume of the first `n` tetrahedra. */
  function Volume(mesh: VolMesh, n: nat): real
    requires mesh.Valid() && n <= |mesh.tets|
  {
    if n == 0 then 0.0 else Volume(mesh, n - 1) + Abs(TetVolume(mesh.CornersOf(n - 1)))
  }

  /** The first `n` elements together. */
  ghost predicate EnergyUpTo(mesh: VolMesh, conductivity: real, b: Point, c: Point, n: nat)
    requires mesh.Valid() && n <= |mesh.tets|
  {
    && AllFit(ElementsOf(mesh, conductivity)[..n], |mesh.nodes|)
    && TotalForm(ElementsOf(mesh, conductivity)[..n], Field(mesh, b), Field(mesh, c))
       == Exchanged(conductivity, Volume(mesh, n), b, c)
  }

  lemma {:induction false} EnergyOfSome(mesh: VolMesh, conductivity: real, b: Point, c: Point, n: nat)
    requires mesh.Valid() && n <= |mesh.tets| && forall e | 0 <= e < |mesh.tets| :: Fat(mesh.CornersOf(e))
    ensures EnergyUpTo(mesh, conductivity, b, c, n)
  {
    hide Form, FieldAt, TetVolume, ElementConductivity, ElementsOf, Abs, Field, Exchanged, Fat, TotalForm, Volume;
    if n == 0 {
      NoEnergy(mesh, conductivity, b, c);
    } else {
      EnergyOfSome(mesh, conductivity, b, c, n - 1);
      EnergyOfOne(mesh, conductivity, b, c, n - 1);
      OneMoreElement(mesh, conductivity, b, c, n - 1);
    }
  }

  lemma EnergyOfOne(mesh: VolMesh, conductivity: real, b: Point, c: Point, e: nat)
    requires mesh.Valid() && e < |mesh.tets| && Fat(mesh.CornersOf(e))
    ensures var element := ElementsOf(mesh, conductivity)[e];
            Form(element.ke, 4, element.Local(Field(mesh, b)), element.Local(Field(mesh, c)))
            == Exchanged(conductivity, Abs(TetVolume(mesh.CornersOf(e))), b, c)
  {
    hide Form, FieldAt, TetVolume, ElementConductivity, ElementsOf, Abs, Field, Exchanged, Fat;
    LocalField(mesh, conductivity, b, e);
    LocalField(mesh, conductivity, c, e);
    ElementEnergy(mesh.CornersOf(e), conductivity, b, c);
  }

  lemma NoEnergy(mesh: VolMesh, conductivity: real, b: Point, c: Point)
    requires mesh.Valid()
    ensures TotalForm(ElementsOf(mesh, conductivity)[..0], Field(mesh, b), Field(mesh, c))
            == 0.0 == Exchanged(conductivity, Volume(mesh, 0), b, c)
  {
  }

  lemma OneMoreElement(mesh: VolMesh, conductivity: real, b: Point, c: Point, n: nat)
    requires mesh.Valid() && n < |mesh.tets|
    ensures var es, x, y, t := ElementsOf(mesh, conductivity), Field(mesh, b), Field(mesh, c), mesh.CornersOf(n);
            && TotalForm(es[..n + 1], x, y) == TotalForm(es[..n], x, y) + Form(es[n].ke, 4, es[n].Local(x), es[n].Local(y))
            && Exchanged(conductivity, Volume(mesh, n + 1), b, c)
               == Exchanged(conductivity, Volume(mesh, n), b, c) + Exchanged(conductivity, Abs(TetVolume(t)), b, c)
  {
    hide Form, TetVolume, ElementConductivity, Abs, Field, ElementsOf;
    var es := ElementsOf(mesh, conductivity);
    assert es[..n + 1][..n] == es[..n];
    SumOfShares(conductivity, Volume(mesh, n), Abs(TetVolume(mesh.CornersOf(n))), b.x * c.x + b.y * c.y + b.z * c.z);
  }

  lemma SumOfShares(k: real, v: real, w: real, s: real)
    ensures k * (v + w) * s == k * v * s + k * w * s
  {
  }

  lemma LocalField(mesh: VolMesh, conductivity: real, slope: Point, e: nat)
    requires mesh.Valid() && e < |mesh.tets|
    ensures ElementsOf(mesh, conductivity)[e].Local(Field(mesh, slope)) == FieldAt(mesh.CornersOf(e), slope)
    ensures ElementsOf(mesh, conductivity)[e].ke == ElementConductivity(mesh.CornersOf(e), conductivity)
  {
    hide ElementConductivity, Point.DotWith;
  }

  /** For every mesh of non-degenerate tetrahedra: two linear fields exchange conductivity times the mesh's volume times the
    product of their slopes, so the energy of one is conductivity times volume times the square of its slope. */
  lemma MeshEnergy(mesh: VolMesh, conductivity: real, b: Point, c: Point)
    requires mesh.Valid() && forall e | 0 <= e < |mesh.tets| :: Fat(mesh.CornersOf(e))
    ensures Form(Assembled(ElementsOf(mesh, conductivity), |mesh.nodes|), |mesh.nodes|, Field(mesh, b), Field(mesh, c))
            == Exchanged(conductivity, Volume(mesh, |mesh.tets|), b, c)
  {
    var es := ElementsOf(mesh, conductivity);
    AssembledIsTotal(es, |mesh.nodes|, Field(mesh, b), Field(mesh, c));
    EnergyOfSome(mesh, conductivity, b, c, |mesh.tets|);
    assert es[..|es|] == es;
    hide Form, Exchanged, Assembled, TotalForm, Volume, Field, ElementsOf;
  }
}
