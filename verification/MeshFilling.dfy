/** What the tetrahedra of a finished mesh fill in space: the interior cells, without gaps and without overlap
  (`tetrahedralize` in tpt-vertex-simulation/src/mesh.rs). */
module MeshFilling {
  import opened Points
  import opened Elements
  import opened Conduction
  import opened Kuhn
  import opened TetMesher

  // ----- Points of a tetrahedron

  /** Barycentric weights. */
  datatype Weights = Weights(w0: real, w1: real, w2: real, w3: real)
  {
    predicate Nonnegative() {
      w0 >= 0.0 && w1 >= 0.0 && w2 >= 0.0 && w3 >= 0.0
    }

    predicate Positive() {
      w0 > 0.0 && w1 > 0.0 && w2 > 0.0 && w3 > 0.0
    }

    predicate SumToOne() {
      w0 + w1 + w2 + w3 == 1.0
    }

    function Mix(x0: real, x1: real, x2: real, x3: real): real {
      Kuhn.Times(w0, x0) + Kuhn.Times(w1, x1) + Kuhn.Times(w2, x2) + Kuhn.Times(w3, x3)
    }

    function Blend(t: Corners): Point {
      Point(Mix(t.a.x, t.b.x, t.c.x, t.d.x), Mix(t.a.y, t.b.y, t.c.y, t.d.y), Mix(t.a.z, t.b.z, t.c.z, t.d.z))
    }
  }

  ghost predicate HasWeights(t: Corners, w: Weights, p: Point) {
    w.SumToOne() && w.Blend(t) == p
  }

  /** The point is a convex combination of the corners. */
  ghost predicate InTet(t: Corners, p: Point) {
    exists w: Weights :: HasWeights(t, w, p) && w.Nonnegative()
  }

  /** With all weights positive: an inner point. */
  ghost predicate InsideTet(t: Corners, p: Point) {
    exists w: Weights :: HasWeights(t, w, p) && w.Positive()
  }

  // ----- From lattice units to space

  /** The lattice coordinates of a point. */
  function Lattice(origin: Point, h: real, p: Point): Point
    requires h != 0.0
  {
    Point(InUnits(origin.x, h, p.x), InUnits(origin.y, h, p.y), InUnits(origin.z, h, p.z))
  }

  function InUnits(o: real, h: real, p: real): real
    requires h != 0.0
  {
    (p - o) / h
  }

  function Moved(o: real, h: real, x: real): real {
    o + x * h
  }

  lemma PlaceIsMoved(origin: Point, h: real, g: Grid)
    ensures Place(origin, h, g)
            == Point(Moved(origin.x, h, g.x as real), Moved(origin.y, h, g.y as real), Moved(origin.z, h, g.z as real))
  {
  }

  /** The corners of a walk, in its order. */
  function WalkCorners(origin: Point, h: real, t: Walk): Corners
    requires t.Valid()
  {
    Corners(Place(origin, h, t.At(0)), Place(origin, h, t.At(1)), Place(origin, h, t.At(2)), Place(origin, h, t.At(3)))
  }

  function MixAlong(t: Walk, w: Weights, axis: nat): real
    requires t.Valid() && axis < 3
  {
    w.Mix(Coordinate(t.At(0), axis) as real, Coordinate(t.At(1), axis) as real,
          Coordinate(t.At(2), axis) as real, Coordinate(t.At(3), axis) as real)
  }

  /** Scaling and moving commute with mixing. */
  lemma MixMoved(w: Weights, o: real, h: real, x0: real, x1: real, x2: real, x3: real)
    requires w.SumToOne()
    ensures w.Mix(Moved(o, h, x0), Moved(o, h, x1), Moved(o, h, x2), Moved(o, h, x3)) == Moved(o, h, w.Mix(x0, x1, x2, x3))
  {
    TermMoved(w.w0, o, h, x0);
    TermMoved(w.w1, o, h, x1);
    TermMoved(w.w2, o, h, x2);
    TermMoved(w.w3, o, h, x3);
    SharesOfOne(w, o);
    SumScaled(Kuhn.Times(w.w0, x0), Kuhn.Times(w.w1, x1), Kuhn.Times(w.w2, x2), Kuhn.Times(w.w3, x3), h);
    assert Moved(o, h, w.Mix(x0, x1, x2, x3)) == o + Kuhn.Times(w.Mix(x0, x1, x2, x3), h);
    hide Kuhn.Times, Moved;
  }

  lemma TermMoved(w: real, o: real, h: real, x: real)
    ensures Kuhn.Times(w, Moved(o, h, x)) == Kuhn.Times(w, o) + Kuhn.Times(Kuhn.Times(w, x), h)
  {
    assert w * (o + x * h) == w * o + w * (x * h);
    assert w * (x * h) == w * x * h;
  }

  lemma SharesOfOne(w: Weights, o: real)
    requires w.SumToOne()
    ensures Kuhn.Times(w.w0, o) + Kuhn.Times(w.w1, o) + Kuhn.Times(w.w2, o) + Kuhn.Times(w.w3, o) == o
  {
    assert w.w0 * o + w.w1 * o + w.w2 * o + w.w3 * o == (w.w0 + w.w1 + w.w2 + w.w3) * o;
  }

  lemma SumScaled(a: real, b: real, c: real, d: real, h: real)
    ensures Kuhn.Times(a + b + c + d, h) == Kuhn.Times(a, h) + Kuhn.Times(b, h) + Kuhn.Times(c, h) + Kuhn.Times(d, h)
  {
  }

  lemma Unscaled(x: real, o: real, p: real, h: real)
    requires h != 0.0
    ensures Moved(o, h, x) == p <==> x == InUnits(o, h, p)
  {
    var y := (p - o) / h;
    assert y * h == p - o;
    if o + x * h == p {
      assert (x - y) * h == 0.0;
    }
  }

  lemma AxisOnLattice(w: Weights, o: real, h: real, x0: real, x1: real, x2: real, x3: real, p: real)
    requires h != 0.0 && w.SumToOne()
    ensures w.Mix(Moved(o, h, x0), Moved(o, h, x1), Moved(o, h, x2), Moved(o, h, x3)) == p
            <==> w.Mix(x0, x1, x2, x3) == InUnits(o, h, p)
  {
    hide Weights.Mix, Moved, InUnits;
    MixMoved(w, o, h, x0, x1, x2, x3);
    Unscaled(w.Mix(x0, x1, x2, x3), o, p, h);
  }

  /** Weights blend the corners into a point iff they blend the lattice points into its lattice coordinates. */
  lemma BlendOnLattice(origin: Point, h: real, t: Walk, w: Weights, p: Point)
    requires h != 0.0 && t.Valid() && w.SumToOne()
    ensures w.Blend(WalkCorners(origin, h, t)) == p
            <==> forall axis: nat | axis < 3 :: MixAlong(t, w, axis) == Component(Lattice(origin, h, p), axis)
  {
    hide Weights.Mix, Walk.At, Place, Moved, InUnits;
    forall n: nat | n < 4
      ensures Place(origin, h, t.At(n)) == Point(Moved(origin.x, h, t.At(n).x as real),
                Moved(origin.y, h, t.At(n).y as real), Moved(origin.z, h, t.At(n).z as real))
    {
      PlaceIsMoved(origin, h, t.At(n));
    }
    var g0, g1, g2, g3 := t.At(0), t.At(1), t.At(2), t.At(3);
    AxisOnLattice(w, origin.x, h, g0.x as real, g1.x as real, g2.x as real, g3.x as real, p.x);
    AxisOnLattice(w, origin.y, h, g0.y as real, g1.y as real, g2.y as real, g3.y as real, p.y);
    AxisOnLattice(w, origin.z, h, g0.z as real, g1.z as real, g2.z as real, g3.z as real, p.z);
    ThreeAxes(t, w, Lattice(origin, h, p));
  }

  lemma ThreeAxes(t: Walk, w: Weights, q: Point)
    requires t.Valid()
    ensures (forall axis: nat | axis < 3 :: MixAlong(t, w, axis) == Component(q, axis))
            <==> MixAlong(t, w, 0) == q.x && MixAlong(t, w, 1) == q.y && MixAlong(t, w, 2) == q.z
  {
    hide MixAlong;
    assert Component(q, 0) == q.x && Component(q, 1) == q.y && Component(q, 2) == q.z;
  }

  // ----- Weights on a walk

  function WeightsOf(t: Walk, q: Point): Weights
    requires t.Valid()
  {
    Weights(Weight(t, q, 0), Weight(t, q, 1), Weight(t, q, 2), Weight(t, q, 3))
  }

  /** The weights of a lattice point with respect to a walk are the only ones that blend its vertices into it. */
  lemma OnlyWeights(t: Walk, q: Point, w: Weights)
    requires t.Valid() && w.SumToOne()
    ensures WeightsOf(t, q).SumToOne()
    ensures (forall axis: nat | axis < 3 :: MixAlong(t, w, axis) == Component(q, axis)) <==> w == WeightsOf(t, q)
  {
    WeightSums(t, q);
    if w == WeightsOf(t, q) {
      forall axis: nat | axis < 3
        ensures MixAlong(t, w, axis) == Component(q, axis)
      {
        WeightsRecover(t, q, axis);
        hide Weight, Kuhn.Times, Component, Coordinate;
      }
    }
    if forall axis: nat | axis < 3 :: MixAlong(t, w, axis) == Component(q, axis) {
      MixOnWalk(t, w, t.first);
      MixOnWalk(t, w, t.second);
      MixOnWalk(t, w, t.Third());
      hide MixAlong, Coordinate;
    }
  }

  lemma MixOnWalk(t: Walk, w: Weights, axis: nat)
    requires t.Valid() && w.SumToOne() && axis < 3
    ensures MixAlong(t, w, axis) == Coordinate(t.base, axis) as real
              + (if axis == t.first then w.w1 else 0.0) + (if axis != t.Third() then w.w2 else 0.0) + w.w3
  {
    AlongAxis(t, axis);
    hide Along, Coordinate, Kuhn.Times;
    LinearRecover(w.w0, w.w1, w.w2, w.w3, Coordinate(t.base, axis) as real, axis == t.first, axis != t.Third());
  }

  lemma WeightsInSpace(origin: Point, h: real, t: Walk, p: Point, w: Weights)
    requires h != 0.0 && t.Valid()
    ensures HasWeights(WalkCorners(origin, h, t), w, p) <==> w == WeightsOf(t, Lattice(origin, h, p))
  {
    hide Weights.Blend, WalkCorners, Lattice, Weight, MixAlong;
    OnlyWeights(t, Lattice(origin, h, p), Weights(1.0, 0.0, 0.0, 0.0));
    if w.SumToOne() {
      OnlyWeights(t, Lattice(origin, h, p), w);
      BlendOnLattice(origin, h, t, w, p);
    }
  }

  /** A point is in the tetrahedron of a walk iff its lattice coordinates satisfy the walk's inequalities. */
  lemma InWalkIff(origin: Point, h: real, t: Walk, p: Point)
    requires h != 0.0 && t.Valid()
    ensures InTet(WalkCorners(origin, h, t), p) <==> Inside(t, Lattice(origin, h, p))
    ensures InsideTet(WalkCorners(origin, h, t), p) <==> StrictlyInside(t, Lattice(origin, h, p))
  {
    hide HasWeights, WalkCorners, Lattice, Weight;
    forall w: Weights
      ensures HasWeights(WalkCorners(origin, h, t), w, p) <==> w == WeightsOf(t, Lattice(origin, h, p))
    {
      WeightsInSpace(origin, h, t, p, w);
    }
    assert HasWeights(WalkCorners(origin, h, t), WeightsOf(t, Lattice(origin, h, p)), p);
  }

  // ----- The tetrahedra of the mesh

  function Exchanged(t: Corners): Corners {
    Corners(t.a, t.c, t.b, t.d)
  }

  lemma WeightsExchanged(t: Corners, w: Weights, p: Point)
    ensures HasWeights(t, w, p) <==> HasWeights(Exchanged(t), Weights(w.w0, w.w2, w.w1, w.w3), p)
  {
  }

  lemma InExchanged(t: Corners, p: Point)
    ensures InTet(Exchanged(t), p) <==> InTet(t, p)
    ensures InsideTet(Exchanged(t), p) <==> InsideTet(t, p)
  {
    hide HasWeights;
    forall w: Weights
      ensures HasWeights(t, w, p) <==> HasWeights(Exchanged(t), Weights(w.w0, w.w2, w.w1, w.w3), p)
    {
      WeightsExchanged(t, w, p);
    }
    forall w: Weights
      ensures HasWeights(Exchanged(t), w, p) ==> HasWeights(t, Weights(w.w0, w.w2, w.w1, w.w3), p)
    {
      WeightsExchanged(t, Weights(w.w0, w.w2, w.w1, w.w3), p);
    }
  }

  lemma PositionedIsWalk(origin: Point, h: real, cell: Grid, m: nat)
    requires m < 6
    ensures var w := WalkCorners(origin, h, WalkOf(cell, m));
            Positioned(origin, h, cell, m) == if m % 2 == 0 then w else Exchanged(w)
  {
    hide Place;
    TableIsWalks(cell, m);
  }

  /** Whether a point is in a tetrahedron of the mesh, in lattice units. */
  lemma InMeshTetIff(mesh: VolMesh, cells: seq<Grid>, idx: Numbering, origin: Point, h: real, e: nat, p: Point)
    returns (c: nat, m: nat)
    requires Meshed(mesh, cells, idx, origin, h) && mesh.Valid() && h > 0.0 && e < |mesh.tets|
    ensures c < |cells| && m < 6 && e == 6 * c + m
    ensures InTet(NodesAt(mesh.nodes, mesh.tets[e]), p) <==> Inside(WalkOf(cells[c], m), Lattice(origin, h, p))
    ensures InsideTet(NodesAt(mesh.nodes, mesh.tets[e]), p) <==> StrictlyInside(WalkOf(cells[c], m), Lattice(origin, h, p))
  {
    hide TetsOf, Numbered, AllCovered, Place, InTet, InsideTet, Inside, StrictlyInside, Lattice, WalkOf, Tet;
    c, m := TetAt(cells, idx, e);
    CoveredAt(cells, idx, c);
    TetPlaced(cells[c], m, idx, mesh.nodes, origin, h);
    PositionedIsWalk(origin, h, cells[c], m);
    InWalkIff(origin, h, WalkOf(cells[c], m), p);
    InExchanged(WalkCorners(origin, h, WalkOf(cells[c], m)), p);
  }

  /** The cube of a cell in space. */
  predicate InCube(origin: Point, h: real, cell: Grid, p: Point) {
    && Moved(origin.x, h, cell.x as real) <= p.x <= Moved(origin.x, h, cell.x as real + 1.0)
    && Moved(origin.y, h, cell.y as real) <= p.y <= Moved(origin.y, h, cell.y as real + 1.0)
    && Moved(origin.z, h, cell.z as real) <= p.z <= Moved(origin.z, h, cell.z as real + 1.0)
  }

  lemma BetweenOnLattice(o: real, h: real, x: real, p: real)
    requires h > 0.0
    ensures Moved(o, h, x) <= p <= Moved(o, h, x + 1.0) <==> 0.0 <= InUnits(o, h, p) - x <= 1.0
  {
    var y := InUnits(o, h, p);
    Unscaled(y, o, p, h);
    OrderMoved(o, h, x, y);
    OrderMoved(o, h, y, x + 1.0);
    hide Moved, InUnits;
  }

  lemma OrderMoved(o: real, h: real, x: real, y: real)
    requires h > 0.0
    ensures Moved(o, h, x) <= Moved(o, h, y) <==> x <= y
  {
    if x <= y {
      assert (y - x) * h >= 0.0;
    } else {
      assert (x - y) * h > 0.0;
    }
  }

  lemma CubeOnLattice(origin: Point, h: real, cell: Grid, p: Point)
    requires h > 0.0
    ensures InCube(origin, h, cell, p) <==> InCell(cell, Lattice(origin, h, p))
  {
    BetweenOnLattice(origin.x, h, cell.x as real, p.x);
    BetweenOnLattice(origin.y, h, cell.y as real, p.y);
    BetweenOnLattice(origin.z, h, cell.z as real, p.z);
    hide InUnits, Moved;
  }

  /** No gap and nothing outside: a point is in some tetrahedron of the mesh iff it is in the cube of some interior cell. */
  lemma MeshFillsCells(mesh: VolMesh, cells: seq<Grid>, idx: Numbering, origin: Point, h: real, p: Point)
    requires Meshed(mesh, cells, idx, origin, h) && mesh.Valid() && h > 0.0
    ensures (exists e :: 0 <= e < |mesh.tets| && InTet(NodesAt(mesh.nodes, mesh.tets[e]), p))
            <==> exists c :: 0 <= c < |cells| && InCube(origin, h, cells[c], p)
  {
    hide InTet, InCube, InCell, Inside, StrictlyInside, Lattice, WalkOf;
    if e: nat :| e < |mesh.tets| && InTet(NodesAt(mesh.nodes, mesh.tets[e]), p) {
      var c, m := InMeshTetIff(mesh, cells, idx, origin, h, e, p);
      StaysInCell(WalkOf(cells[c], m), Lattice(origin, h, p));
      CubeOnLattice(origin, h, cells[c], p);
    }
    if c: nat :| c < |cells| && InCube(origin, h, cells[c], p) {
      CubeOnLattice(origin, h, cells[c], p);
      var m := CellCovered(cells[c], Lattice(origin, h, p));
      var c', m' := InMeshTetIff(mesh, cells, idx, origin, h, 6 * c + m, p);
    }
  }

  /** No overlap: an inner point of a tetrahedron of the mesh is in no other one. */
  lemma MeshDoesNotOverlap(mesh: VolMesh, cells: seq<Grid>, idx: Numbering, origin: Point, h: real, e: nat, f: nat, p: Point)
    requires Meshed(mesh, cells, idx, origin, h) && mesh.Valid() && h > 0.0 && e < |mesh.tets| && f < |mesh.tets|
    requires InsideTet(NodesAt(mesh.nodes, mesh.tets[e]), p) && InTet(NodesAt(mesh.nodes, mesh.tets[f]), p)
    ensures e == f
  {
    var c, m := InMeshTetIff(mesh, cells, idx, origin, h, e, p);
    var d, n := InMeshTetIff(mesh, cells, idx, origin, h, f, p);
    hide InTet, InsideTet, Inside, StrictlyInside, Lattice, WalkOf;
    NoOverlap(WalkOf(cells[c], m), WalkOf(cells[d], n), Lattice(origin, h, p));
    SameWalkSameTet(mesh, cells, idx, origin, h, c, m, d, n);
  }

  // ----- The quad between two cells

  /** The tetrahedra of a cell: some one of them has these three lattice points as nodes. */
  ghost predicate CellHasFace(cell: Grid, idx: Numbering, u: Grid, v: Grid, w: Grid)
    requires Covered(cell, idx) && u in idx && v in idx && w in idx
  {
    exists m :: 0 <= m < 6 && HasFace(Tet(cell, m, idx), idx[u], idx[v], idx[w])
  }

  lemma NodeIff(cell: Grid, m: nat, idx: Numbering, u: Grid)
    requires m < 6 && Covered(cell, idx) && u in idx && forall g, g' | g in idx && g' in idx && idx[g] == idx[g'] :: g == g'
    ensures idx[u] in Tet(cell, m, idx) <==> OnWalk(WalkOf(cell, m), u)
  {
    TableIsWalks(cell, m);
    hide WalkOf, Corner, CORNERS, TETS;
    if idx[u] in Tet(cell, m, idx) {
      var g := NodeOnWalk(cell, m, idx, idx[u]);
    }
  }

  ghost predicate WalkHas(t: Walk, u: Grid, v: Grid, w: Grid)
    requires t.Valid()
  {
    OnWalk(t, u) && OnWalk(t, v) && OnWalk(t, w)
  }

  lemma CellHasFaceIff(cell: Grid, idx: Numbering, u: Grid, v: Grid, w: Grid)
    requires Covered(cell, idx) && u in idx && v in idx && w in idx
    requires forall g, g' | g in idx && g' in idx && idx[g] == idx[g'] :: g == g'
    ensures CellHasFace(cell, idx, u, v, w) <==> exists t: Walk :: t.Valid() && t.base == cell && WalkHas(t, u, v, w)
  {
    hide Tet, WalkOf, OnWalk, Covered;
    if m: nat :| m < 6 && HasFace(Tet(cell, m, idx), idx[u], idx[v], idx[w]) {
      NodeIff(cell, m, idx, u);
      NodeIff(cell, m, idx, v);
      NodeIff(cell, m, idx, w);
      assert WalkHas(WalkOf(cell, m), u, v, w);
    }
    if t: Walk :| t.Valid() && t.base == cell && WalkHas(t, u, v, w) {
      TableHasAllWalks(t);
      var m: nat :| m < 6 && WalkOf(t.base, m) == t;
      NodeIff(cell, m, idx, u);
      NodeIff(cell, m, idx, v);
      NodeIff(cell, m, idx, w);
      assert HasFace(Tet(cell, m, idx), idx[u], idx[v], idx[w]);
    }
  }

  /** The walk of the next cell that goes on where `t` meets the quad, and the one of this cell that leads to `s`. */
  function Continued(t: Walk, axis: nat): (s: Walk)
    requires t.Valid() && axis < 3
    ensures s.Valid() && s.base == Along(t.base, axis)
  {
    Walk(Along(t.base, axis), if t.first == axis then t.second else t.first, if t.Third() == axis then t.second else t.Third())
  }

  function LeadingTo(cell: Grid, s: Walk, axis: nat): (t: Walk)
    requires s.Valid() && axis < 3
    ensures t.Valid() && t.base == cell
  {
    Walk(cell, axis, if s.first == axis then s.second else s.first)
  }

  lemma Continues(t: Walk, axis: nat, u: Grid)
    requires t.Valid() && axis < 3 && OnWalk(t, u) && Coordinate(u, axis) == Coordinate(t.base, axis) + 1
    ensures OnWalk(Continued(t, axis), u)
  {
  }

  lemma Leads(cell: Grid, s: Walk, axis: nat, u: Grid)
    requires s.Valid() && axis < 3 && s.base == Along(cell, axis) && OnWalk(s, u)
    requires Coordinate(u, axis) == Coordinate(cell, axis) + 1
    ensures OnWalk(LeadingTo(cell, s, axis), u)
  {
  }

  /** Two neighbouring cells of the mesh split the quad between them into the same triangles. */
  lemma MeshQuadSplitAlike(mesh: VolMesh, cells: seq<Grid>, idx: Numbering, origin: Point, h: real, c: nat, d: nat, axis: nat,
                           u: Grid, v: Grid, w: Grid)
    requires Meshed(mesh, cells, idx, origin, h) && c < |cells| && d < |cells| && axis < 3 && cells[d] == Along(cells[c], axis)
    requires u in idx && v in idx && w in idx && InQuad(cells[c], axis, u, v, w)
    ensures Covered(cells[c], idx) && Covered(cells[d], idx)
    ensures CellHasFace(cells[c], idx, u, v, w) <==> CellHasFace(cells[d], idx, u, v, w)
  {
    CoveredAt(cells, idx, c);
    CoveredAt(cells, idx, d);
    CellHasFaceIff(cells[c], idx, u, v, w);
    CellHasFaceIff(cells[d], idx, u, v, w);
    hide CellHasFace, Covered, OnWalk, Along, Coordinate;
    if t: Walk :| t.Valid() && t.base == cells[c] && WalkHas(t, u, v, w) {
      Continues(t, axis, u);
      Continues(t, axis, v);
      Continues(t, axis, w);
      assert WalkHas(Continued(t, axis), u, v, w);
    }
    if s: Walk :| s.Valid() && s.base == cells[d] && WalkHas(s, u, v, w) {
      Leads(cells[c], s, axis, u);
      Leads(cells[c], s, axis, v);
      Leads(cells[c], s, axis, w);
      assert WalkHas(LeadingTo(cells[c], s, axis), u, v, w);
    }
  }
}
