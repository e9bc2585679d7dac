/** The six-tetrahedron split of a lattice cell along its space diagonal
  (the local table of `tetrahedralize` in tpt-vertex-simulation/src/mesh.rs). */
module Kuhn {
  import opened Points
  import opened Elements

  /** A lattice point. */
  datatype Grid = Grid(x: int, y: int, z: int)

  function Coordinate(p: Grid, axis: nat): int
    requires axis < 3
  {
    if axis == 0 then p.x else if axis == 1 then p.y else p.z
  }

  /** One step along an axis. */
  function Along(p: Grid, axis: nat): Grid
    requires axis < 3
  {
    if axis == 0 then Grid(p.x + 1, p.y, p.z) else if axis == 1 then Grid(p.x, p.y + 1, p.z) else Grid(p.x, p.y, p.z + 1)
  }

  /** The corners of a cell and the six tetrahedra, as the program lists them. */
  const CORNERS: seq<Grid> := [Grid(0, 0, 0), Grid(1, 0, 0), Grid(1, 1, 0), Grid(0, 1, 0),
                               Grid(0, 0, 1), Grid(1, 0, 1), Grid(1, 1, 1), Grid(0, 1, 1)]
  const TETS: seq<seq<nat>> := [[0, 1, 2, 6], [0, 2, 3, 6], [0, 3, 7, 6], [0, 7, 4, 6], [0, 4, 5, 6], [0, 5, 1, 6]]

  function Corner(cell: Grid, c: nat): Grid
    requires c < 8
  {
    Grid(cell.x + CORNERS[c].x, cell.y + CORNERS[c].y, cell.z + CORNERS[c].z)
  }

  /** The `n`-th vertex of the `m`-th tetrahedron of a cell. */
  function Vertex(cell: Grid, m: nat, n: nat): Grid
    requires m < 6 && n < 4
  {
    Corner(cell, TETS[m][n])
  }

  /** A tetrahedron as a walk along the three axes: from the base along `first`, then `second`, then the third one. */
  datatype Walk = Walk(base: Grid, first: nat, second: nat)
  {
    predicate Valid() {
      first < 3 && second < 3 && first != second
    }

    function Third(): (axis: nat)
      requires Valid()
      ensures axis < 3 && axis != first && axis != second
    {
      3 - first - second
    }

    function At(n: nat): Grid
      requires Valid() && n < 4
    {
      if n == 0 then base
      else if n == 1 then Along(base, first)
      else if n == 2 then Along(Along(base, first), second)
      else Along(Along(Along(base, first), second), Third())
    }

    /** The vertices are met in this order. */
    predicate Meets(u: Grid, v: Grid, w: Grid)
      requires Valid()
    {
      || (u == At(0) && v == At(1) && w == At(2))
      || (u == At(0) && v == At(1) && w == At(3))
      || (u == At(0) && v == At(2) && w == At(3))
      || (u == At(1) && v == At(2) && w == At(3))
    }
  }

  /** The walk of the `m`-th tetrahedron. */
  function WalkOf(cell: Grid, m: nat): (t: Walk)
    requires m < 6
    ensures t.Valid() && t.base == cell
  {
    if m == 0 then Walk(cell, 0, 1)
    else if m == 1 then Walk(cell, 1, 0)
    else if m == 2 then Walk(cell, 1, 2)
    else if m == 3 then Walk(cell, 2, 1)
    else if m == 4 then Walk(cell, 2, 0)
    else Walk(cell, 0, 2)
  }

  /** The table lists each walk's vertices; every other one with the middle two exchanged, which keeps the volume positive. */
  lemma TableIsWalks(cell: Grid, m: nat)
    requires m < 6
    ensures var t := WalkOf(cell, m);
            && Vertex(cell, m, 0) == t.At(0) && Vertex(cell, m, 3) == t.At(3)
            && Vertex(cell, m, 1) == t.At(if m % 2 == 0 then 1 else 2)
            && Vertex(cell, m, 2) == t.At(if m % 2 == 0 then 2 else 1)
  {
  }

  /** Every walk is in the table exactly once. */
  lemma TableHasAllWalks(t: Walk)
    requires t.Valid()
    ensures exists m: nat :: m < 6 && WalkOf(t.base, m) == t
  {
    var m := if t.first == 0 then (if t.second == 1 then 0 else 5) else if t.first == 1 then (if t.second == 0 then 1 else 2)
      else (if t.second == 1 then 3 else 4);
    assert WalkOf(t.base, m) == t;
  }

  lemma TableHasNoRepeats(cell: Grid, m: nat, m': nat)
    requires m < 6 && m' < 6 && WalkOf(cell, m) == WalkOf(cell, m')
    ensures m == m'
  {
  }

  // ----- Conformity

  function Size(p: Grid): int {
    p.x + p.y + p.z
  }

  /** The axis of a unit step, and of the step missing from two. */
  function AxisOf(p: Grid, q: Grid): nat {
    if q.x == p.x + 1 then 0 else if q.y == p.y + 1 then 1 else 2
  }

  function MissingAxis(p: Grid, q: Grid): nat {
    if q.x == p.x then 0 else if q.y == p.y then 1 else 2
  }

  function Back(p: Grid, axis: nat): Grid
    requires axis < 3
  {
    if axis == 0 then Grid(p.x - 1, p.y, p.z) else if axis == 1 then Grid(p.x, p.y - 1, p.z) else Grid(p.x, p.y, p.z - 1)
  }

  /** The only two walks that can meet a triangle. */
  function OneSide(u: Grid, v: Grid, w: Grid): Walk {
    if Size(w) == Size(u) + 2 then Walk(u, AxisOf(u, v), AxisOf(v, w))
    else if Size(v) == Size(u) + 1 then Walk(u, AxisOf(u, v), Other(AxisOf(u, v)))
    else Walk(u, Other(MissingAxis(u, v)), 3 - MissingAxis(u, v) - Other(MissingAxis(u, v)))
  }

  function OtherSide(u: Grid, v: Grid, w: Grid): Walk {
    if Size(w) == Size(u) + 2 then Walk(Back(u, MissingAxis(u, w)), MissingAxis(u, w), AxisOf(u, v))
    else if Size(v) == Size(u) + 1 then Walk(u, AxisOf(u, v), 3 - AxisOf(u, v) - Other(AxisOf(u, v)))
    else Walk(u, 3 - MissingAxis(u, v) - Other(MissingAxis(u, v)), Other(MissingAxis(u, v)))
  }

  /** The smallest other axis. */
  function Other(axis: nat): (o: nat)
    requires axis < 3
    ensures o < 3 && o != axis
  {
    if axis == 0 then 1 else 0
  }

  /** A triangle lies on at most two tetrahedra of the whole lattice, and these are known. */
  lemma OnlyTwoSides(t: Walk, u: Grid, v: Grid, w: Grid)
    requires t.Valid() && t.Meets(u, v, w)
    ensures t == OneSide(u, v, w) || t == OtherSide(u, v, w)
  {
  }

  /** Every face in at most two tetrahedra: of three tetrahedra on a triangle, two are the same. */
  lemma Conforming(t1: Walk, t2: Walk, t3: Walk, u: Grid, v: Grid, w: Grid)
    requires t1.Valid() && t2.Valid() && t3.Valid()
    requires t1.Meets(u, v, w) && t2.Meets(u, v, w) && t3.Meets(u, v, w)
    ensures t1 == t2 || t2 == t3 || t1 == t3
  {
    OnlyTwoSides(t1, u, v, w);
    OnlyTwoSides(t2, u, v, w);
    OnlyTwoSides(t3, u, v, w);
  }

  /** A triangle in the quad between a cell and its neighbour along `axis`. */
  ghost predicate InQuad(cell: Grid, axis: nat, u: Grid, v: Grid, w: Grid)
    requires axis < 3
  {
    var level := Coordinate(cell, axis) + 1;
    Coordinate(u, axis) == level && Coordinate(v, axis) == level && Coordinate(w, axis) == level
  }

  /** The quad between two cells is split the same way from both sides. */
  lemma QuadSplitAlike(cell: Grid, axis: nat, u: Grid, v: Grid, w: Grid)
    requires axis < 3 && InQuad(cell, axis, u, v, w)
    ensures (exists t: Walk :: t.Valid() && t.base == cell && t.Meets(u, v, w))
            <==> exists t: Walk :: t.Valid() && t.base == Along(cell, axis) && t.Meets(u, v, w)
  {
    if t: Walk :| t.Valid() && t.base == cell && t.Meets(u, v, w) {
      var s := Walk(Along(cell, axis), t.second, t.Third());
      assert s.Valid() && s.Meets(u, v, w);
    }
    if t: Walk :| t.Valid() && t.base == Along(cell, axis) && t.Meets(u, v, w) {
      var s := Walk(cell, axis, t.first);
      assert s.Valid() && s.Meets(u, v, w);
    }
  }

  // ----- Filling the cell

  function Component(q: Point, axis: nat): real
    requires axis < 3
  {
    if axis == 0 then q.x else if axis == 1 then q.y else q.z
  }

  /** The position of `q`, in lattice units, relative to the base of the walk. */
  function Relative(t: Walk, q: Point, axis: nat): real
    requires axis < 3
  {
    Component(q, axis) - Coordinate(t.base, axis) as real
  }

  /** The barycentric coordinates of a point. */
  function Weight(t: Walk, q: Point, n: nat): real
    requires t.Valid() && n < 4
  {
    var a, b, c := Relative(t, q, t.first), Relative(t, q, t.second), Relative(t, q, t.Third());
    if n == 0 then 1.0 - a else if n == 1 then a - b else if n == 2 then b - c else c
  }

  function Weighted(t: Walk, q: Point, axis: nat): real
    requires t.Valid() && axis < 3
  {
    Share(t, q, 0, axis) + Share(t, q, 1, axis) + Share(t, q, 2, axis) + Share(t, q, 3, axis)
  }

  function Share(t: Walk, q: Point, n: nat, axis: nat): real
    requires t.Valid() && n < 4 && axis < 3
  {
    Times(Weight(t, q, n), Coordinate(t.At(n), axis) as real)
  }

  function Times(x: real, y: real): real {
    x * y
  }

  /** They are: the weights sum to one and the weighted vertices give the point. */
  lemma WeightsRecover(t: Walk, q: Point, axis: nat)
    requires t.Valid() && axis < 3
    ensures Weight(t, q, 0) + Weight(t, q, 1) + Weight(t, q, 2) + Weight(t, q, 3) == 1.0
    ensures Weighted(t, q, axis) == Component(q, axis)
  {
    AlongAxis(t, axis);
    WeightSums(t, q);
    hide Along, Coordinate, Weight, Times;
    var w0, w1, w2, w3 := Weight(t, q, 0), Weight(t, q, 1), Weight(t, q, 2), Weight(t, q, 3);
    LinearRecover(w0, w1, w2, w3, Coordinate(t.base, axis) as real, axis == t.first, axis != t.Third());
  }

  lemma WeightSums(t: Walk, q: Point)
    requires t.Valid()
    ensures Weight(t, q, 0) + Weight(t, q, 1) + Weight(t, q, 2) + Weight(t, q, 3) == 1.0
    ensures Weight(t, q, 1) + Weight(t, q, 2) + Weight(t, q, 3) == Relative(t, q, t.first)
    ensures Weight(t, q, 2) + Weight(t, q, 3) == Relative(t, q, t.second) && Weight(t, q, 3) == Relative(t, q, t.Third())
  {
  }

  /** A walk takes its one step along an axis first, second or last. */
  lemma AlongAxis(t: Walk, axis: nat)
    requires t.Valid() && axis < 3
    ensures var p := Coordinate(t.base, axis);
            && Coordinate(t.At(0), axis) == p && Coordinate(t.At(1), axis) == (if axis == t.first then p + 1 else p)
            && Coordinate(t.At(2), axis) == (if axis == t.Third() then p else p + 1) && Coordinate(t.At(3), axis) == p + 1
  {
  }

  lemma LinearRecover(w0: real, w1: real, w2: real, w3: real, p: real, first: bool, second: bool)
    requires w0 + w1 + w2 + w3 == 1.0
    ensures Times(w0, p) + Times(w1, if first then p + 1.0 else p) + Times(w2, if second then p + 1.0 else p) + Times(w3, p + 1.0)
            == p + (if first then w1 else 0.0) + (if second then w2 else 0.0) + w3
  {
    OneMore(w1, p);
    OneMore(w2, p);
    OneMore(w3, p);
    assert w0 * p + w1 * p + w2 * p + w3 * p == (w0 + w1 + w2 + w3) * p;
  }

  lemma OneMore(w: real, p: real)
    ensures Times(w, p + 1.0) == Times(w, p) + w
  {
  }

  predicate Inside(t: Walk, q: Point)
    requires t.Valid()
  {
    Weight(t, q, 0) >= 0.0 && Weight(t, q, 1) >= 0.0 && Weight(t, q, 2) >= 0.0 && Weight(t, q, 3) >= 0.0
  }

  predicate StrictlyInside(t: Walk, q: Point)
    requires t.Valid()
  {
    Weight(t, q, 0) > 0.0 && Weight(t, q, 1) > 0.0 && Weight(t, q, 2) > 0.0 && Weight(t, q, 3) > 0.0
  }

  predicate InCell(cell: Grid, q: Point) {
    && 0.0 <= q.x - cell.x as real <= 1.0 && 0.0 <= q.y - cell.y as real <= 1.0 && 0.0 <= q.z - cell.z as real <= 1.0
  }

  /** No gap: every point of a cell is in one of its six tetrahedra. */
  lemma CellCovered(cell: Grid, q: Point) returns (m: nat)
    requires InCell(cell, q)
    ensures m < 6 && Inside(WalkOf(cell, m), q)
  {
    var x, y, z := q.x - cell.x as real, q.y - cell.y as real, q.z - cell.z as real;
    m := if x >= y >= z then 0 else if y >= x >= z then 1 else if y >= z >= x then 2 else if z >= y >= x then 3
      else if z >= x >= y then 4 else 5;
  }

  /** Nothing outside: a tetrahedron stays in its cell. */
  lemma StaysInCell(t: Walk, q: Point)
    requires t.Valid() && Inside(t, q)
    ensures InCell(t.base, q)
  {
  }

  /** No overlap: an inner point of a tetrahedron is in no other one of the whole lattice. */
  lemma NoOverlap(t: Walk, s: Walk, q: Point)
    requires t.Valid() && s.Valid() && StrictlyInside(t, q) && Inside(s, q)
    ensures t == s
  {
    StaysInCell(s, q);
    SameUnit(q.x, t.base.x, s.base.x);
    SameUnit(q.y, t.base.y, s.base.y);
    SameUnit(q.z, t.base.z, s.base.z);
  }

  lemma SameUnit(x: real, i: int, j: int)
    requires 0.0 < x - i as real < 1.0 && 0.0 <= x - j as real <= 1.0
    ensures i == j
  {
  }

  // ----- Volume

  /** The position of a lattice point. */
  function Place(origin: Point, h: real, g: Grid): Point {
    Point(origin.x + g.x as real * h, origin.y + g.y as real * h, origin.z + g.z as real * h)
  }

  function Positioned(origin: Point, h: real, cell: Grid, m: nat): Corners
    requires m < 6
  {
    Corners(Place(origin, h, Vertex(cell, m, 0)), Place(origin, h, Vertex(cell, m, 1)),
            Place(origin, h, Vertex(cell, m, 2)), Place(origin, h, Vertex(cell, m, 3)))
  }

  function Cube(h: real): real {
    h * h * h
  }

  /** Each of the six has signed volume a sixth of the cell's. */
  lemma SixthOfCell(origin: Point, h: real, cell: Grid, m: nat)
    requires m < 6
    ensures TetVolume(Positioned(origin, h, cell, m)) == Cube(h) / 6.0
  {
    var t := Positioned(origin, h, cell, m);
    var o, p, q := CORNERS[TETS[m][1]], CORNERS[TETS[m][2]], CORNERS[TETS[m][3]];
    EdgeFromBase(origin, h, cell, o);
    EdgeFromBase(origin, h, cell, p);
    EdgeFromBase(origin, h, cell, q);
    hide Place;
    assert t.b.Minus(t.a) == Point(o.x as real * h, o.y as real * h, o.z as real * h);
    assert t.c.Minus(t.a) == Point(p.x as real * h, p.y as real * h, p.z as real * h);
    assert t.d.Minus(t.a) == Point(q.x as real * h, q.y as real * h, q.z as real * h);
  }

  lemma EdgeFromBase(origin: Point, h: real, cell: Grid, d: Grid)
    ensures Place(origin, h, Grid(cell.x + d.x, cell.y + d.y, cell.z + d.z)).Minus(Place(origin, h, cell))
            == Point(d.x as real * h, d.y as real * h, d.z as real * h)
  {
    DistributeSum(cell.x as real, d.x as real, h);
    DistributeSum(cell.y as real, d.y as real, h);
    DistributeSum(cell.z as real, d.z as real, h);
  }

  lemma DistributeSum(x: real, y: real, h: real)
    ensures (x + y) * h == x * h + y * h
  {
  }
}
