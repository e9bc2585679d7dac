/** Meshing the lattice cells inside a solid (`tetrahedralize` in
  tpt-vertex-simulation/src/mesh.rs). The point-in-solid test is an arbitrary
  function of the cell centre. */
module TetMesher {
  import opened Options
  import opened Points
  import opened LinearSystems
  import opened Elements
  import opened Conduction
  import opened Kuhn

  /** Tetrahedra of at most this volume are left out. */
  const SLIVER: real := 0.000000000001

  type Numbering = map<Grid, nat>

  predicate InBox(g: Grid, dims: Grid) {
    0 <= g.x < dims.x && 0 <= g.y < dims.y && 0 <= g.z < dims.z
  }

  /** Visited before `(i, j, k)` by the nested loops. */
  predicate Before(g: Grid, i: int, j: int, k: int) {
    g.x < i || (g.x == i && (g.y < j || (g.y == j && g.z < k)))
  }

  function Centre(origin: Point, h: real, g: Grid): Point {
    Point(origin.x + (g.x as real + 0.5) * h, origin.y + (g.y as real + 0.5) * h, origin.z + (g.z as real + 0.5) * h)
  }

  /** Every number is that of one lattice point, at its place. */
  ghost predicate Numbered(idx: Numbering, nodes: seq<Point>, origin: Point, h: real) {
    && (forall g | g in idx :: idx[g] < |nodes| && nodes[idx[g]] == Place(origin, h, g))
    && forall g, g' | g in idx && g' in idx && idx[g] == idx[g'] :: g == g'
  }

  ghost predicate NumbersUpTo(idx: Numbering, dims: Grid, i: int, j: int, k: int) {
    forall g :: g in idx <==> InBox(g, dims) && Before(g, i, j, k)
  }

  lemma NumberedMore(idx: Numbering, nodes: seq<Point>, origin: Point, h: real, g: Grid)
    requires Numbered(idx, nodes, origin, h) && g !in idx
    ensures Numbered(idx[g := |nodes|], nodes + [Place(origin, h, g)], origin, h)
  {
  }

  lemma NextNumber(idx: Numbering, dims: Grid, i: nat, j: nat, k: nat, n: nat)
    requires NumbersUpTo(idx, dims, i, j, k) && InBox(Grid(i, j, k), dims)
    ensures Grid(i, j, k) !in idx && NumbersUpTo(idx[Grid(i, j, k) := n], dims, i, j, k + 1)
  {
  }

  method BuildLattice(origin: Point, h: real, dims: Grid) returns (nodes: seq<Point>, idx: Numbering)
    requires dims.x >= 1 && dims.y >= 1 && dims.z >= 1
    ensures Numbered(idx, nodes, origin, h) && forall g :: g in idx <==> InBox(g, dims)
  {
    hide Numbered, NumbersUpTo, Place;
    nodes, idx := [], map[];
    LatticeBegins(dims, origin, h);
    var i := 0;
    while i < dims.x
      invariant 0 <= i <= dims.x && Numbered(idx, nodes, origin, h) && NumbersUpTo(idx, dims, i, 0, 0)
    {
      var j := 0;
      while j < dims.y
        invariant 0 <= j <= dims.y && Numbered(idx, nodes, origin, h) && NumbersUpTo(idx, dims, i, j, 0)
      {
        var k := 0;
        while k < dims.z
          invariant 0 <= k <= dims.z && Numbered(idx, nodes, origin, h) && NumbersUpTo(idx, dims, i, j, k)
        {
          NextNumber(idx, dims, i, j, k, |nodes|);
          NumberedMore(idx, nodes, origin, h, Grid(i, j, k));
          idx := idx[Grid(i, j, k) := |nodes|];
          nodes := nodes + [Place(origin, h, Grid(i, j, k))];
          k := k + 1;
        }
        RowEnds(idx, dims, i, j);
        j := j + 1;
      }
      PlaneEnds(idx, dims, i);
      i := i + 1;
    }
    LatticeEnds(idx, dims);
  }

  lemma LatticeBegins(dims: Grid, origin: Point, h: real)
    ensures Numbered(map[], [], origin, h) && NumbersUpTo(map[], dims, 0, 0, 0)
  {
  }

  lemma RowEnds(idx: Numbering, dims: Grid, i: int, j: int)
    requires NumbersUpTo(idx, dims, i, j, dims.z)
    ensures NumbersUpTo(idx, dims, i, j + 1, 0)
  {
  }

  lemma PlaneEnds(idx: Numbering, dims: Grid, i: int)
    requires NumbersUpTo(idx, dims, i, dims.y, 0)
    ensures NumbersUpTo(idx, dims, i + 1, 0, 0)
  {
  }

  lemma LatticeEnds(idx: Numbering, dims: Grid)
    requires NumbersUpTo(idx, dims, dims.x, 0, 0)
    ensures forall g :: g in idx <==> InBox(g, dims)
  {
  }

  // ----- The tetrahedra

  /** All corners of the cell have numbers. */
  ghost predicate Covered(cell: Grid, idx: Numbering) {
    forall c: nat | c < 8 :: Corner(cell, c) in idx
  }

  function Tet(cell: Grid, m: nat, idx: Numbering): (t: seq<nat>)
    requires m < 6 && Covered(cell, idx)
    ensures |t| == 4
  {
    [idx[Vertex(cell, m, 0)], idx[Vertex(cell, m, 1)], idx[Vertex(cell, m, 2)], idx[Vertex(cell, m, 3)]]
  }

  ghost predicate AllCovered(cells: seq<Grid>, idx: Numbering) {
    forall c | 0 <= c < |cells| :: Covered(cells[c], idx)
  }

  function Six(cell: Grid, idx: Numbering): (ts: seq<seq<nat>>)
    requires Covered(cell, idx)
    ensures |ts| == 6
  {
    seq(6, m requires 0 <= m < 6 => Tet(cell, m, idx))
  }

  /** Six tetrahedra for every cell, in order. */
  function TetsOf(cells: seq<Grid>, idx: Numbering): (ts: seq<seq<nat>>)
    requires AllCovered(cells, idx)
    ensures |ts| == 6 * |cells|
  {
    if cells == [] then [] else TetsOf(cells[..|cells| - 1], idx) + Six(cells[|cells| - 1], idx)
  }

  /** The interior cells visited before `(i, j, k)`. */
  ghost predicate CellsUpTo(cells: seq<Grid>, dims: Grid, interior: Grid -> bool, i: int, j: int, k: int) {
    && (forall c, d | 0 <= c < d < |cells| :: cells[c] != cells[d])
    && forall g :: g in cells <==> InBox(g, dims) && interior(g) && Before(g, i, j, k)
  }

  /** The vertices of one tetrahedron, as the program looks them up. */
  function NodesAt(nodes: seq<Point>, t: seq<nat>): Corners
    requires |t| == 4 && forall n | 0 <= n < 4 :: t[n] < |nodes|
  {
    Corners(nodes[t[0]], nodes[t[1]], nodes[t[2]], nodes[t[3]])
  }

  lemma TetPlaced(cell: Grid, m: nat, idx: Numbering, nodes: seq<Point>, origin: Point, h: real)
    requires m < 6 && Covered(cell, idx) && Numbered(idx, nodes, origin, h)
    ensures (forall n | 0 <= n < 4 :: Tet(cell, m, idx)[n] < |nodes|)
    ensures NodesAt(nodes, Tet(cell, m, idx)) == Positioned(origin, h, cell, m)
  {
    hide Place;
    assert Vertex(cell, m, 0) in idx && Vertex(cell, m, 1) in idx && Vertex(cell, m, 2) in idx && Vertex(cell, m, 3) in idx;
  }

  /** The six tetrahedra of one cell, unless they are slivers. */
  method MeshCell(cell: Grid, idx: Numbering, nodes: seq<Point>, tets: seq<seq<nat>>, ghost origin: Point, ghost h: real)
    returns (tets': seq<seq<nat>>)
    requires Covered(cell, idx) && Numbered(idx, nodes, origin, h) && h > 0.0
    ensures tets' == if Cube(h) / 6.0 > SLIVER then tets + Six(cell, idx) else tets
  {
    hide Covered, Numbered, TetVolume, Cube, Positioned;
    tets' := tets;
    ghost var keep := Cube(h) / 6.0 > SLIVER;
    PositiveCube(h);
    var m := 0;
    while m < 6
      invariant 0 <= m <= 6 && tets' == if keep then tets + Six(cell, idx)[..m] else tets
    {
      TetPlaced(cell, m, idx, nodes, origin, h);
      SixthOfCell(origin, h, cell, m);
      var t := Tet(cell, m, idx);
      if Abs(TetVolume(NodesAt(nodes, t))) > SLIVER {
        tets' := tets' + [t];
      }
      m := m + 1;
    }
  }

  lemma PositiveCube(h: real)
    requires h > 0.0
    ensures Cube(h) / 6.0 > 0.0
  {
    assert h * h > 0.0;
  }

  lemma CellCoveredBy(g: Grid, dims: Grid, idx: Numbering)
    requires InBox(g, Grid(dims.x - 1, dims.y - 1, dims.z - 1)) && forall p :: p in idx <==> InBox(p, dims)
    ensures Covered(g, idx)
  {
  }

  lemma TetsOfMore(cells: seq<Grid>, cell: Grid, idx: Numbering)
    requires AllCovered(cells, idx) && Covered(cell, idx)
    ensures AllCovered(cells + [cell], idx) && TetsOf(cells + [cell], idx) == TetsOf(cells, idx) + Six(cell, idx)
  {
    assert (cells + [cell])[..|cells|] == cells;
  }

  lemma NextCell(cells: seq<Grid>, dims: Grid, interior: Grid -> bool, i: nat, j: nat, k: nat)
    requires CellsUpTo(cells, dims, interior, i, j, k) && InBox(Grid(i, j, k), dims)
    ensures CellsUpTo(if interior(Grid(i, j, k)) then cells + [Grid(i, j, k)] else cells, dims, interior, i, j, k + 1)
  {
    var g := Grid(i, j, k);
    var more := if interior(g) then cells + [g] else cells;
    assert g !in cells;
    forall p
      ensures p in more <==> InBox(p, dims) && interior(p) && Before(p, i, j, k + 1)
    {
      assert p in more <==> p in cells || (p == g && interior(g));
    }
  }

  lemma CellRowEnds(cells: seq<Grid>, dims: Grid, interior: Grid -> bool, i: int, j: int)
    requires CellsUpTo(cells, dims, interior, i, j, dims.z)
    ensures CellsUpTo(cells, dims, interior, i, j + 1, 0)
  {
  }

  lemma CellPlaneEnds(cells: seq<Grid>, dims: Grid, interior: Grid -> bool, i: int)
    requires CellsUpTo(cells, dims, interior, i, dims.y, 0)
    ensures CellsUpTo(cells, dims, interior, i + 1, 0, 0)
  {
  }

  /** `cells` lists the interior cells, each once. */
  ghost predicate InteriorCells(cells: seq<Grid>, dims: Grid, interior: Grid -> bool) {
    && (forall c, d | 0 <= c < d < |cells| :: cells[c] != cells[d])
    && forall g :: g in cells <==> InBox(g, dims) && interior(g)
  }

  lemma CellsEnd(cells: seq<Grid>, dims: Grid, interior: Grid -> bool)
    requires CellsUpTo(cells, dims, interior, dims.x, 0, 0)
    ensures InteriorCells(cells, dims, interior)
  {
  }

  lemma CellsBegin(dims: Grid, interior: Grid -> bool)
    ensures CellsUpTo([], dims, interior, 0, 0, 0)
  {
  }

  function Kept(h: real, cells: seq<Grid>, idx: Numbering): seq<seq<nat>>
    requires AllCovered(cells, idx)
  {
    if Cube(h) / 6.0 > SLIVER then TetsOf(cells, idx) else []
  }

  /** Six tetrahedra for every interior cell. The meshing fails if there is no interior cell, and also if the cells are so
    small that a sixth of one is a sliver. */
  method Tetrahedralize(origin: Point, h: real, dims: Grid, interior: Grid -> bool)
    returns (r: Option<VolMesh>, ghost cells: seq<Grid>, ghost idx: Numbering)
    requires h > 0.0 && dims.x >= 1 && dims.y >= 1 && dims.z >= 1
    ensures InteriorCells(cells, Grid(dims.x - 1, dims.y - 1, dims.z - 1), interior)
    ensures AllCovered(cells, idx)
    ensures r.Some? <==> cells != [] && Cube(h) / 6.0 > SLIVER
    ensures r.Some? ==> Numbered(idx, r.value.nodes, origin, h) && r.value.tets == TetsOf(cells, idx)
  {
    var nodes, numbers := BuildLattice(origin, h, dims);
    idx := numbers;
    var inner := Grid(dims.x - 1, dims.y - 1, dims.z - 1);
    var tets: seq<seq<nat>> := [];
    cells := [];
    hide Numbered, CellsUpTo, AllCovered, Covered, TetsOf, Cube, InteriorCells, Six;
    CellsBegin(inner, interior);
    NoCells(idx);
    var i := 0;
    while i < inner.x
      invariant 0 <= i <= inner.x && CellsUpTo(cells, inner, interior, i, 0, 0) && AllCovered(cells, idx)
      invariant tets == Kept(h, cells, idx)
    {
      var j := 0;
      while j < inner.y
        invariant 0 <= j <= inner.y && CellsUpTo(cells, inner, interior, i, j, 0) && AllCovered(cells, idx)
        invariant tets == Kept(h, cells, idx)
      {
        var k := 0;
        while k < inner.z
          invariant 0 <= k <= inner.z && CellsUpTo(cells, inner, interior, i, j, k) && AllCovered(cells, idx)
          invariant tets == Kept(h, cells, idx)
        {
          var cell := Grid(i, j, k);
          NextCell(cells, inner, interior, i, j, k);
          if interior(cell) {
            CellCoveredBy(cell, dims, idx);
            TetsOfMore(cells, cell, idx);
            tets := MeshCell(cell, numbers, nodes, tets, origin, h);
            cells := cells + [cell];
          }
          k := k + 1;
        }
        CellRowEnds(cells, inner, interior, i, j);
        j := j + 1;
      }
      CellPlaneEnds(cells, inner, interior, i);
      i := i + 1;
    }
    CellsEnd(cells, inner, interior);
    TetsLength(cells, idx);
    r := if tets == [] then None else Some(VolMesh(nodes, tets));
  }

  lemma NoCells(idx: Numbering)
    ensures AllCovered([], idx) && TetsOf([], idx) == []
  {
  }

  lemma TetsLength(cells: seq<Grid>, idx: Numbering)
    requires AllCovered(cells, idx)
    ensures TetsOf(cells, idx) == [] <==> cells == []
  {
  }

  /** The mesh that `Tetrahedralize` builds from these cells. */
  ghost predicate Meshed(mesh: VolMesh, cells: seq<Grid>, idx: Numbering, origin: Point, h: real) {
    && AllCovered(cells, idx) && Numbered(idx, mesh.nodes, origin, h) && mesh.tets == TetsOf(cells, idx)
    && forall c, d | 0 <= c < d < |cells| :: cells[c] != cells[d]
  }

  /** A cell is interior when its centre is in the solid. */
  function CentreTest(origin: Point, h: real, contains: Point -> bool): Grid -> bool {
    g => contains(Centre(origin, h, g))
  }

  function Ceil(x: real): (n: int)
    ensures x <= n as real < x + 1.0
  {
    if x.Floor as real == x then x.Floor else x.Floor + 1
  }

  /** The lattice spacing: the requested edge length, but at least 1e-6. */
  function Spacing(maxEdge: real): (h: real)
    ensures h > 0.0 && h >= maxEdge
    ensures maxEdge >= 0.000001 ==> h == maxEdge
    ensures maxEdge <= 0.000001 ==> h == 0.000001
  {
    if maxEdge < 0.000001 then 0.000001 else maxEdge
  }

  /** The point that is tested for a cell lies half a spacing from each of its eight corners along every axis. */
  lemma CentreIsHalfway(origin: Point, h: real, g: Grid, c: nat)
    requires h > 0.0 && c < 8
    ensures var p, q := Centre(origin, h, g), Place(origin, h, Corner(g, c));
            Abs(p.x - q.x) == h / 2.0 && Abs(p.y - q.y) == h / 2.0 && Abs(p.z - q.z) == h / 2.0
  {
    var corner := Corner(g, c);
    Halfway(origin.x, h, g.x, corner.x);
    Halfway(origin.y, h, g.y, corner.y);
    Halfway(origin.z, h, g.z, corner.z);
  }

  lemma Halfway(o: real, h: real, i: int, j: int)
    requires h > 0.0 && (j == i || j == i + 1)
    ensures Abs((o + (i as real + 0.5) * h) - (o + j as real * h)) == h / 2.0
  {
    assert (i as real + 0.5) * h == i as real * h + h / 2.0;
    assert (i as real + 1.0) * h == i as real * h + h;
  }

  /** Enough lattice points along each axis to reach the far corner. */
  function Dimensions(low: Point, high: Point, h: real): Grid
    requires h > 0.0
  {
    Grid(Ceil((high.x - low.x) / h) + 1, Ceil((high.y - low.y) / h) + 1, Ceil((high.z - low.z) / h) + 1)
  }

  lemma AxisReached(low: real, high: real, h: real, n: int)
    requires h > 0.0 && low <= high && n == Ceil((high - low) / h)
    ensures n >= 0 && high <= low + n as real * h < high + h
  {
    hide Ceil;
    var x, y := (high - low) / h, n as real;
    assert x * h == high - low;
    assert x >= 0.0 && x <= y < x + 1.0;
    OneSpacing(high - low, x, y, h);
  }

  lemma OneSpacing(d: real, x: real, y: real, h: real)
    requires h > 0.0 && x * h == d && x <= y < x + 1.0
    ensures d <= y * h < d + h
  {
    var less, more := y - x, x + 1.0 - y;
    assert less * h >= 0.0 && less * h == y * h - x * h;
    assert more * h > 0.0 && more * h == x * h + h - y * h;
  }

  lemma FarCorner(low: Point, high: Point, h: real)
    requires h > 0.0 && low.x <= high.x && low.y <= high.y && low.z <= high.z
    ensures var dims := Dimensions(low, high, h);
            var last := Place(low, h, Grid(dims.x - 1, dims.y - 1, dims.z - 1));
            && dims.x >= 1 && dims.y >= 1 && dims.z >= 1
            && high.x <= last.x < high.x + h && high.y <= last.y < high.y + h && high.z <= last.z < high.z + h
  {
    hide Ceil;
    AxisReached(low.x, high.x, h, Ceil((high.x - low.x) / h));
    AxisReached(low.y, high.y, h, Ceil((high.y - low.y) / h));
    AxisReached(low.z, high.z, h, Ceil((high.z - low.z) / h));
  }

  /** The lattice over the bounding box, meshed. Its last point is beyond the box's far corner, by less than one spacing, so
    no part of the solid is outside the lattice. */
  method MeshBox(low: Point, high: Point, maxEdge: real, contains: Point -> bool)
    returns (r: Option<VolMesh>, ghost cells: seq<Grid>, ghost idx: Numbering)
    requires low.x <= high.x && low.y <= high.y && low.z <= high.z
    ensures var h := Spacing(maxEdge);
            var dims := Dimensions(low, high, h);
            var last := Place(low, h, Grid(dims.x - 1, dims.y - 1, dims.z - 1));
            && high.x <= last.x < high.x + h && high.y <= last.y < high.y + h && high.z <= last.z < high.z + h
            && InteriorCells(cells, Grid(dims.x - 1, dims.y - 1, dims.z - 1), CentreTest(low, h, contains))
            && (forall g :: g in cells <==> InBox(g, Grid(dims.x - 1, dims.y - 1, dims.z - 1)) && contains(Centre(low, h, g)))
            && (r.Some? <==> cells != [] && Cube(h) / 6.0 > SLIVER)
            && (r.Some? ==> Meshed(r.value, cells, idx, low, h) && r.value.Valid())
  {
    var h := Spacing(maxEdge);
    var dims := Dimensions(low, high, h);
    hide Cube, Dimensions, Numbered, AllCovered, TetsOf, Place, Spacing, InteriorCells, Meshed;
    FarCorner(low, high, h);
    r, cells, idx := Tetrahedralize(low, h, dims, CentreTest(low, h, contains));
    if r.Some? {
      MeshValid(r.value, cells, idx, low, h);
    }
  }

  // ----- The finished mesh

  /** The `e`-th tetrahedron is the `m`-th of the `c`-th cell. */
  lemma {:induction false} TetAt(cells: seq<Grid>, idx: Numbering, e: nat) returns (c: nat, m: nat)
    requires AllCovered(cells, idx) && e < |TetsOf(cells, idx)|
    ensures c < |cells| && m < 6 && e == 6 * c + m && TetsOf(cells, idx)[e] == Tet(cells[c], m, idx)
    decreases |cells|
  {
    var n := |cells| - 1;
    hide Tet;
    if e < |TetsOf(cells[..n], idx)| {
      c, m := TetAt(cells[..n], idx, e);
    } else {
      c, m := n, e - |TetsOf(cells[..n], idx)|;
    }
  }

  lemma MeshValid(mesh: VolMesh, cells: seq<Grid>, idx: Numbering, origin: Point, h: real)
    requires Meshed(mesh, cells, idx, origin, h)
    ensures mesh.Valid()
  {
    hide TetsOf, Numbered, AllCovered, Place;
    forall e | 0 <= e < |mesh.tets|
      ensures |mesh.tets[e]| == 4 && forall i | 0 <= i < 4 :: mesh.tets[e][i] < |mesh.nodes|
    {
      var c, m := TetAt(cells, idx, e);
      CoveredAt(cells, idx, c);
      TetPlaced(cells[c], m, idx, mesh.nodes, origin, h);
    }
  }

  lemma CoveredAt(cells: seq<Grid>, idx: Numbering, c: nat)
    requires AllCovered(cells, idx) && c < |cells|
    ensures Covered(cells[c], idx)
  {
  }

  function TotalVolume(nodes: seq<Point>, tets: seq<seq<nat>>): real
    requires forall e | 0 <= e < |tets| :: |tets[e]| == 4 && forall i | 0 <= i < 4 :: tets[e][i] < |nodes|
  {
    if tets == [] then 0.0 else TotalVolume(nodes, tets[..|tets| - 1]) + TetVolume(NodesAt(nodes, tets[|tets| - 1]))
  }

  function Times(n: nat, x: real): real {
    n as real * x
  }

  /** Every tetrahedron has the same positive volume, and together they fill the interior cells. */
  lemma MeshVolume(mesh: VolMesh, cells: seq<Grid>, idx: Numbering, origin: Point, h: real)
    requires Meshed(mesh, cells, idx, origin, h) && mesh.Valid()
    ensures forall e | 0 <= e < |mesh.tets| :: TetVolume(NodesAt(mesh.nodes, mesh.tets[e])) == Cube(h) / 6.0
    ensures TotalVolume(mesh.nodes, mesh.tets) == Times(|cells|, Cube(h))
  {
    hide TetsOf, Numbered, AllCovered, Place, TetVolume, Cube;
    forall e | 0 <= e < |mesh.tets|
      ensures TetVolume(NodesAt(mesh.nodes, mesh.tets[e])) == Cube(h) / 6.0
    {
      var c, m := TetAt(cells, idx, e);
      CoveredAt(cells, idx, c);
      TetPlaced(cells[c], m, idx, mesh.nodes, origin, h);
      SixthOfCell(origin, h, cells[c], m);
    }
    EqualVolumes(mesh.nodes, mesh.tets, Cube(h) / 6.0);
    SixSixths(|cells|, Cube(h));
  }

  lemma SixSixths(n: nat, x: real)
    ensures Times(6 * n, x / 6.0) == Times(n, x)
  {
  }

  lemma {:induction false} EqualVolumes(nodes: seq<Point>, tets: seq<seq<nat>>, v: real)
    requires forall e | 0 <= e < |tets| :: |tets[e]| == 4 && forall i | 0 <= i < 4 :: tets[e][i] < |nodes|
    requires forall e | 0 <= e < |tets| :: TetVolume(NodesAt(nodes, tets[e])) == v
    ensures TotalVolume(nodes, tets) == Times(|tets|, v)
  {
    hide TetVolume;
    if tets != [] {
      EqualVolumes(nodes, tets[..|tets| - 1], v);
      TimesMore(|tets| - 1, v);
    }
  }

  lemma TimesMore(n: nat, v: real)
    ensures Times(n + 1, v) == Times(n, v) + v
  {
  }

  // ----- Conformity of the finished mesh

  /** Three different lattice points, smallest coordinate sum first, on a walk. */
  lemma MeetsInOrder(t: Walk, u: Grid, v: Grid, w: Grid)
    requires t.Valid() && OnWalk(t, u) && OnWalk(t, v) && OnWalk(t, w) && Size(u) < Size(v) < Size(w)
    ensures t.Meets(u, v, w)
  {
  }

  predicate OnWalk(t: Walk, g: Grid)
    requires t.Valid()
  {
    g == t.At(0) || g == t.At(1) || g == t.At(2) || g == t.At(3)
  }

  lemma WalkSizes(t: Walk, u: Grid, v: Grid)
    requires t.Valid() && OnWalk(t, u) && OnWalk(t, v) && u != v
    ensures Size(u) != Size(v)
  {
  }

  /** The lattice point of a node of a tetrahedron is on its walk. */
  lemma NodeOnWalk(cell: Grid, m: nat, idx: Numbering, a: nat) returns (u: Grid)
    requires m < 6 && Covered(cell, idx) && a in Tet(cell, m, idx)
    ensures u in idx && idx[u] == a && OnWalk(WalkOf(cell, m), u)
  {
    TableIsWalks(cell, m);
    hide WalkOf, Corner;
    var n: nat := if a == idx[Vertex(cell, m, 0)] then 0 else if a == idx[Vertex(cell, m, 1)] then 1
      else if a == idx[Vertex(cell, m, 2)] then 2 else 3;
    u := Vertex(cell, m, n);
  }

  /** The tetrahedron has these three nodes. */
  predicate HasFace(t: seq<nat>, a: nat, b: nat, c: nat) {
    a in t && b in t && c in t
  }

  /** The walk of a tetrahedron of the mesh, through three given lattice points. */
  lemma WalkThrough(mesh: VolMesh, cells: seq<Grid>, idx: Numbering, origin: Point, h: real, e: nat, u: Grid, v: Grid, w: Grid)
    returns (c: nat, m: nat)
    requires Meshed(mesh, cells, idx, origin, h) && e < |mesh.tets| && u in idx && v in idx && w in idx
    requires HasFace(mesh.tets[e], idx[u], idx[v], idx[w])
    ensures c < |cells| && m < 6 && e == 6 * c + m
    ensures var t := WalkOf(cells[c], m); OnWalk(t, u) && OnWalk(t, v) && OnWalk(t, w)
  {
    hide TetsOf, AllCovered, Covered, Place, OnWalk, Tet, WalkOf;
    c, m := TetAt(cells, idx, e);
    CoveredAt(cells, idx, c);
    var u' := NodeOnWalk(cells[c], m, idx, idx[u]);
    var v' := NodeOnWalk(cells[c], m, idx, idx[v]);
    var w' := NodeOnWalk(cells[c], m, idx, idx[w]);
  }

  /** Sorting three lattice points by size. */
  lemma Sorted(u: Grid, v: Grid, w: Grid) returns (x: Grid, y: Grid, z: Grid)
    requires Size(u) != Size(v) && Size(v) != Size(w) && Size(u) != Size(w)
    ensures Size(x) < Size(y) < Size(z)
    ensures forall t: Walk | t.Valid() && OnWalk(t, u) && OnWalk(t, v) && OnWalk(t, w) :: OnWalk(t, x) && OnWalk(t, y) && OnWalk(t, z)
  {
    hide OnWalk;
    if Size(u) < Size(v) {
      if Size(v) < Size(w) { return u, v, w; }
      if Size(u) < Size(w) { return u, w, v; }
      return w, u, v;
    } else {
      if Size(u) < Size(w) { return v, u, w; }
      if Size(v) < Size(w) { return v, w, u; }
      return w, v, u;
    }
  }

  lemma SameWalkSameTet(mesh: VolMesh, cells: seq<Grid>, idx: Numbering, origin: Point, h: real, c: nat, m: nat, d: nat, n: nat)
    requires Meshed(mesh, cells, idx, origin, h) && c < |cells| && d < |cells| && m < 6 && n < 6
    requires WalkOf(cells[c], m) == WalkOf(cells[d], n)
    ensures 6 * c + m == 6 * d + n
  {
    TableHasNoRepeats(cells[c], m, n);
  }

  /** Every triangular face of the mesh is in at most two tetrahedra: of three tetrahedra with the same three nodes, two
    are the same. */
  lemma MeshConforming(mesh: VolMesh, cells: seq<Grid>, idx: Numbering, origin: Point, h: real,
                       e1: nat, e2: nat, e3: nat, a: nat, b: nat, c: nat)
    requires Meshed(mesh, cells, idx, origin, h) && e1 < |mesh.tets| && e2 < |mesh.tets| && e3 < |mesh.tets|
    requires a != b && b != c && a != c
    requires HasFace(mesh.tets[e1], a, b, c) && HasFace(mesh.tets[e2], a, b, c) && HasFace(mesh.tets[e3], a, b, c)
    ensures e1 == e2 || e2 == e3 || e1 == e3
  {
    var u, v, w := FaceOnLattice(mesh, cells, idx, origin, h, e1, a, b, c);
    hide Meshed, OnWalk, HasFace, WalkOf;
    var c1, m1 := WalkThrough(mesh, cells, idx, origin, h, e1, u, v, w);
    var c2, m2 := WalkThrough(mesh, cells, idx, origin, h, e2, u, v, w);
    var c3, m3 := WalkThrough(mesh, cells, idx, origin, h, e3, u, v, w);
    var x, y, z := Sorted(u, v, w);
    MeetsInOrder(WalkOf(cells[c1], m1), x, y, z);
    MeetsInOrder(WalkOf(cells[c2], m2), x, y, z);
    MeetsInOrder(WalkOf(cells[c3], m3), x, y, z);
    Conforming(WalkOf(cells[c1], m1), WalkOf(cells[c2], m2), WalkOf(cells[c3], m3), x, y, z);
    if WalkOf(cells[c1], m1) == WalkOf(cells[c2], m2) {
      SameWalkSameTet(mesh, cells, idx, origin, h, c1, m1, c2, m2);
    } else if WalkOf(cells[c2], m2) == WalkOf(cells[c3], m3) {
      SameWalkSameTet(mesh, cells, idx, origin, h, c2, m2, c3, m3);
    } else {
      SameWalkSameTet(mesh, cells, idx, origin, h, c1, m1, c3, m3);
    }
  }

  lemma FaceOnLattice(mesh: VolMesh, cells: seq<Grid>, idx: Numbering, origin: Point, h: real, e: nat, a: nat, b: nat, c: nat)
    returns (u: Grid, v: Grid, w: Grid)
    requires Meshed(mesh, cells, idx, origin, h) && e < |mesh.tets| && HasFace(mesh.tets[e], a, b, c)
    requires a != b && b != c && a != c
    ensures u in idx && v in idx && w in idx && idx[u] == a && idx[v] == b && idx[w] == c
    ensures Size(u) != Size(v) && Size(v) != Size(w) && Size(u) != Size(w)
  {
    hide TetsOf, AllCovered, Covered, Place, OnWalk, Tet, WalkOf, Size;
    var d, m := TetAt(cells, idx, e);
    CoveredAt(cells, idx, d);
    u := NodeOnWalk(cells[d], m, idx, a);
    v := NodeOnWalk(cells[d], m, idx, b);
    w := NodeOnWalk(cells[d], m, idx, c);
    WalkSizes(WalkOf(cells[d], m), u, v);
    WalkSizes(WalkOf(cells[d], m), v, w);
    WalkSizes(WalkOf(cells[d], m), u, w);
  }
}
