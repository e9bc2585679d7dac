/** An ordinary solid that meets what slicing takes: the cube of the slicer's own test, cut at mid height
  (tpt-vertex-slicer/src/layers.rs:302-362). */
module Cubes {
  import opened Planar
  import opened Points
  import opened Solids
  import opened Stitching
  import opened Slicing
  import opened Watertightness

  const CORNERS: seq<Point> := [
    Point(-1.0, -1.0, -0.5), Point(1.0, -1.0, -0.5), Point(1.0, 1.0, -0.5), Point(-1.0, 1.0, -0.5),
    Point(-1.0, -1.0, 1.5), Point(1.0, -1.0, 1.5), Point(1.0, 1.0, 1.5), Point(-1.0, 1.0, 1.5)
  ]

  const FACES: seq<Face> := [
    Face(0, 1, 2), Face(0, 2, 3), Face(4, 6, 5), Face(4, 7, 6), Face(0, 5, 1), Face(0, 4, 5),
    Face(1, 6, 2), Face(1, 5, 6), Face(2, 7, 3), Face(2, 6, 7), Face(3, 4, 0), Face(3, 7, 4)
  ]

  const CUBE := Mesh(CORNERS, FACES)

  // ----- Watertight

  /** One if the edge joins these two corners, the smaller number first. */
  function Is(e: Edge, lo: nat, hi: nat): nat {
    if e.lo == lo && e.hi == hi then 1 else 0
  }

  /** One more face adds its three sides. */
  lemma TallyMore(n: nat, f: Face, x: Edge, y: Edge, w: Edge, e: Edge)
    requires n < |FACES| && FACES[n] == f && EdgeOf(f.a, f.b) == x && EdgeOf(f.b, f.c) == y && EdgeOf(f.c, f.a) == w
    ensures Tally(FACES[..n + 1])[e] == Tally(FACES[..n])[e] + Is(e, x.lo, x.hi) + Is(e, y.lo, y.hi) + Is(e, w.lo, w.hi)
  {
    hide FACES;
    assert FACES[..n + 1][..n] == FACES[..n];
    assert multiset(SidesOf(f)) == multiset{x, y, w};
  }

  lemma NoneYet(e: Edge)
    ensures Tally(FACES[..0])[e] == 0 && FACES[..12] == FACES
  {
    assert FACES[..0] == [];
  }

  /** The twelve faces count each of their eighteen edges twice. */
  lemma TallyOfCube(e: Edge)
    ensures Tally(FACES)[e] == 2 * (
              Is(e, 0, 1) + Is(e, 0, 2) + Is(e, 0, 3) + Is(e, 0, 4) + Is(e, 0, 5) + Is(e, 1, 2) +
              Is(e, 1, 5) + Is(e, 1, 6) + Is(e, 2, 3) + Is(e, 2, 6) + Is(e, 2, 7) + Is(e, 3, 4) +
              Is(e, 3, 7) + Is(e, 4, 5) + Is(e, 4, 6) + Is(e, 4, 7) + Is(e, 5, 6) + Is(e, 6, 7))
  {
    NoneYet(e);
    hide Is, Tally;
    TallyMore(0, Face(0, 1, 2), Edge(0, 1), Edge(1, 2), Edge(0, 2), e);
    TallyMore(1, Face(0, 2, 3), Edge(0, 2), Edge(2, 3), Edge(0, 3), e);
    TallyMore(2, Face(4, 6, 5), Edge(4, 6), Edge(5, 6), Edge(4, 5), e);
    TallyMore(3, Face(4, 7, 6), Edge(4, 7), Edge(6, 7), Edge(4, 6), e);
    TallyMore(4, Face(0, 5, 1), Edge(0, 5), Edge(1, 5), Edge(0, 1), e);
    TallyMore(5, Face(0, 4, 5), Edge(0, 4), Edge(4, 5), Edge(0, 5), e);
    TallyMore(6, Face(1, 6, 2), Edge(1, 6), Edge(2, 6), Edge(1, 2), e);
    TallyMore(7, Face(1, 5, 6), Edge(1, 5), Edge(5, 6), Edge(1, 6), e);
    TallyMore(8, Face(2, 7, 3), Edge(2, 7), Edge(3, 7), Edge(2, 3), e);
    TallyMore(9, Face(2, 6, 7), Edge(2, 6), Edge(6, 7), Edge(2, 7), e);
    TallyMore(10, Face(3, 4, 0), Edge(3, 4), Edge(0, 4), Edge(0, 3), e);
    TallyMore(11, Face(3, 7, 4), Edge(3, 7), Edge(4, 7), Edge(3, 4), e);
  }

  lemma EveryEdgeTwice(e: Edge)
    ensures Tally(FACES)[e] == 0 || Tally(FACES)[e] == 2
  {
    TallyOfCube(e);
    hide FACES, Tally;
  }

  /** The three corners of a face as one number, whatever their order. */
  function Code(f: Face): nat {
    Bit(f.a) + Bit(f.b) + Bit(f.c)
  }

  function Bit(v: nat): nat {
    if v == 0 then 1 else if v == 1 then 2 else if v == 2 then 4 else if v == 3 then 8
    else if v == 4 then 16 else if v == 5 then 32 else if v == 6 then 64 else 128
  }

  lemma SameCode(f: Face, g: Face)
    requires Triangular(f) && Triangular(g) && SameVertices(f, g)
    ensures Code(f) == Code(g)
  {
    hide Bit;
  }

  const CODES: seq<nat> := [7, 13, 112, 208, 35, 49, 70, 98, 140, 196, 25, 152]

  lemma CodesOfFaces()
    ensures |CODES| == |FACES| && forall k | 0 <= k < |FACES| :: Code(FACES[k]) == CODES[k]
  {
  }

  lemma CodesDiffer(i: nat, j: nat)
    requires i < |CODES| && j < |CODES| && CODES[i] == CODES[j]
    ensures i == j
  {
  }

  lemma DifferentCodes(i: nat, j: nat)
    requires i < |FACES| && j < |FACES| && Code(FACES[i]) == Code(FACES[j])
    ensures i == j
  {
    CodesOfFaces();
    hide CODES, Code;
    CodesDiffer(i, j);
  }

  lemma TriangularFaces()
    ensures forall k | 0 <= k < |FACES| :: Triangular(FACES[k]) && FACES[k].a < 8 && FACES[k].b < 8 && FACES[k].c < 8
  {
  }

  lemma CubeIsWatertight()
    ensures CUBE.Valid() && Watertight(CUBE)
  {
    TriangularFaces();
    hide FACES, Tally, EdgesTwice;
    forall e | e in Tally(FACES)
      ensures Tally(FACES)[e] == 2
    {
      EveryEdgeTwice(e);
    }
    CountedMeansTwice(CUBE);
    forall i: nat, j: nat | i < |FACES| && j < |FACES| && SameVertices(FACES[i], FACES[j])
      ensures i == j
    {
      SameCode(FACES[i], FACES[j]);
      DifferentCodes(i, j);
    }
  }

  // ----- Cut at mid height

  const HALF := 0.5

  lemma CubeIsClear()
    requires CUBE.Valid()
    ensures Clear(CUBE, HALF)
  {
    TriangularFaces();
    assert forall v | 0 <= v < 8 :: !OnPlane(CORNERS[v], HALF);
    hide FACES, CORNERS, OnPlane;
  }

  /** Upper and lower corners. */
  lemma Levels(v: nat)
    requires v < 8
    ensures Up(CORNERS[v], HALF) <==> v >= 4
    ensures Down(CORNERS[v], HALF) <==> v < 4
    ensures CORNERS[v].z == if v < 4 then -0.5 else 1.5
  {
  }

  /** The edges that cross: uprights, and diagonals of the sides. */
  predicate CrossingEdge(c: Cut) {
    4 <= c.up < 8 && c.down < 4 && (c.up - 4 == c.down || c.up - 4 == (c.down + 1) % 4)
  }

  lemma CutsOfCube(c: Cut)
    requires EdgeCut(CUBE, HALF, c)
    ensures CrossingEdge(c)
  {
    var k :| 0 <= k < |FACES| && CutsFace(CUBE, HALF, FACES[k], c);
    TriangularFaces();
    Levels(c.up);
    Levels(c.down);
    hide CORNERS, Up, Down;
  }

  /** Both ends are one unit from the plane, so an edge crosses it at its middle. */
  lemma CrossesInTheMiddle(a: Point, b: Point)
    requires a.z == 1.5 && b.z == -0.5
    ensures Crossing(a, b, HALF) == P2((a.x + b.x) / 2.0, (a.y + b.y) / 2.0)
  {
  }

  function Across(v: nat): real
    requires v < 8
  {
    if v == 0 || v == 3 || v == 4 || v == 7 then -1.0 else 1.0
  }

  function Along(v: nat): real
    requires v < 8
  {
    if v == 0 || v == 1 || v == 4 || v == 5 then -1.0 else 1.0
  }

  lemma CornerAt(v: nat)
    requires v < 8
    ensures CORNERS[v].x == Across(v) && CORNERS[v].y == Along(v)
  {
  }

  lemma UnitApart(p: P2, q: P2)
    requires p.x - q.x >= 1.0 || q.x - p.x >= 1.0 || p.y - q.y >= 1.0 || q.y - p.y >= 1.0
    ensures !Close(p, q)
  {
    SquareAtLeast(p.x - q.x);
    SquareAtLeast(p.y - q.y);
  }

  lemma SquareAtLeast(x: real)
    ensures x * x >= 0.0 && (x >= 1.0 || x <= -1.0 ==> x * x >= 1.0)
  {
  }

  lemma CutPointOfCube(c: Cut)
    requires EdgeCut(CUBE, HALF, c)
    ensures CrossingEdge(c)
    ensures CutPoint(CUBE, HALF, c) == P2((Across(c.up) + Across(c.down)) / 2.0, (Along(c.up) + Along(c.down)) / 2.0)
  {
    CutsOfCube(c);
    Levels(c.up);
    Levels(c.down);
    CornerAt(c.up);
    CornerAt(c.down);
    hide CORNERS, Crossing;
    CrossesInTheMiddle(CORNERS[c.up], CORNERS[c.down]);
  }

  lemma MiddlesApart(c: Cut, d: Cut)
    requires CrossingEdge(c) && CrossingEdge(d) && c != d
    ensures !Close(P2((Across(c.up) + Across(c.down)) / 2.0, (Along(c.up) + Along(c.down)) / 2.0),
                   P2((Across(d.up) + Across(d.down)) / 2.0, (Along(d.up) + Along(d.down)) / 2.0))
  {
    UnitApart(P2((Across(c.up) + Across(c.down)) / 2.0, (Along(c.up) + Along(c.down)) / 2.0),
             P2((Across(d.up) + Across(d.down)) / 2.0, (Along(d.up) + Along(d.down)) / 2.0));
  }

  /** What slicing takes holds for the cube at mid height, although corners that no edge joins would cross the
    plane at the same points as its edges. */
  lemma CubeIsSliceable()
    ensures Sliceable(CUBE, HALF)
  {
    CubeIsWatertight();
    CubeIsClear();
    hide Close, CutPoint, EdgeCut, Watertight, Clear;
    forall c, d | EdgeCut(CUBE, HALF, c) && EdgeCut(CUBE, HALF, d) && Close(CutPoint(CUBE, HALF, c), CutPoint(CUBE, HALF, d))
      ensures c == d
    {
      CutPointOfCube(c);
      CutPointOfCube(d);
      if c != d {
        MiddlesApart(c, d);
      }
    }
  }
}
