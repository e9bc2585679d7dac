/** Cutting triangles with a horizontal plane (`intersect_triangle` and `slice_at_z`
  of tpt-vertex-slicer/src/layers.rs), and why the slice of a watertight mesh
  consists of simple closed contours. */
module Slicing {
  import opened Options
  import opened Planar
  import opened Points
  import opened Solids
  import opened Stitching

  // ----- One triangle

  predicate OnPlane(v: Point, z: real) {
    -0.000000001 < v.z - z < 0.000000001
  }

  predicate Up(v: Point, z: real) {
    !OnPlane(v, z) && v.z > z
  }

  predicate Down(v: Point, z: real) {
    !OnPlane(v, z) && v.z <= z
  }

  function Ups(vs: seq<Point>, z: real): (us: seq<Point>)
    ensures forall i | 0 <= i < |us| :: Up(us[i], z)
  {
    if vs == [] then []
    else Ups(vs[..|vs| - 1], z) + if Up(vs[|vs| - 1], z) then [vs[|vs| - 1]] else []
  }

  function Downs(vs: seq<Point>, z: real): (ds: seq<Point>)
    ensures forall i | 0 <= i < |ds| :: Down(ds[i], z)
  {
    if vs == [] then []
    else Downs(vs[..|vs| - 1], z) + if Down(vs[|vs| - 1], z) then [vs[|vs| - 1]] else []
  }

  /** Where the edge from `a` down to `b` meets the plane. */
  function Crossing(a: Point, b: Point, z: real): P2
    requires a.z != b.z
  {
    var t := (z - a.z) / (b.z - a.z);
    P2(a.x + t * (b.x - a.x), a.y + t * (b.y - a.y))
  }

  function CrossingsFrom(a: Point, below: seq<Point>, z: real): (pts: seq<P2>)
    requires Up(a, z) && forall i | 0 <= i < |below| :: Down(below[i], z)
    ensures |pts| == |below|
  {
    seq(|below|, i requires 0 <= i < |below| => assert Down(below[i], z); Crossing(a, below[i], z))
  }

  /** The crossings of all pairs, upper vertices in the outer loop. */
  function Crossings(above: seq<Point>, below: seq<Point>, z: real): (pts: seq<P2>)
    requires (forall i | 0 <= i < |above| :: Up(above[i], z)) && forall i | 0 <= i < |below| :: Down(below[i], z)
  {
    if above == [] then []
    else Crossings(above[..|above| - 1], below, z) + CrossingsFrom(above[|above| - 1], below, z)
  }

  function SegmentOf(t: Triangle, z: real): Option<Seg> {
    var above, below := Ups([t.p, t.q, t.r], z), Downs([t.p, t.q, t.r], z);
    if |above| == 0 || |below| == 0 || |above| == 3 || |below| == 3 then None
    else
      var pts := Crossings(above, below, z);
      if |pts| < 2 then None else Some(Seg(pts[0], pts[1]))
  }

  // ----- Where the points are

  /** The point at the share `s` of the way from `u` to `v`. */
  function Along(u: Point, v: Point, s: real): Point {
    Point(u.x + s * (v.x - u.x), u.y + s * (v.y - u.y), u.z + s * (v.z - u.z))
  }

  /** At height `z` the point is strictly between the two ends. */
  ghost predicate OnEdge(u: Point, v: Point, p: P2, z: real) {
    exists s: real :: 0.0 < s < 1.0 && Along(u, v, s) == Point(p.x, p.y, z)
  }

  predicate IsCornerOf(t: Triangle, v: Point) {
    v == t.p || v == t.q || v == t.r
  }

  /** At height `z` the point is on an edge of the triangle that goes from above to below. */
  ghost predicate OnTriangle(t: Triangle, p: P2, z: real) {
    exists u, v :: IsCornerOf(t, u) && IsCornerOf(t, v) && v.z < z < u.z && OnEdge(u, v, p, z)
  }

  lemma NegativeQuotient(x: real, y: real)
    requires x < 0.0 && y < 0.0
    ensures x / y > 0.0
  {
    assert x / y * y == x;
  }

  lemma QuotientsOfWhole(x: real, y: real, d: real)
    requires d != 0.0 && x + y == d
    ensures x / d + y / d == 1.0
  {
    var p, q := x / d, y / d;
    assert p * d == x && q * d == y;
    assert (p + q - 1.0) * d == 0.0;
    ZeroFactor(p + q - 1.0, d);
  }

  lemma ZeroFactor(w: real, d: real)
    requires d != 0.0 && w * d == 0.0
    ensures w == 0.0
  {
  }

  lemma TimesShare(x: real, d: real)
    requires d != 0.0
    ensures x / d * d == x
  {
  }

  lemma ShareBetween(a: real, b: real, z: real)
    requires b < z < a
    ensures 0.0 < (z - a) / (b - a) < 1.0 && a + (z - a) / (b - a) * (b - a) == z
  {
    NegativeQuotient(z - a, b - a);
    NegativeQuotient(b - z, b - a);
    QuotientsOfWhole(z - a, b - z, b - a);
    TimesShare(z - a, b - a);
  }

  lemma CrossingIsAlong(a: Point, b: Point, z: real, s: real)
    requires a.z != b.z && s == (z - a.z) / (b.z - a.z) && a.z + s * (b.z - a.z) == z
    ensures Along(a, b, s) == Point(Crossing(a, b, z).x, Crossing(a, b, z).y, z)
  {
    var t := (z - a.z) / (b.z - a.z);
    SameFactor(s, t, b.x - a.x);
    SameFactor(s, t, b.y - a.y);
    assert Crossing(a, b, z) == P2(a.x + t * (b.x - a.x), a.y + t * (b.y - a.y));
  }

  lemma SameFactor(s: real, t: real, d: real)
    requires s == t
    ensures s * d == t * d
  {
  }

  /** A crossing is on its edge, at the height of the plane. */
  lemma CrossingOnEdge(a: Point, b: Point, z: real)
    requires b.z < z < a.z
    ensures OnEdge(a, b, Crossing(a, b, z), z)
  {
    ShareBetween(a.z, b.z, z);
    CrossingIsAlong(a, b, z, (z - a.z) / (b.z - a.z));
    hide Along, Crossing;
  }

  lemma {:induction false} CrossingsOnEdges(t: Triangle, above: seq<Point>, below: seq<Point>, z: real, i: nat)
    requires (forall k | 0 <= k < |above| :: Up(above[k], z) && IsCornerOf(t, above[k]))
    requires forall k | 0 <= k < |below| :: Down(below[k], z) && IsCornerOf(t, below[k])
    requires i < |Crossings(above, below, z)|
    ensures OnTriangle(t, Crossings(above, below, z)[i], z)
  {
    hide Crossing, OnEdge;
    if above != [] {
      var rest := Crossings(above[..|above| - 1], below, z);
      if i < |rest| {
        CrossingsOnEdges(t, above[..|above| - 1], below, z, i);
      } else {
        CrossingOnEdge(above[|above| - 1], below[i - |rest|], z);
      }
    }
  }

  lemma SidesAreCorners(t: Triangle, z: real)
    ensures forall k | 0 <= k < |Ups([t.p, t.q, t.r], z)| :: IsCornerOf(t, Ups([t.p, t.q, t.r], z)[k])
    ensures forall k | 0 <= k < |Downs([t.p, t.q, t.r], z)| :: IsCornerOf(t, Downs([t.p, t.q, t.r], z)[k])
  {
    UpsOfThree(t, z);
    DownsOfThree(t, z);
    hide Ups, Downs, Up, Down;
  }

  /** Both ends of the segment of a triangle are on its edges. */
  lemma SegmentOnTriangle(t: Triangle, z: real)
    ensures SegmentOf(t, z).Some? ==> OnTriangle(t, SegmentOf(t, z).value.a, z) && OnTriangle(t, SegmentOf(t, z).value.b, z)
  {
    if SegmentOf(t, z).Some? {
      var above, below := Ups([t.p, t.q, t.r], z), Downs([t.p, t.q, t.r], z);
      SidesAreCorners(t, z);
      hide Ups, Downs, Up, Down, OnTriangle, Crossings, IsCornerOf;
      CrossingsOnEdges(t, above, below, z, 0);
      CrossingsOnEdges(t, above, below, z, 1);
    }
  }

  method IntersectTriangle(t: Triangle, z: real) returns (s: Option<Seg>)
    ensures s == SegmentOf(t, z)
    ensures s.Some? ==> OnTriangle(t, s.value.a, z) && OnTriangle(t, s.value.b, z)
  {
    SegmentOnTriangle(t, z);
    var vs := [t.p, t.q, t.r];
    var above: seq<Point>, below: seq<Point> := [], [];
    var i := 0;
    while i < 3
      invariant 0 <= i <= 3 && above == Ups(vs[..i], z) && below == Downs(vs[..i], z)
    {
      assert vs[..i + 1][..i] == vs[..i];
      if !OnPlane(vs[i], z) {
        if vs[i].z > z {
          above := above + [vs[i]];
        } else {
          below := below + [vs[i]];
        }
      }
      i := i + 1;
    }
    assert vs[..3] == vs;
    if |above| == 0 || |below| == 0 || |above| == 3 || |below| == 3 {
      return None;
    }
    var pts := AllCrossings(above, below, z);
    return if |pts| < 2 then None else Some(Seg(pts[0], pts[1]));
  }

  method AllCrossings(above: seq<Point>, below: seq<Point>, z: real) returns (pts: seq<P2>)
    requires (forall i | 0 <= i < |above| :: Up(above[i], z)) && forall i | 0 <= i < |below| :: Down(below[i], z)
    ensures pts == Crossings(above, below, z)
  {
    pts := [];
    var i := 0;
    while i < |above|
      invariant 0 <= i <= |above| && pts == Crossings(above[..i], below, z)
    {
      ghost var done := pts;
      var j := 0;
      while j < |below|
        invariant 0 <= j <= |below| && pts == done + CrossingsFrom(above[i], below, z)[..j]
      {
        assert Up(above[i], z) && Down(below[j], z);
        pts := pts + [Crossing(above[i], below[j], z)];
        j := j + 1;
      }
      assert above[..i + 1][..i] == above[..i];
      i := i + 1;
    }
    assert above[..i] == above;
  }

  /** A triangle yields a segment exactly when no vertex is on the plane and the vertices are on both sides. With one
    vertex on the plane, one above and one below it yields none, although the source's comment promises one. */
  lemma CutIff(t: Triangle, z: real)
    ensures SegmentOf(t, z).Some? <==>
              && !OnPlane(t.p, z) && !OnPlane(t.q, z) && !OnPlane(t.r, z)
              && (Up(t.p, z) || Up(t.q, z) || Up(t.r, z)) && (Down(t.p, z) || Down(t.q, z) || Down(t.r, z))
  {
    UpsOfThree(t, z);
    DownsOfThree(t, z);
    var above, below := Ups([t.p, t.q, t.r], z), Downs([t.p, t.q, t.r], z);
    hide Ups, Downs, OnPlane;
    CrossingCount(above, below, z);
  }

  /** The failing case: a corner on the plane, one above and one below. The plane meets the triangle in the stretch from
    that corner to (1/2, 1/2), and nothing is returned. */
  lemma CornerOnPlaneCutsNothing()
    ensures var t := Triangle(Point(0.0, 0.0, 0.0), Point(1.0, 0.0, 1.0), Point(0.0, 1.0, -1.0));
            && SegmentOf(t, 0.0) == None && OnPlane(t.p, 0.0) && Up(t.q, 0.0) && Down(t.r, 0.0)
            && Crossing(t.q, t.r, 0.0) == P2(0.5, 0.5)
  {
    CutIff(Triangle(Point(0.0, 0.0, 0.0), Point(1.0, 0.0, 1.0), Point(0.0, 1.0, -1.0)), 0.0);
  }

  lemma UpsOfThree(t: Triangle, z: real)
    ensures Ups([t.p, t.q, t.r], z)
            == (if Up(t.p, z) then [t.p] else []) + (if Up(t.q, z) then [t.q] else []) + if Up(t.r, z) then [t.r] else []
  {
    hide Up;
    var vs := [t.p, t.q, t.r];
    assert vs[..2] == [t.p, t.q] && vs[..2][..1] == [t.p] && [t.p][..0] == [];
    assert Ups([t.p], z) == [] + if Up(t.p, z) then [t.p] else [];
  }

  lemma DownsOfThree(t: Triangle, z: real)
    ensures Downs([t.p, t.q, t.r], z)
            == (if Down(t.p, z) then [t.p] else []) + (if Down(t.q, z) then [t.q] else []) + if Down(t.r, z) then [t.r] else []
  {
    hide Down;
    var vs := [t.p, t.q, t.r];
    assert vs[..2] == [t.p, t.q] && vs[..2][..1] == [t.p] && [t.p][..0] == [];
    assert Downs([t.p], z) == [] + if Down(t.p, z) then [t.p] else [];
  }

  lemma {:induction false} CrossingCount(above: seq<Point>, below: seq<Point>, z: real)
    requires (forall i | 0 <= i < |above| :: Up(above[i], z)) && forall i | 0 <= i < |below| :: Down(below[i], z)
    ensures |above| == 0 || |below| == 0 ==> |Crossings(above, below, z)| == 0
    ensures |above| == 1 ==> |Crossings(above, below, z)| == |below|
    ensures |above| == 2 ==> |Crossings(above, below, z)| == 2 * |below|
    ensures |above| == 3 ==> |Crossings(above, below, z)| == 3 * |below|
  {
    if above != [] {
      CrossingCount(above[..|above| - 1], below, z);
    }
  }

  // ----- Cuts of a mesh

  /** An edge that crosses the plane, by its upper and its lower vertex. */
  datatype Cut = Cut(up: nat, down: nat)

  predicate IsCut(m: Mesh, z: real, c: Cut) {
    c.up < |m.vertices| && c.down < |m.vertices| && Up(m.vertices[c.up], z) && Down(m.vertices[c.down], z)
  }

  predicate HasVertex(f: Face, v: nat) {
    v == f.a || v == f.b || v == f.c
  }

  predicate CutsFace(m: Mesh, z: real, f: Face, c: Cut) {
    IsCut(m, z, c) && HasVertex(f, c.up) && HasVertex(f, c.down)
  }

  function CutPoint(m: Mesh, z: real, c: Cut): P2
    requires IsCut(m, z, c)
  {
    Crossing(m.vertices[c.up], m.vertices[c.down], z)
  }

  /** No corner of a face is within 1e-9 of the plane. */
  ghost predicate Clear(m: Mesh, z: real)
    requires m.Valid()
  {
    forall k | 0 <= k < |m.faces| :: ClearFace(m.At(m.faces[k]), z)
  }

  predicate ClearFace(t: Triangle, z: real) {
    !OnPlane(t.p, z) && !OnPlane(t.q, z) && !OnPlane(t.r, z)
  }

  /** The cut is of an edge of some face. */
  ghost predicate EdgeCut(m: Mesh, z: real, c: Cut)
    ensures EdgeCut(m, z, c) ==> IsCut(m, z, c)
  {
    exists k :: 0 <= k < |m.faces| && CutsFace(m, z, m.faces[k], c)
  }

  /** The vertex that is alone on its side of the plane, and the other two in the order of the face. */
  ghost predicate Alone(m: Mesh, z: real, f: Face, lone: nat, y: nat, w: nat, up: bool) {
    && lone < |m.vertices| && y < |m.vertices| && w < |m.vertices| && lone != y && y != w && lone != w
    && HasVertex(f, lone) && HasVertex(f, y) && HasVertex(f, w)
    && if up then Up(m.vertices[lone], z) && Down(m.vertices[y], z) && Down(m.vertices[w], z)
       else Down(m.vertices[lone], z) && Up(m.vertices[y], z) && Up(m.vertices[w], z)
  }

  /** The vertices above and below, in order. */
  ghost predicate SplitInto(t: Triangle, z: real, above: seq<Point>, below: seq<Point>) {
    Ups([t.p, t.q, t.r], z) == above && Downs([t.p, t.q, t.r], z) == below
  }

  lemma UpOrDown(v: Point, z: real)
    requires !OnPlane(v, z)
    ensures Up(v, z) != Down(v, z)
  {
  }

  lemma FindAlone(m: Mesh, z: real, f: Face) returns (lone: nat, y: nat, w: nat, up: bool)
    requires m.Fits(f) && f.a != f.b && f.b != f.c && f.a != f.c && SegmentOf(m.At(f), z).Some?
    ensures Alone(m, z, f, lone, y, w, up)
    ensures up ==> SplitInto(m.At(f), z, [m.vertices[lone]], [m.vertices[y], m.vertices[w]])
    ensures !up ==> SplitInto(m.At(f), z, [m.vertices[y], m.vertices[w]], [m.vertices[lone]])
  {
    hide Up, Down, SegmentOf, OnPlane, Ups, Downs;
    var t := m.At(f);
    CutIff(t, z);
    UpsOfThree(t, z);
    DownsOfThree(t, z);
    UpOrDown(t.p, z);
    UpOrDown(t.q, z);
    UpOrDown(t.r, z);
    var p, q, r := Up(t.p, z), Up(t.q, z), Up(t.r, z);
    if q == r {
      lone, y, w, up := f.a, f.b, f.c, p;
    } else if p == r {
      lone, y, w, up := f.b, f.a, f.c, q;
    } else {
      lone, y, w, up := f.c, f.a, f.b, r;
    }
  }

  /** The two cuts of a face, in the order in which the triangle is cut. */
  lemma CutsOfFace(m: Mesh, z: real, f: Face) returns (c: Cut, d: Cut)
    requires m.Fits(f) && f.a != f.b && f.b != f.c && f.a != f.c && SegmentOf(m.At(f), z).Some?
    ensures CutsFace(m, z, f, c) && CutsFace(m, z, f, d) && c != d
    ensures SegmentOf(m.At(f), z).value == Seg(CutPoint(m, z, c), CutPoint(m, z, d))
    ensures forall e | CutsFace(m, z, f, e) :: e == c || e == d
  {
    var lone, y, w, up := FindAlone(m, z, f);
    hide Up, Down, OnPlane, Ups, Downs, Crossing, Crossings;
    c, d := if up then Cut(lone, y) else Cut(y, lone), if up then Cut(lone, w) else Cut(w, lone);
    var vs := m.vertices;
    if up {
      FirstCrossings([vs[lone]], [vs[y], vs[w]], z, vs[lone], vs[y], vs[lone], vs[w]);
    } else {
      FirstCrossings([vs[y], vs[w]], [vs[lone]], z, vs[y], vs[lone], vs[w], vs[lone]);
    }
    forall e | CutsFace(m, z, f, e)
      ensures e == c || e == d
    {
      NotBoth(vs[e.up], z);
      NotBoth(vs[e.down], z);
      NotBoth(vs[lone], z);
      NotBoth(vs[y], z);
      NotBoth(vs[w], z);
    }
  }

  lemma NotBoth(v: Point, z: real)
    ensures !(Up(v, z) && Down(v, z))
  {
  }

  /** One above and two below, or two above and one below: the two crossings. */
  lemma FirstCrossings(above: seq<Point>, below: seq<Point>, z: real, u: Point, d: Point, u': Point, d': Point)
    requires Up(u, z) && Down(d, z) && Up(u', z) && Down(d', z)
    requires (above == [u] && below == [d, d'] && u == u') || (above == [u, u'] && below == [d] && d == d')
    ensures Crossings(above, below, z) == [Crossing(u, d, z), Crossing(u', d', z)]
  {
    hide Up, Down;
    assert above[..|above| - 1] == [] || (above[..|above| - 1] == [u] && [u][..0] == []);
    if |above| == 2 {
      assert Crossings([u], below, z) == [] + CrossingsFrom(u, below, z);
    }
  }

  // ----- Slicing a mesh

  /** The segments of a list of triangles, in order. */
  function SegmentsOf(ts: seq<Triangle>, z: real): seq<Seg> {
    if ts == [] then []
    else
      var s := SegmentOf(ts[|ts| - 1], z);
      SegmentsOf(ts[..|ts| - 1], z) + if s.Some? then [s.value] else []
  }

  /** The triangle each segment comes from. */
  function Owners(ts: seq<Triangle>, z: real): (ks: seq<nat>)
    ensures |ks| == |SegmentsOf(ts, z)| && forall i | 0 <= i < |ks| :: ks[i] < |ts|
  {
    if ts == [] then []
    else
      var n := |ts| - 1;
      Owners(ts[..n], z) + if SegmentOf(ts[n], z).Some? then [n] else []
  }

  lemma {:induction false} OwnersOf(ts: seq<Triangle>, z: real)
    ensures forall i | 0 <= i < |Owners(ts, z)| :: SegmentOf(ts[Owners(ts, z)[i]], z) == Some(SegmentsOf(ts, z)[i])
    ensures forall i, j | 0 <= i < j < |Owners(ts, z)| :: Owners(ts, z)[i] < Owners(ts, z)[j]
    ensures forall k | 0 <= k < |ts| && SegmentOf(ts[k], z).Some? :: k in Owners(ts, z)
  {
    hide SegmentOf;
    if ts != [] {
      OwnersOf(ts[..|ts| - 1], z);
    }
  }

  /** Cut all triangles and stitch the segments. */
  method SliceAtZ(ts: seq<Triangle>, z: real)
    returns (contours: seq<seq<P2>>, ghost chains: seq<seq<nat>>, ghost outlines: seq<seq<P2>>)
    ensures var segs := SegmentsOf(ts, z);
            && EachOnce(chains, |segs|) && AllWalks(segs, chains, outlines) && contours == LongOnes(outlines)
            && (Matched(segs) ==> AllCycles(segs, chains, contours))
    ensures forall c, p | 0 <= c < |contours| && p in contours[c] :: OnSurface(ts, p, z)
  {
    hide SegmentOf, EachOnce, AllWalks, AllCycles, Matched;
    var segs: seq<Seg> := [];
    var i := 0;
    while i < |ts|
      invariant 0 <= i <= |ts| && segs == SegmentsOf(ts[..i], z)
    {
      assert ts[..i + 1][..i] == ts[..i];
      var s := IntersectTriangle(ts[i], z);
      if s.Some? {
        segs := segs + [s.value];
      }
      i := i + 1;
    }
    assert ts[..i] == ts;
    if segs == [] {
      NoSegments();
      return [], [], [];
    }
    contours, chains, outlines := StitchSegments(segs);
    forall c: nat, p | c < |contours| && p in contours[c]
      ensures OnSurface(ts, p, z)
    {
      LongOnesAmong(outlines, contours[c]);
      var d: nat :| d < |outlines| && outlines[d] == contours[c];
      OutlineOnSegments(segs, chains, outlines, d, p);
      EndOnSurface(ts, z, p);
    }
  }

  /** The point is on an edge of one of the triangles, at the height of the plane. */
  ghost predicate OnSurface(ts: seq<Triangle>, p: P2, z: real) {
    exists k :: 0 <= k < |ts| && OnTriangle(ts[k], p, z)
  }

  lemma {:induction false} LongOnesAmong(outlines: seq<seq<P2>>, pts: seq<P2>)
    requires pts in LongOnes(outlines)
    ensures pts in outlines
  {
    if pts != outlines[|outlines| - 1] {
      LongOnesAmong(outlines[..|outlines| - 1], pts);
    }
  }

  lemma OutlineOnSegments(segs: seq<Seg>, chains: seq<seq<nat>>, outlines: seq<seq<P2>>, d: nat, p: P2)
    requires AllWalks(segs, chains, outlines) && d < |outlines| && p in outlines[d]
    ensures IsEnd(segs, p)
  {
    assert WalkOf(segs, chains[d], outlines[d]);
    var k: nat :| k < |outlines[d]| && outlines[d][k] == p;
    if ClosedWalk(segs, chains[d], outlines[d]) {
      var back: P2 :| Walk(segs, chains[d], outlines[d] + [back]);
      PointOfWalk(segs, chains[d], outlines[d] + [back], k);
    } else {
      PointOfWalk(segs, chains[d], outlines[d], k);
    }
  }

  lemma PointOfWalk(segs: seq<Seg>, chain: seq<nat>, pts: seq<P2>, k: nat)
    requires Walk(segs, chain, pts) && k < |pts|
    ensures IsEnd(segs, pts[k])
  {
    hide Close;
    if k <= 1 {
      assert Touches(segs[chain[0]], pts[k]);
    } else {
      assert Joins(segs[chain[k - 1]], pts[k - 1], pts[k]);
      assert Touches(segs[chain[k - 1]], pts[k]);
    }
  }

  lemma EndOnSurface(ts: seq<Triangle>, z: real, p: P2)
    requires IsEnd(SegmentsOf(ts, z), p)
    ensures OnSurface(ts, p, z)
  {
    hide SegmentOf, SegmentsOf, Owners, OnTriangle;
    var i: nat :| i < |SegmentsOf(ts, z)| && Touches(SegmentsOf(ts, z)[i], p);
    OwnersOf(ts, z);
    SegmentOnTriangle(ts[Owners(ts, z)[i]], z);
  }

  lemma NoSegments()
    ensures EachOnce([], 0) && AllWalks([], [], []) && AllCycles([], [], []) && LongOnes([]) == []
  {
  }

  // ----- Watertight meshes

  predicate HasEdge(f: Face, u: nat, v: nat) {
    HasVertex(f, u) && HasVertex(f, v)
  }

  predicate EdgeOn(m: Mesh, k: nat, u: nat, v: nat) {
    k < |m.faces| && HasEdge(m.faces[k], u, v) && u != v
  }

  ghost predicate HasNeighbour(m: Mesh, k: nat, u: nat, v: nat) {
    exists j :: j != k && EdgeOn(m, j, u, v)
  }

  /** Every edge is on exactly two faces. */
  ghost predicate EdgesTwice(m: Mesh) {
    && (forall k, u, v | EdgeOn(m, k, u, v) :: HasNeighbour(m, k, u, v))
    && (forall i, j, k, u, v | EdgeOn(m, i, u, v) && EdgeOn(m, j, u, v) && EdgeOn(m, k, u, v) :: i == j || j == k || i == k)
  }

  /** Two different faces share at most one edge: they do not have the same vertices. */
  ghost predicate NoTwins(m: Mesh) {
    forall i, j | 0 <= i < |m.faces| && 0 <= j < |m.faces| && SameVertices(m.faces[i], m.faces[j]) :: i == j
  }

  /** Faces have three different vertices, every edge is on exactly two faces, and no two faces share two edges. */
  ghost predicate Watertight(m: Mesh) {
    m.Valid() && (forall k | 0 <= k < |m.faces| :: Triangular(m.faces[k])) && EdgesTwice(m) && NoTwins(m)
  }

  predicate Triangular(f: Face) {
    f.a != f.b && f.b != f.c && f.a != f.c
  }

  predicate SameVertices(f: Face, g: Face) {
    HasVertex(g, f.a) && HasVertex(g, f.b) && HasVertex(g, f.c)
  }

  /** Different edges cross the plane more than 1e-6 apart. */
  ghost predicate CutsApart(m: Mesh, z: real) {
    forall c, d | EdgeCut(m, z, c) && EdgeCut(m, z, d) && Close(CutPoint(m, z, c), CutPoint(m, z, d)) :: c == d
  }

  /** What slicing this mesh at this height takes. */
  ghost predicate Sliceable(m: Mesh, z: real) {
    Watertight(m) && Clear(m, z) && CutsApart(m, z)
  }

  ghost function FaceOf(m: Mesh, z: real, i: nat): (k: nat)
    requires m.Valid() && i < |SegmentsOf(m.Triangles(), z)|
    ensures k < |m.faces|
  {
    Owners(m.Triangles(), z)[i]
  }

  /** The ends of a segment are the two cuts of its face. */
  lemma CutsOfSegment(m: Mesh, z: real, i: nat) returns (c: Cut, d: Cut)
    requires Sliceable(m, z) && i < |SegmentsOf(m.Triangles(), z)|
    ensures var f, s := m.faces[FaceOf(m, z, i)], SegmentsOf(m.Triangles(), z)[i];
            && CutsFace(m, z, f, c) && CutsFace(m, z, f, d) && c != d && s == Seg(CutPoint(m, z, c), CutPoint(m, z, d))
            && forall e | CutsFace(m, z, f, e) :: e == c || e == d
  {
    hide SegmentOf, IsCut;
    OwnersOf(m.Triangles(), z);
    var f := m.faces[FaceOf(m, z, i)];
    assert m.Fits(f) && Triangular(f);
    c, d := CutsOfFace(m, z, f);
  }

  /** A segment touches the point of a cut exactly when the cut is one of its face's. */
  lemma TouchesIff(m: Mesh, z: real, i: nat, e: Cut)
    requires Sliceable(m, z) && i < |SegmentsOf(m.Triangles(), z)| && EdgeCut(m, z, e)
    ensures Touches(SegmentsOf(m.Triangles(), z)[i], CutPoint(m, z, e)) <==> CutsFace(m, z, m.faces[FaceOf(m, z, i)], e)
  {
    var c, d := CutsOfSegment(m, z, i);
    hide IsCut, CutPoint, Close, Watertight, SegmentsOf;
    CloseToItself(CutPoint(m, z, e));
  }

  /** Every end of a segment is the point of a cut. */
  lemma EndIsCut(m: Mesh, z: real, i: nat, p: P2) returns (e: Cut)
    requires Sliceable(m, z) && i < |SegmentsOf(m.Triangles(), z)| && Touches(SegmentsOf(m.Triangles(), z)[i], p)
    ensures IsCut(m, z, e) && p == CutPoint(m, z, e) && CutsFace(m, z, m.faces[FaceOf(m, z, i)], e)
  {
    var c, d := CutsOfSegment(m, z, i);
    hide IsCut, CutPoint, Sliceable, SegmentsOf;
    e := if p == CutPoint(m, z, c) then c else d;
  }

  /** A face with a cut yields a segment. */
  lemma SegmentOfFace(m: Mesh, z: real, k: nat, e: Cut) returns (i: nat)
    requires Sliceable(m, z) && k < |m.faces| && CutsFace(m, z, m.faces[k], e)
    ensures i < |SegmentsOf(m.Triangles(), z)| && FaceOf(m, z, i) == k
  {
    var ts := m.Triangles();
    assert m.Fits(m.faces[k]);
    CutIff(ts[k], z);
    OwnersOf(ts, z);
    assert k in Owners(ts, z);
    i :| 0 <= i < |Owners(ts, z)| && Owners(ts, z)[i] == k;
  }

  lemma DifferentFaces(m: Mesh, z: real, i: nat, j: nat)
    requires m.Valid() && i < |SegmentsOf(m.Triangles(), z)| && j < |SegmentsOf(m.Triangles(), z)|
    ensures FaceOf(m, z, i) == FaceOf(m, z, j) <==> i == j
  {
    hide SegmentOf;
    OwnersOf(m.Triangles(), z);
  }

  // ----- The segments of a watertight mesh belong to closed curves

  lemma SegmentsDistinguished(m: Mesh, z: real)
    requires Sliceable(m, z)
    ensures Distinguished(SegmentsOf(m.Triangles(), z))
  {
    var segs := SegmentsOf(m.Triangles(), z);
    hide SegmentsOf, Close, IsCut, CutPoint, Watertight, Clear;
    forall p, q | IsEnd(segs, p) && IsEnd(segs, q) && Close(p, q)
      ensures p == q
    {
      var i :| 0 <= i < |segs| && Touches(segs[i], p);
      var j :| 0 <= j < |segs| && Touches(segs[j], q);
      var c := EndIsCut(m, z, i, p);
      var d := EndIsCut(m, z, j, q);
    }
  }

  lemma OtherFace(m: Mesh, z: real, k: nat, e: Cut) returns (j: nat)
    requires Watertight(m) && k < |m.faces| && CutsFace(m, z, m.faces[k], e)
    ensures j < |m.faces| && j != k && CutsFace(m, z, m.faces[j], e)
  {
    CutIsEdge(m, z, e);
    assert EdgeOn(m, k, e.up, e.down);
    assert HasNeighbour(m, k, e.up, e.down);
    j :| j != k && EdgeOn(m, j, e.up, e.down);
  }

  lemma CutIsEdge(m: Mesh, z: real, e: Cut)
    requires IsCut(m, z, e)
    ensures e.up != e.down
  {
  }

  lemma AtMostTwoFaces(m: Mesh, z: real, i: nat, j: nat, k: nat, e: Cut)
    requires Watertight(m) && i < |m.faces| && j < |m.faces| && k < |m.faces|
    requires CutsFace(m, z, m.faces[i], e) && CutsFace(m, z, m.faces[j], e) && CutsFace(m, z, m.faces[k], e)
    ensures i == j || j == k || i == k
  {
    CutIsEdge(m, z, e);
    assert EdgeOn(m, i, e.up, e.down) && EdgeOn(m, j, e.up, e.down) && EdgeOn(m, k, e.up, e.down);
  }

  lemma PartnerExists(m: Mesh, z: real, i: nat, p: P2)
    requires Sliceable(m, z) && i < |SegmentsOf(m.Triangles(), z)| && Touches(SegmentsOf(m.Triangles(), z)[i], p)
    ensures HasPartner(SegmentsOf(m.Triangles(), z), i, p)
  {
    hide SegmentsOf, Close, IsCut, CutPoint, CutsFace, EdgesTwice, NoTwins, Clear, CutsApart, FaceOf, Touches;
    var e := EndIsCut(m, z, i, p);
    CutOfFace(m, z, m.faces[FaceOf(m, z, i)], e);
    var k := OtherFace(m, z, FaceOf(m, z, i), e);
    var j := SegmentOfFace(m, z, k, e);
    TouchesIff(m, z, j, e);
  }

  lemma CutOfFace(m: Mesh, z: real, f: Face, e: Cut)
    requires CutsFace(m, z, f, e)
    ensures IsCut(m, z, e)
  {
  }

  lemma NeverThree(m: Mesh, z: real, i: nat, j: nat, k: nat, p: P2)
    requires Sliceable(m, z)
    requires var segs := SegmentsOf(m.Triangles(), z);
             && i < |segs| && j < |segs| && k < |segs| && Touches(segs[i], p) && Touches(segs[j], p) && Touches(segs[k], p)
    ensures i == j || j == k || i == k
  {
    hide SegmentsOf, Close, IsCut, CutPoint, CutsFace, EdgesTwice, NoTwins, Clear, CutsApart, FaceOf, Touches;
    var e := EndIsCut(m, z, i, p);
    TouchesIff(m, z, j, e);
    TouchesIff(m, z, k, e);
    AtMostTwoFaces(m, z, FaceOf(m, z, i), FaceOf(m, z, j), FaceOf(m, z, k), e);
    DifferentFaces(m, z, i, j);
    DifferentFaces(m, z, j, k);
    DifferentFaces(m, z, i, k);
  }

  lemma SegmentsPaired(m: Mesh, z: real)
    requires Sliceable(m, z)
    ensures Paired(SegmentsOf(m.Triangles(), z))
  {
    var segs := SegmentsOf(m.Triangles(), z);
    hide SegmentsOf, Sliceable, HasPartner, Touches;
    forall i: nat, p | i < |segs| && Touches(segs[i], p)
      ensures HasPartner(segs, i, p)
    {
      PartnerExists(m, z, i, p);
    }
    forall i: nat, j: nat, k: nat, p | i < |segs| && j < |segs| && k < |segs| && Touches(segs[i], p)
      && Touches(segs[j], p) && Touches(segs[k], p)
      ensures i == j || j == k || i == k
    {
      NeverThree(m, z, i, j, k, p);
    }
  }

  /** Two different cuts of two faces make them the same face. */
  lemma SharedCuts(m: Mesh, z: real, i: nat, j: nat, c: Cut, d: Cut)
    requires Watertight(m) && i < |m.faces| && j < |m.faces| && c != d
    requires CutsFace(m, z, m.faces[i], c) && CutsFace(m, z, m.faces[i], d)
    requires CutsFace(m, z, m.faces[j], c) && CutsFace(m, z, m.faces[j], d)
    ensures i == j
  {
    var f := m.faces[i];
    NotBoth(m.vertices[c.up], z);
    NotBoth(m.vertices[c.down], z);
    NotBoth(m.vertices[d.up], z);
    NotBoth(m.vertices[d.down], z);
    hide Up, Down;
    assert Triangular(f) && Triangular(m.faces[j]);
    assert SameVertices(f, m.faces[j]);
  }

  lemma SegmentsProper(m: Mesh, z: real)
    requires Sliceable(m, z)
    ensures Proper(SegmentsOf(m.Triangles(), z))
  {
    var segs := SegmentsOf(m.Triangles(), z);
    hide SegmentsOf, Close, IsCut, CutPoint, Watertight, Clear, FaceOf, Touches;
    forall i: nat | i < |segs|
      ensures segs[i].a != segs[i].b
    {
      var c, d := CutsOfSegment(m, z, i);
      CloseToItself(segs[i].a);
    }
    forall i: nat, j: nat | i < |segs| && j < |segs| && Touches(segs[j], segs[i].a) && Touches(segs[j], segs[i].b)
      ensures i == j
    {
      var c, d := CutsOfSegment(m, z, i);
      TouchesIff(m, z, j, c);
      TouchesIff(m, z, j, d);
      SharedCuts(m, z, FaceOf(m, z, i), FaceOf(m, z, j), c, d);
      DifferentFaces(m, z, i, j);
    }
  }

  /** Both faces at an edge compute the same crossing point, because the pair is always taken from above to below; so the
    segments of a watertight mesh meet in pairs. */
  lemma SegmentsMatched(m: Mesh, z: real)
    requires Sliceable(m, z)
    ensures Matched(SegmentsOf(m.Triangles(), z))
  {
    SegmentsDistinguished(m, z);
    SegmentsPaired(m, z);
    SegmentsProper(m, z);
  }

  /** The slice of a watertight mesh at a plane clear of its vertices: every contour is a simple closed polygon whose sides
    are segments, every segment is a side of exactly one contour, and different contours have no point in common. */
  method SliceMesh(m: Mesh, z: real) returns (contours: seq<seq<P2>>, ghost chains: seq<seq<nat>>)
    requires Sliceable(m, z)
    ensures var segs := SegmentsOf(m.Triangles(), z);
            EachOnce(chains, |segs|) && AllCycles(segs, chains, contours)
    ensures forall c, d, p | 0 <= c < d < |contours| && p in contours[c] :: p !in contours[d]
    ensures forall c, p | 0 <= c < |contours| && p in contours[c] :: OnSurface(m.Triangles(), p, z)
  {
    hide EachOnce, Matched, SegmentsOf;
    ghost var outlines;
    contours, chains, outlines := SliceAtZ(m.Triangles(), z);
    SegmentsMatched(m, z);
    forall c: nat, d: nat, p | c < d < |contours| && p in contours[c]
      ensures p !in contours[d]
    {
      ContoursDisjoint(SegmentsOf(m.Triangles(), z), chains, contours, c, d, p);
    }
  }
}
