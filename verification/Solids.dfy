/** Faceted solids: triangles over a vertex pool that merges coincident corners
  (tpt-vertex-kernel/src/geometry/solid.rs). */
module Solids {
  import opened Magnitudes
  import opened Points

  /** Three vertex indices. */
  datatype Face = Face(a: nat, b: nat, c: nat)

  /** Three corner positions, in winding order. */
  datatype Triangle = Triangle(p: Point, q: Point, r: Point)

  /** An undirected edge, smaller vertex first. */
  datatype Edge = Edge(lo: nat, hi: nat)

  function EdgeOf(a: nat, c: nat): Edge {
    if a <= c then Edge(a, c) else Edge(c, a)
  }

  /** A solid as a value. */
  datatype Mesh = Mesh(vertices: seq<Point>, faces: seq<Face>)
  {
    ghost predicate Valid() {
      forall k | 0 <= k < |faces| :: Fits(faces[k])
    }

    predicate Fits(f: Face) {
      f.a < |vertices| && f.b < |vertices| && f.c < |vertices|
    }

    function At(f: Face): Triangle
      requires Fits(f)
    {
      Triangle(vertices[f.a], vertices[f.b], vertices[f.c])
    }

    /** The faces by their corner positions. */
    function Triangles(): (ts: seq<Triangle>)
      requires Valid()
      ensures |ts| == |faces|
    {
      seq(|faces|, k requires 0 <= k < |faces| => At(faces[k]))
    }
  }

  const MERGING: real := 0.0000001

  /** Closer than the merging distance of 1e-7. */
  predicate Near(p: Point, q: Point) {
    SquaredDistance(p, q) < 0.00000000000001
  }

  /** Near points differ by less than 1e-7 along each axis; points that differ by less than 1e-7 in all are near. */
  lemma NearAlongAxes(p: Point, q: Point)
    ensures Near(p, q) ==> Size(p.x - q.x) < MERGING && Size(p.y - q.y) < MERGING && Size(p.z - q.z) < MERGING
    ensures Size(p.x - q.x) + Size(p.y - q.y) + Size(p.z - q.z) < MERGING ==> Near(p, q)
  {
    SquaresBelow(Size(p.x - q.x), Size(p.y - q.y), Size(p.z - q.z), MERGING);
    assert MERGING * MERGING == 0.00000000000001;
  }

  lemma NearSymmetric(p: Point, q: Point)
    ensures Near(p, q) == Near(q, p)
  {
    SquareOfOpposite(p.x, q.x);
    SquareOfOpposite(p.y, q.y);
    SquareOfOpposite(p.z, q.z);
  }

  lemma SquareOfOpposite(x: real, y: real)
    ensures (x - y) * (x - y) == (y - x) * (y - x)
  {
  }

  /** The first pooled point near `v`, scanning from index `i`; the pool's length if there is none. */
  function FirstNear(pool: seq<Point>, v: Point, i: nat): (k: nat)
    requires i <= |pool|
    ensures i <= k <= |pool|
    decreases |pool| - i
  {
    if i == |pool| || Near(pool[i], v) then i else FirstNear(pool, v, i + 1)
  }

  lemma {:induction false} FirstNearIsNear(pool: seq<Point>, v: Point, i: nat)
    requires i <= |pool|
    ensures var k := FirstNear(pool, v, i); (k < |pool| ==> Near(pool[k], v)) && forall j | i <= j < k :: !Near(pool[j], v)
    decreases |pool| - i
  {
    if i < |pool| && !Near(pool[i], v) {
      FirstNearIsNear(pool, v, i + 1);
    }
  }

  function Pooled(pool: seq<Point>, v: Point): (after: seq<Point>)
    ensures pool <= after && FirstNear(pool, v, 0) < |after|
  {
    if FirstNear(pool, v, 0) < |pool| then pool else pool + [v]
  }

  /** The mesh after one more triangle. */
  function WithTriangle(m: Mesh, t: Triangle): (n: Mesh)
    requires m.Valid()
    ensures n.Valid() && |n.faces| == |m.faces| + 1
  {
    var p1 := Pooled(m.vertices, t.p);
    var p2 := Pooled(p1, t.q);
    var p3 := Pooled(p2, t.r);
    Mesh(p3, m.faces + [Face(FirstNear(m.vertices, t.p, 0), FirstNear(p1, t.q, 0), FirstNear(p2, t.r, 0))])
  }

  function WithTriangles(m: Mesh, ts: seq<Triangle>): (n: Mesh)
    requires m.Valid()
    ensures n.Valid() && |n.faces| == |m.faces| + |ts|
    decreases |ts|
  {
    if ts == [] then m else WithTriangle(WithTriangles(m, ts[..|ts| - 1]), ts[|ts| - 1])
  }

  /** The solid under construction. */
  class Solid {
    var vertices: seq<Point>
    var faces: seq<Face>

    constructor ()
      ensures State() == Mesh([], [])
    {
      vertices, faces := [], [];
    }

    function State(): Mesh
      reads this
    {
      Mesh(vertices, faces)
    }

    /** Index of the first vertex near `v`, which is appended if there is none. */
    method PushDedup(v: Point) returns (i: nat)
      modifies this`vertices
      ensures i == FirstNear(old(vertices), v, 0) && vertices == Pooled(old(vertices), v)
    {
      i := 0;
      while i < |vertices|
        invariant 0 <= i <= |vertices| && FirstNear(vertices, v, i) == FirstNear(vertices, v, 0)
      {
        if Near(vertices[i], v) {
          return;
        }
        i := i + 1;
      }
      vertices := vertices + [v];
    }

    method AddTriangle(t: Triangle)
      requires State().Valid()
      modifies this
      ensures State() == WithTriangle(old(State()), t)
    {
      var ia := PushDedup(t.p);
      var ib := PushDedup(t.q);
      var ic := PushDedup(t.r);
      faces := faces + [Face(ia, ib, ic)];
    }
  }

  // ----- What merging does to the triangles

  const EMPTY := Mesh([], [])

  ghost predicate FarApart(pool: seq<Point>) {
    forall i, j | 0 <= i < j < |pool| :: !Near(pool[i], pool[j])
  }

  ghost predicate OneOf(ts: seq<Triangle>, v: Point) {
    exists k :: 0 <= k < |ts| && IsCorner(ts[k], v)
  }

  predicate IsCorner(t: Triangle, v: Point) {
    v == t.p || v == t.q || v == t.r
  }

  /** No two different corners are near each other. */
  ghost predicate Separated(ts: seq<Triangle>) {
    forall v, w | OneOf(ts, v) && OneOf(ts, w) && Near(v, w) :: v == w
  }

  lemma SelfNear(v: Point)
    ensures Near(v, v)
  {
  }

  lemma PooledFarApart(pool: seq<Point>, v: Point)
    requires FarApart(pool)
    ensures FarApart(Pooled(pool, v))
  {
    FirstNearIsNear(pool, v, 0);
  }

  /** The pool holds only corners of the triangles, never two near each other. */
  ghost predicate PoolOf(pool: seq<Point>, ts: seq<Triangle>) {
    FarApart(pool) && forall i | 0 <= i < |pool| :: OneOf(ts, pool[i])
  }

  lemma PooledFrom(pool: seq<Point>, ts: seq<Triangle>, v: Point)
    requires PoolOf(pool, ts) && OneOf(ts, v)
    ensures PoolOf(Pooled(pool, v), ts)
  {
    PooledFarApart(pool, v);
  }

  lemma CornerOfMore(ts: seq<Triangle>, v: Point)
    requires ts != [] && OneOf(ts[..|ts| - 1], v)
    ensures OneOf(ts, v)
  {
    var k :| 0 <= k < |ts| - 1 && IsCorner(ts[..|ts| - 1][k], v);
    assert IsCorner(ts[k], v);
  }

  lemma LastCorners(ts: seq<Triangle>)
    requires ts != []
    ensures var t := ts[|ts| - 1]; OneOf(ts, t.p) && OneOf(ts, t.q) && OneOf(ts, t.r)
  {
    var t := ts[|ts| - 1];
    assert IsCorner(ts[|ts| - 1], t.p) && IsCorner(ts[|ts| - 1], t.q) && IsCorner(ts[|ts| - 1], t.r);
  }

  lemma {:induction false} LoadedPool(ts: seq<Triangle>)
    ensures PoolOf(WithTriangles(EMPTY, ts).vertices, ts)
  {
    if ts != [] {
      var rest, t := ts[..|ts| - 1], ts[|ts| - 1];
      LoadedPool(rest);
      var pool := WithTriangles(EMPTY, rest).vertices;
      forall i | 0 <= i < |pool|
        ensures OneOf(ts, pool[i])
      {
        CornerOfMore(ts, pool[i]);
      }
      LastCorners(ts);
      PooledFrom(pool, ts, t.p);
      PooledFrom(Pooled(pool, t.p), ts, t.q);
      PooledFrom(Pooled(Pooled(pool, t.p), t.q), ts, t.r);
    }
  }

  /** The corners `s` are those of `t`, each moved by less than the merging distance. */
  ghost predicate Snapped(s: Triangle, t: Triangle) {
    Near(s.p, t.p) && Near(s.q, t.q) && Near(s.r, t.r)
  }

  lemma GrownPool(m: Mesh, n: Mesh, k: nat)
    requires m.Valid() && n.Valid() && m.vertices <= n.vertices && m.faces <= n.faces && k < |m.faces|
    ensures n.Triangles()[k] == m.Triangles()[k]
  {
    assert n.faces[k] == m.faces[k] && m.Fits(m.faces[k]);
  }

  lemma PooledNear(pool: seq<Point>, v: Point)
    ensures Near(Pooled(pool, v)[FirstNear(pool, v, 0)], v)
  {
    FirstNearIsNear(pool, v, 0);
    SelfNear(v);
  }

  lemma AddedTriangle(m: Mesh, t: Triangle)
    requires m.Valid()
    ensures var n := WithTriangle(m, t);
            && n.Triangles()[..|m.faces|] == m.Triangles() && m.vertices <= n.vertices
            && Snapped(n.Triangles()[|m.faces|], t)
  {
    var n := WithTriangle(m, t);
    forall k | 0 <= k < |m.faces|
      ensures n.Triangles()[k] == m.Triangles()[k]
    {
      GrownPool(m, n, k);
    }
    var p1 := Pooled(m.vertices, t.p);
    var p2 := Pooled(p1, t.q);
    PooledNear(m.vertices, t.p);
    PooledNear(p1, t.q);
    PooledNear(p2, t.r);
  }

  ghost predicate AllSnapped(us: seq<Triangle>, ts: seq<Triangle>) {
    |us| == |ts| && forall k | 0 <= k < |ts| :: Snapped(us[k], ts[k])
  }

  lemma OneMoreSnapped(us: seq<Triangle>, ts: seq<Triangle>)
    requires ts != [] && |us| == |ts| && AllSnapped(us[..|us| - 1], ts[..|ts| - 1])
    requires Snapped(us[|us| - 1], ts[|ts| - 1])
    ensures AllSnapped(us, ts)
  {
    forall k | 0 <= k < |ts|
      ensures Snapped(us[k], ts[k])
    {
      if k < |ts| - 1 {
        assert Snapped(us[..|us| - 1][k], ts[..|ts| - 1][k]);
      }
    }
  }

  /** Loading keeps the number, the order and the winding of the triangles, and moves no corner by 1e-7 or more. */
  lemma {:induction false} LoadedNearby(ts: seq<Triangle>)
    ensures AllSnapped(WithTriangles(EMPTY, ts).Triangles(), ts)
  {
    if ts != [] {
      LoadedNearby(ts[..|ts| - 1]);
      AddedTriangle(WithTriangles(EMPTY, ts[..|ts| - 1]), ts[|ts| - 1]);
      OneMoreSnapped(WithTriangles(EMPTY, ts).Triangles(), ts);
    }
  }

  /** Every corner of a loaded triangle is a pooled point, so a corner of some given triangle. */
  lemma LoadedCorner(ts: seq<Triangle>, v: Point)
    requires OneOf(WithTriangles(EMPTY, ts).Triangles(), v)
    ensures v in WithTriangles(EMPTY, ts).vertices && OneOf(ts, v)
  {
    var m := WithTriangles(EMPTY, ts);
    var k :| 0 <= k < |m.Triangles()| && IsCorner(m.Triangles()[k], v);
    assert m.Fits(m.faces[k]);
    LoadedPool(ts);
  }

  /** If no two different corners are near each other, loading is exact. */
  lemma SeparatedLoadsExactly(ts: seq<Triangle>)
    requires Separated(ts)
    ensures WithTriangles(EMPTY, ts).Triangles() == ts
  {
    var us := WithTriangles(EMPTY, ts).Triangles();
    LoadedNearby(ts);
    forall k | 0 <= k < |ts|
      ensures us[k] == ts[k]
    {
      var s, t := us[k], ts[k];
      assert Snapped(s, t);
      assert IsCorner(us[k], s.p) && IsCorner(us[k], s.q) && IsCorner(us[k], s.r);
      assert IsCorner(ts[k], t.p) && IsCorner(ts[k], t.q) && IsCorner(ts[k], t.r);
      LoadedCorner(ts, s.p);
      LoadedCorner(ts, s.q);
      LoadedCorner(ts, s.r);
    }
  }

  lemma SameCorners(ts: seq<Triangle>, us: seq<Triangle>, v: Point)
    requires multiset(ts) == multiset(us) && OneOf(ts, v)
    ensures OneOf(us, v)
  {
    var k :| 0 <= k < |ts| && IsCorner(ts[k], v);
    assert ts[k] in multiset(us);
    var j :| 0 <= j < |us| && us[j] == ts[k];
  }

  lemma NearInPool(pool: seq<Point>, v: Point, w: Point)
    requires FarApart(pool) && v in pool && w in pool && Near(v, w)
    ensures v == w
  {
    var i :| 0 <= i < |pool| && pool[i] == v;
    var j :| 0 <= j < |pool| && pool[j] == w;
    NearSymmetric(v, w);
  }

  lemma SeparatedOrder(ts: seq<Triangle>, us: seq<Triangle>)
    requires multiset(ts) == multiset(us) && Separated(ts)
    ensures Separated(us)
  {
    forall v, w | OneOf(us, v) && OneOf(us, w) && Near(v, w)
      ensures v == w
    {
      SameCorners(us, ts, v);
      SameCorners(us, ts, w);
    }
  }

  lemma ExactLoadSeparated(ts: seq<Triangle>)
    requires multiset(WithTriangles(EMPTY, ts).Triangles()) == multiset(ts)
    ensures Separated(ts)
  {
    var m := WithTriangles(EMPTY, ts);
    LoadedPool(ts);
    forall v, w | OneOf(ts, v) && OneOf(ts, w) && Near(v, w)
      ensures v == w
    {
      SameCorners(ts, m.Triangles(), v);
      SameCorners(ts, m.Triangles(), w);
      LoadedCorner(ts, v);
      LoadedCorner(ts, w);
      NearInPool(m.vertices, v, w);
    }
  }

  /** Loading recovers the multiset of triangles exactly when no two different corners are near each other. */
  lemma LoadsExactlyIff(ts: seq<Triangle>)
    ensures multiset(WithTriangles(EMPTY, ts).Triangles()) == multiset(ts) <==> Separated(ts)
  {
    if Separated(ts) {
      SeparatedLoadsExactly(ts);
    }
    if multiset(WithTriangles(EMPTY, ts).Triangles()) == multiset(ts) {
      ExactLoadSeparated(ts);
    }
  }

  /** Its first two corners are 1e-8 apart. */
  const SLIM := Triangle(Point(0.0, 0.0, 0.0), Point(0.00000001, 0.0, 0.0), Point(0.0, 1.0, 0.0))

  lemma ZeroSquare(x: real)
    requires x == 0.0
    ensures x * x == 0.0
  {
  }

  lemma SmallSquare(x: real, least: real)
    requires 0.0 <= x <= least
    ensures x * x <= least * least
  {
    assert x * (least - x) >= 0.0;
    assert least * (least - x) >= 0.0;
  }

  /** Two points on a line along an axis. */
  lemma AlongFirstAxis(p: Point, q: Point)
    requires p.y == q.y && p.z == q.z
    ensures SquaredDistance(p, q) == (q.x - p.x) * (q.x - p.x)
  {
    ZeroSquare(p.y - q.y);
    ZeroSquare(p.z - q.z);
    SquareOfOpposite(p.x, q.x);
  }

  lemma NearAlongFirstAxis(p: Point, q: Point)
    requires p.y == q.y && p.z == q.z && 0.0 <= q.x - p.x <= 0.00000001
    ensures Near(p, q)
  {
    AlongFirstAxis(p, q);
    hide SquaredDistance;
    SmallSquare(q.x - p.x, 0.00000001);
    assert 0.00000001 * 0.00000001 < 0.00000000000001;
  }

  lemma FarAlongSecondAxis(p: Point, q: Point)
    requires p.x == q.x && p.z == q.z && q.y - p.y == 1.0
    ensures !Near(p, q)
  {
    ZeroSquare(p.x - q.x);
    ZeroSquare(p.z - q.z);
    assert p.y - q.y == -1.0;
  }

  lemma SlimDistances()
    ensures Near(SLIM.p, SLIM.q) && !Near(SLIM.p, SLIM.r) && SLIM.p != SLIM.q
  {
    NearAlongFirstAxis(SLIM.p, SLIM.q);
    FarAlongSecondAxis(SLIM.p, SLIM.r);
    hide Near;
  }

  lemma NotSeparated(ts: seq<Triangle>, v: Point, w: Point)
    requires OneOf(ts, v) && OneOf(ts, w) && Near(v, w) && v != w
    ensures !Separated(ts)
  {
  }

  lemma LoadedMerged(t: Triangle)
    requires Near(t.p, t.q) && !Near(t.p, t.r)
    ensures WithTriangles(EMPTY, [t]) == Mesh([t.p, t.r], [Face(0, 0, 1)])
    ensures WithTriangles(EMPTY, [t]).Triangles() == [Triangle(t.p, t.p, t.r)]
  {
    hide Near;
    assert [t][..0] == [] && WithTriangles(EMPTY, []) == EMPTY;
    var pool := [t.p];
    assert Pooled([], t.p) == pool && FirstNear(pool, t.q, 0) == 0;
    assert FirstNear(pool, t.r, 0) == FirstNear(pool, t.r, 1) == 1;
    assert WithTriangles(EMPTY, [t]) == WithTriangle(EMPTY, t);
  }

  lemma MergedIsDifferent(t: Triangle)
    requires Near(t.p, t.q) && !Near(t.p, t.r) && t.p != t.q
    ensures !Separated([t])
    ensures WithTriangles(EMPTY, [t]).Triangles() == [Triangle(t.p, t.p, t.r)]
    ensures multiset(WithTriangles(EMPTY, [t]).Triangles()) != multiset([t])
  {
    LoadedMerged(t);
    hide Near, WithTriangles;
    assert IsCorner([t][0], t.p) && IsCorner([t][0], t.q);
    NotSeparated([t], t.p, t.q);
    assert t !in multiset([Triangle(t.p, t.p, t.r)]);
  }

  /** The failing case: a triangle with two corners nearer than 1e-7 comes back with these two merged. */
  lemma NearCornersMerge()
    ensures !Separated([SLIM])
    ensures WithTriangles(EMPTY, [SLIM]).Triangles() == [Triangle(SLIM.p, SLIM.p, SLIM.r)]
    ensures multiset(WithTriangles(EMPTY, [SLIM]).Triangles()) != multiset([SLIM])
  {
    SlimDistances();
    hide Near, Separated, WithTriangles;
    MergedIsDifferent(SLIM);
  }
}
