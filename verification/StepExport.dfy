/** Writing a faceted solid as STEP records (manufacturing/src/step.rs), and the
  round trip with the reader. Coordinates go through an arbitrary rounding `q`,
  which stands for printing nine decimals and parsing them again. */
module StepExport {
  import opened Options
  import opened Points
  import opened Solids
  import opened StepImport

  type Rounding = Point -> Point

  /** The oriented edges of one face. */
  datatype Sides = Sides(ab: nat, bc: nat, ca: nat)

  // ----- Records

  function PointRecord(p: Point): Record { Record(CARTESIAN_POINT, [], Some(p), false) }
  function VertexRecord(point: nat): Record { Record(VERTEX_POINT, [point], None, false) }
  function CurveRecord(v0: nat, v1: nat, line: nat): Record { Record(EDGE_CURVE, [v0, v1, line], None, false) }
  function OrientedRecord(curve: nat, forward: bool): Record { Record(ORIENTED_EDGE, [curve], None, !forward) }
  function LoopRecord(s: Sides): Record { Record(EDGE_LOOP, [s.ab, s.bc, s.ca], None, false) }
  function BoundRecord(loop: nat): Record { Record(FACE_OUTER_BOUND, [loop], None, false) }
  function FaceRecord(bound: nat, plane: nat): Record { Record(ADVANCED_FACE, [bound, plane], None, false) }
  function Plain(name: string, refs: seq<nat>): Record { Record(OTHER(name), refs, None, false) }

  /** Identifiers count from 1 in the order of writing. */
  class StepBuilder {
    var lines: seq<Record>

    constructor ()
      ensures lines == []
    {
      lines := [];
    }

    method Line(r: Record) returns (id: nat)
      modifies this
      ensures lines == old(lines) + [r] && id == |lines|
    {
      lines := lines + [r];
      id := |lines|;
    }
  }

  // ----- What has been written

  predicate Is(lines: seq<Record>, id: nat, r: Record) {
    1 <= id <= |lines| && lines[id - 1] == r
  }

  predicate OfKind(lines: seq<Record>, id: nat, kw: Keyword) {
    1 <= id <= |lines| && lines[id - 1].kw == kw
  }

  predicate HasKind(lines: seq<Record>, id: nat, kw: Keyword, arity: nat) {
    OfKind(lines, id, kw) && |lines[id - 1].refs| == arity
  }

  predicate VertexWritten(lines: seq<Record>, id: nat, p: Point) {
    HasKind(lines, id, VERTEX_POINT, 1) && Is(lines, lines[id - 1].refs[0], PointRecord(p))
  }

  predicate CurveWritten(lines: seq<Record>, id: nat, v0: nat, v1: nat) {
    HasKind(lines, id, EDGE_CURVE, 3) && lines[id - 1].refs[0] == v0 && lines[id - 1].refs[1] == v1
  }

  predicate SideWritten(lines: seq<Record>, curves: map<Edge, nat>, id: nat, a: nat, c: nat) {
    EdgeOf(a, c) in curves && Is(lines, id, OrientedRecord(curves[EdgeOf(a, c)], a <= c))
  }

  predicate SidesWritten(lines: seq<Record>, curves: map<Edge, nat>, s: Sides, f: Face) {
    && SideWritten(lines, curves, s.ab, f.a, f.b) && SideWritten(lines, curves, s.bc, f.b, f.c)
    && SideWritten(lines, curves, s.ca, f.c, f.a)
  }

  predicate BoundWritten(lines: seq<Record>, id: nat, s: Sides) {
    HasKind(lines, id, FACE_OUTER_BOUND, 1) && Is(lines, lines[id - 1].refs[0], LoopRecord(s))
  }

  predicate FaceWritten(lines: seq<Record>, id: nat, s: Sides) {
    && HasKind(lines, id, ADVANCED_FACE, 2) && BoundWritten(lines, lines[id - 1].refs[0], s)
    && HasKind(lines, lines[id - 1].refs[1], OTHER("PLANE"), 1)
  }

  ghost predicate VerticesWritten(lines: seq<Record>, mesh: Mesh, q: Rounding, vps: seq<nat>) {
    |vps| <= |mesh.vertices| && forall v | 0 <= v < |vps| :: VertexWritten(lines, vps[v], q(mesh.vertices[v]))
  }

  /** The curve table: one record per edge, between the right vertices, and no other EDGE_CURVE in the file. */
  ghost predicate CurvesWritten(lines: seq<Record>, vps: seq<nat>, curves: map<Edge, nat>) {
    && (forall e | e in curves :: e.lo <= e.hi < |vps| && CurveWritten(lines, curves[e], vps[e.lo], vps[e.hi]))
    && (forall e, e' | e in curves && e' in curves && curves[e] == curves[e'] :: e == e')
    && (forall id | OfKind(lines, id, EDGE_CURVE) :: exists e :: e in curves && curves[e] == id)
  }

  predicate Listed(s: Sides, id: nat) {
    id == s.ab || id == s.bc || id == s.ca
  }

  /** The faces written so far, in order, and no other ADVANCED_FACE or ORIENTED_EDGE in the file. */
  ghost predicate FacesWritten(lines: seq<Record>, mesh: Mesh, curves: map<Edge, nat>, faces: seq<nat>, sides: seq<Sides>) {
    && |faces| == |sides| <= |mesh.faces|
    && EachWritten(lines, mesh, curves, faces, sides) && Ascending(faces) && SidesAscending(sides) && OnlyThese(lines, faces, sides)
  }

  ghost predicate EachWritten(lines: seq<Record>, mesh: Mesh, curves: map<Edge, nat>, faces: seq<nat>, sides: seq<Sides>)
    requires |faces| == |sides| <= |mesh.faces|
  {
    && (forall k | 0 <= k < |faces| :: FaceWritten(lines, faces[k], sides[k]))
    && (forall k | 0 <= k < |sides| :: SidesWritten(lines, curves, sides[k], mesh.faces[k]))
  }

  ghost predicate OnlyThese(lines: seq<Record>, faces: seq<nat>, sides: seq<Sides>) {
    && (forall id | OfKind(lines, id, ADVANCED_FACE) :: id in faces)
    && (forall id | OfKind(lines, id, ORIENTED_EDGE) :: exists k :: 0 <= k < |sides| && Listed(sides[k], id))
  }

  ghost predicate Ascending(ids: seq<nat>) {
    forall i, j | 0 <= i < j < |ids| :: ids[i] < ids[j]
  }

  ghost predicate SidesAscending(sides: seq<Sides>) {
    && (forall k | 0 <= k < |sides| :: sides[k].ab < sides[k].bc < sides[k].ca)
    && (forall i, j | 0 <= i < j < |sides| :: sides[i].ca < sides[j].ab)
  }

  /** Where everything went. */
  datatype Layout = Layout(vertices: seq<nat>, curves: map<Edge, nat>, faces: seq<nat>, sides: seq<Sides>)

  predicate EdgesIn(curves: map<Edge, nat>, f: Face) {
    EdgeOf(f.a, f.b) in curves && EdgeOf(f.b, f.c) in curves && EdgeOf(f.c, f.a) in curves
  }

  /** The edges of one more face are in the table, and no others. */
  ghost predicate AddsEdges(curves: map<Edge, nat>, more: map<Edge, nat>, f: Face) {
    more.Keys == curves.Keys + {EdgeOf(f.a, f.b)} + {EdgeOf(f.b, f.c)} + {EdgeOf(f.c, f.a)}
  }

  /** The edges of the faces. */
  ghost predicate EdgeOfFace(f: Face, e: Edge) {
    e == EdgeOf(f.a, f.b) || e == EdgeOf(f.b, f.c) || e == EdgeOf(f.c, f.a)
  }

  ghost predicate CurvesAreEdges(mesh: Mesh, curves: map<Edge, nat>, n: nat)
    requires n <= |mesh.faces|
  {
    forall e :: e in curves <==> exists k :: 0 <= k < n && EdgeOfFace(mesh.faces[k], e)
  }

  /** A complete file for the mesh. */
  ghost predicate Written(lines: seq<Record>, mesh: Mesh, q: Rounding, l: Layout) {
    && |l.vertices| == |mesh.vertices| && |l.faces| == |mesh.faces|
    && VerticesWritten(lines, mesh, q, l.vertices) && CurvesWritten(lines, l.vertices, l.curves)
    && FacesWritten(lines, mesh, l.curves, l.faces, l.sides) && CurvesAreEdges(mesh, l.curves, |mesh.faces|)
  }

  // ----- Writing more keeps what has been written

  /** The records from index `n` on are of none of the three kinds that are listed exhaustively. */
  ghost predicate Quiet(lines: seq<Record>, n: nat) {
    forall i | n <= i < |lines| :: lines[i].kw != ADVANCED_FACE && lines[i].kw != EDGE_CURVE && lines[i].kw != ORIENTED_EDGE
  }

  /** `more` has all the records of `lines`, except that the references of a context may have been filled in. */
  ghost predicate Keeps(lines: seq<Record>, more: seq<Record>) {
    && |lines| <= |more|
    && forall i | 0 <= i < |lines| ::
         more[i] == lines[i] || (lines[i].kw == OTHER("CONTEXT") && more[i].kw == OTHER("CONTEXT"))
  }

  lemma VerticesStay(lines: seq<Record>, more: seq<Record>, mesh: Mesh, q: Rounding, vps: seq<nat>)
    requires Keeps(lines, more) && VerticesWritten(lines, mesh, q, vps)
    ensures VerticesWritten(more, mesh, q, vps)
  {
    forall v | 0 <= v < |vps|
      ensures VertexWritten(more, vps[v], q(mesh.vertices[v]))
    {
      assert VertexWritten(lines, vps[v], q(mesh.vertices[v]));
    }
  }

  ghost predicate NoNewCurves(lines: seq<Record>, n: nat) {
    forall i | n <= i < |lines| :: lines[i].kw != EDGE_CURVE
  }

  lemma CurvesStay(lines: seq<Record>, more: seq<Record>, vps: seq<nat>, curves: map<Edge, nat>)
    requires Keeps(lines, more) && CurvesWritten(lines, vps, curves) && NoNewCurves(more, |lines|)
    ensures CurvesWritten(more, vps, curves)
  {
    forall e | e in curves
      ensures CurveWritten(more, curves[e], vps[e.lo], vps[e.hi])
    {
      assert CurveWritten(lines, curves[e], vps[e.lo], vps[e.hi]);
    }
    forall id: nat | OfKind(more, id, EDGE_CURVE)
      ensures exists e :: e in curves && curves[e] == id
    {
      assert OfKind(lines, id, EDGE_CURVE);
    }
  }

  /** The curve table only grows. */
  ghost predicate Grows(curves: map<Edge, nat>, more: map<Edge, nat>) {
    forall e | e in curves :: e in more && more[e] == curves[e]
  }

  lemma SidesStay(lines: seq<Record>, more: seq<Record>, curves: map<Edge, nat>, curves': map<Edge, nat>, s: Sides, f: Face)
    requires Keeps(lines, more) && Grows(curves, curves') && SidesWritten(lines, curves, s, f)
    ensures SidesWritten(more, curves', s, f)
  {
  }

  lemma FaceStays(lines: seq<Record>, more: seq<Record>, id: nat, s: Sides)
    requires Keeps(lines, more) && FaceWritten(lines, id, s)
    ensures FaceWritten(more, id, s)
  {
  }

  ghost predicate NoNewFaces(lines: seq<Record>, n: nat) {
    forall i | n <= i < |lines| :: lines[i].kw != ADVANCED_FACE && lines[i].kw != ORIENTED_EDGE
  }

  lemma FacesStay(lines: seq<Record>, more: seq<Record>, mesh: Mesh, curves: map<Edge, nat>, curves': map<Edge, nat>,
                  faces: seq<nat>, sides: seq<Sides>)
    requires Keeps(lines, more) && Grows(curves, curves') && FacesWritten(lines, mesh, curves, faces, sides)
    requires NoNewFaces(more, |lines|)
    ensures FacesWritten(more, mesh, curves', faces, sides)
  {
    forall k | 0 <= k < |faces|
      ensures FaceWritten(more, faces[k], sides[k])
    {
      FaceStays(lines, more, faces[k], sides[k]);
    }
    forall k | 0 <= k < |sides|
      ensures SidesWritten(more, curves', sides[k], mesh.faces[k])
    {
      SidesStay(lines, more, curves, curves', sides[k], mesh.faces[k]);
    }
    forall id: nat | OfKind(more, id, ADVANCED_FACE)
      ensures id in faces
    {
      assert OfKind(lines, id, ADVANCED_FACE);
    }
    forall id: nat | OfKind(more, id, ORIENTED_EDGE)
      ensures exists k :: 0 <= k < |sides| && Listed(sides[k], id)
    {
      assert OfKind(lines, id, ORIENTED_EDGE);
    }
  }

  // ----- The writer

  /** The curve of an edge: looked up, or written on first use in canonical direction. */
  method CurveOf(b: StepBuilder, vps: seq<nat>, curves: map<Edge, nat>, a: nat, c: nat)
    returns (curve: nat, forward: bool, curves': map<Edge, nat>)
    requires a < |vps| && c < |vps| && CurvesWritten(b.lines, vps, curves)
    modifies b
    ensures old(b.lines) <= b.lines && NoNewFaces(b.lines, |old(b.lines)|)
    ensures CurvesWritten(b.lines, vps, curves') && Grows(curves, curves')
    ensures curves'.Keys == curves.Keys + {EdgeOf(a, c)} && curve == curves'[EdgeOf(a, c)] && forward == (a <= c)
  {
    hide CurvesWritten;
    forward := a <= c;
    var key := EdgeOf(a, c);
    if key in curves {
      return curves[key], forward, curves;
    }
    ghost var before := b.lines;
    var dir := b.Line(Plain("DIRECTION", []));
    var vec := b.Line(Plain("VECTOR", [dir]));
    var anchor := b.Line(PointRecord(ORIGIN));
    var line := b.Line(Plain("LINE", [anchor, vec]));
    CurvesStay(before, b.lines, vps, curves);
    ghost var prepared := b.lines;
    curve := b.Line(CurveRecord(vps[key.lo], vps[key.hi], line));
    curves' := curves[key := curve];
    CurveAdded(prepared, b.lines, vps, curves, key, curve);
  }

  lemma CurveAdded(lines: seq<Record>, more: seq<Record>, vps: seq<nat>, curves: map<Edge, nat>, key: Edge, id: nat)
    requires CurvesWritten(lines, vps, curves) && key !in curves && key.lo <= key.hi < |vps|
    requires lines <= more && id == |more| == |lines| + 1 && CurveWritten(more, id, vps[key.lo], vps[key.hi])
    ensures CurvesWritten(more, vps, curves[key := id])
  {
    var curves' := curves[key := id];
    forall e | e in curves'
      ensures e.lo <= e.hi < |vps| && CurveWritten(more, curves'[e], vps[e.lo], vps[e.hi])
    {
      assert e in curves ==> CurveWritten(lines, curves[e], vps[e.lo], vps[e.hi]);
    }
    forall e, e' | e in curves' && e' in curves' && curves'[e] == curves'[e']
      ensures e == e'
    {
      assert e in curves ==> CurveWritten(lines, curves[e], vps[e.lo], vps[e.hi]);
      assert e' in curves ==> CurveWritten(lines, curves[e'], vps[e'.lo], vps[e'.hi]);
    }
    forall j: nat | OfKind(more, j, EDGE_CURVE)
      ensures exists e :: e in curves' && curves'[e] == j
    {
      if j <= |lines| {
        assert OfKind(lines, j, EDGE_CURVE);
        var e :| e in curves && curves[e] == j;
        assert curves'[e] == j;
      } else {
        assert curves'[key] == j;
      }
    }
  }

  /** The records of one face whose curves have been written: oriented edges, loop, bound, plane placement and face.
    The directions of the plane are not read back and not modelled. */
  function FaceLines(n: nat, curves: map<Edge, nat>, f: Face, origin: Point): seq<Record>
    requires EdgesIn(curves, f)
  {
    [OrientedRecord(curves[EdgeOf(f.a, f.b)], f.a <= f.b), OrientedRecord(curves[EdgeOf(f.b, f.c)], f.b <= f.c),
     OrientedRecord(curves[EdgeOf(f.c, f.a)], f.c <= f.a), LoopRecord(Sides(n + 1, n + 2, n + 3)), BoundRecord(n + 4),
     PointRecord(origin), Plain("DIRECTION", []), Plain("DIRECTION", []),
     Plain("AXIS2_PLACEMENT_3D", [n + 6, n + 7, n + 8]), Plain("PLANE", [n + 9]), FaceRecord(n + 5, n + 10)]
  }

  method WriteFaceLines(b: StepBuilder, curves: map<Edge, nat>, f: Face, eab: nat, ebc: nat, eca: nat,
                        dab: bool, dbc: bool, dca: bool, origin: Point)
    returns (face: nat)
    requires EdgesIn(curves, f)
    requires eab == curves[EdgeOf(f.a, f.b)] && ebc == curves[EdgeOf(f.b, f.c)] && eca == curves[EdgeOf(f.c, f.a)]
    requires dab == (f.a <= f.b) && dbc == (f.b <= f.c) && dca == (f.c <= f.a)
    modifies b
    ensures b.lines == old(b.lines) + FaceLines(|old(b.lines)|, curves, f, origin) && face == |old(b.lines)| + 11
  {
    var oe1 := b.Line(OrientedRecord(eab, dab));
    var oe2 := b.Line(OrientedRecord(ebc, dbc));
    var oe3 := b.Line(OrientedRecord(eca, dca));
    var loop := b.Line(LoopRecord(Sides(oe1, oe2, oe3)));
    var bound := b.Line(BoundRecord(loop));
    var at := b.Line(PointRecord(origin));
    var ndir := b.Line(Plain("DIRECTION", []));
    var rdir := b.Line(Plain("DIRECTION", []));
    var axis := b.Line(Plain("AXIS2_PLACEMENT_3D", [at, ndir, rdir]));
    var plane := b.Line(Plain("PLANE", [axis]));
    face := b.Line(FaceRecord(bound, plane));
  }

  lemma FaceLinesAt(lines: seq<Record>, more: seq<Record>, curves: map<Edge, nat>, f: Face, origin: Point)
    requires EdgesIn(curves, f)
    requires more == lines + FaceLines(|lines|, curves, f, origin)
    ensures var n := |lines|;
            && |more| == n + 11 && Keeps(lines, more)
            && Is(more, n + 1, OrientedRecord(curves[EdgeOf(f.a, f.b)], f.a <= f.b))
            && Is(more, n + 2, OrientedRecord(curves[EdgeOf(f.b, f.c)], f.b <= f.c))
            && Is(more, n + 3, OrientedRecord(curves[EdgeOf(f.c, f.a)], f.c <= f.a))
            && Is(more, n + 4, LoopRecord(Sides(n + 1, n + 2, n + 3))) && Is(more, n + 5, BoundRecord(n + 4))
            && Is(more, n + 10, Plain("PLANE", [n + 9])) && Is(more, n + 11, FaceRecord(n + 5, n + 10))
  {
    hide EdgeOf, EdgesIn;
    var added := FaceLines(|lines|, curves, f, origin);
    assert |added| == 11 && forall i | 0 <= i < 11 :: more[|lines| + i] == added[i];
  }

  lemma FaceLineKinds(lines: seq<Record>, more: seq<Record>, curves: map<Edge, nat>, f: Face, origin: Point)
    requires EdgesIn(curves, f)
    requires more == lines + FaceLines(|lines|, curves, f, origin)
    ensures forall i | |lines| + 3 <= i < |more| :: more[i].kw != ORIENTED_EDGE
    ensures forall i | |lines| <= i < |more| - 1 :: more[i].kw != ADVANCED_FACE
    ensures NoNewCurves(more, |lines|)
  {
    hide EdgeOf, EdgesIn;
    var added := FaceLines(|lines|, curves, f, origin);
    assert |added| == 11 && forall i | 0 <= i < 11 :: more[|lines| + i] == added[i];
  }

  lemma FaceLinesWritten(lines: seq<Record>, more: seq<Record>, curves: map<Edge, nat>, f: Face, origin: Point)
    requires EdgesIn(curves, f)
    requires more == lines + FaceLines(|lines|, curves, f, origin)
    ensures var n := |lines|;
            FaceWritten(more, n + 11, Sides(n + 1, n + 2, n + 3)) && SidesWritten(more, curves, Sides(n + 1, n + 2, n + 3), f)
    ensures forall id: nat | |lines| < id && OfKind(more, id, ADVANCED_FACE) :: id == |lines| + 11
    ensures forall id: nat | |lines| < id && OfKind(more, id, ORIENTED_EDGE) ::
              Listed(Sides(|lines| + 1, |lines| + 2, |lines| + 3), id)
    ensures NoNewCurves(more, |lines|) && Keeps(lines, more)
  {
    hide FaceLines;
    FaceLinesAt(lines, more, curves, f, origin);
    FaceLineKinds(lines, more, curves, f, origin);
  }

  lemma FacesBounded(lines: seq<Record>, mesh: Mesh, curves: map<Edge, nat>, faces: seq<nat>, sides: seq<Sides>)
    requires FacesWritten(lines, mesh, curves, faces, sides)
    ensures forall k | 0 <= k < |faces| :: faces[k] <= |lines| && sides[k].ca <= |lines|
  {
    forall k | 0 <= k < |faces|
      ensures faces[k] <= |lines| && sides[k].ca <= |lines|
    {
      assert FaceWritten(lines, faces[k], sides[k]) && SidesWritten(lines, curves, sides[k], mesh.faces[k]);
    }
  }

  /** The record after `lines` is the face, and its sides come before it. */
  lemma FaceListed(lines: seq<Record>, more: seq<Record>, mesh: Mesh, curves: map<Edge, nat>,
                   faces: seq<nat>, sides: seq<Sides>, f: Face, origin: Point)
    requires FacesWritten(lines, mesh, curves, faces, sides) && EdgesIn(curves, f)
    requires more == lines + FaceLines(|lines|, curves, f, origin)
    ensures OnlyThese(more, faces + [|lines| + 11], sides + [Sides(|lines| + 1, |lines| + 2, |lines| + 3)])
  {
    var sides' := sides + [Sides(|lines| + 1, |lines| + 2, |lines| + 3)];
    hide FaceLines, FaceWritten, SidesWritten, NoNewCurves, EdgesIn, Ascending, SidesAscending;
    FaceLinesWritten(lines, more, curves, f, origin);
    forall id: nat | OfKind(more, id, ADVANCED_FACE)
      ensures id in faces + [|lines| + 11]
    {
      if id <= |lines| {
        assert OfKind(lines, id, ADVANCED_FACE);
      }
    }
    forall id: nat | OfKind(more, id, ORIENTED_EDGE)
      ensures exists k :: 0 <= k < |sides| + 1 && Listed(sides'[k], id)
    {
      if id <= |lines| {
        assert OfKind(lines, id, ORIENTED_EDGE);
        var k :| 0 <= k < |sides| && Listed(sides[k], id);
        assert Listed(sides'[k], id);
      } else {
        assert Listed(sides'[|sides|], id);
      }
    }
  }

  lemma EachOfMore(lines: seq<Record>, more: seq<Record>, mesh: Mesh, curves: map<Edge, nat>,
                   faces: seq<nat>, sides: seq<Sides>, face: nat, s: Sides)
    requires |faces| == |sides| < |mesh.faces| && EachWritten(lines, mesh, curves, faces, sides) && Keeps(lines, more)
    requires FaceWritten(more, face, s) && SidesWritten(more, curves, s, mesh.faces[|faces|])
    ensures EachWritten(more, mesh, curves, faces + [face], sides + [s])
  {
    hide FaceWritten, SidesWritten, Keeps;
    forall k | 0 <= k < |faces|
      ensures FaceWritten(more, faces[k], sides[k]) && SidesWritten(more, curves, sides[k], mesh.faces[k])
    {
      FaceStays(lines, more, faces[k], sides[k]);
      SidesStay(lines, more, curves, curves, sides[k], mesh.faces[k]);
    }
  }

  lemma AscendingMore(faces: seq<nat>, sides: seq<Sides>, n: nat)
    requires |faces| == |sides| && Ascending(faces) && SidesAscending(sides)
    requires forall k | 0 <= k < |faces| :: faces[k] <= n && sides[k].ca <= n
    ensures Ascending(faces + [n + 11]) && SidesAscending(sides + [Sides(n + 1, n + 2, n + 3)])
  {
  }

  lemma FaceAdded(lines: seq<Record>, more: seq<Record>, mesh: Mesh, curves: map<Edge, nat>,
                  faces: seq<nat>, sides: seq<Sides>, f: Face, origin: Point)
    requires FacesWritten(lines, mesh, curves, faces, sides) && |faces| < |mesh.faces| && f == mesh.faces[|faces|]
    requires EdgesIn(curves, f)
    requires more == lines + FaceLines(|lines|, curves, f, origin)
    ensures FacesWritten(more, mesh, curves, faces + [|lines| + 11], sides + [Sides(|lines| + 1, |lines| + 2, |lines| + 3)])
  {
    var n := |lines|;
    var s := Sides(n + 1, n + 2, n + 3);
    hide FaceLines, FaceWritten, SidesWritten, NoNewCurves, EdgesIn, OfKind, Listed, OnlyThese, EachWritten, Keeps, Ascending,
      SidesAscending;
    FaceLinesWritten(lines, more, curves, f, origin);
    EachOfMore(lines, more, mesh, curves, faces, sides, n + 11, s);
    FacesBounded(lines, mesh, curves, faces, sides);
    AscendingMore(faces, sides, n);
    FaceListed(lines, more, mesh, curves, faces, sides, f, origin);
  }

  lemma AllKept(lines: seq<Record>, more: seq<Record>, mesh: Mesh, q: Rounding, vps: seq<nat>, curves: map<Edge, nat>,
                faces: seq<nat>, sides: seq<Sides>, f: Face, origin: Point)
    requires VerticesWritten(lines, mesh, q, vps) && CurvesWritten(lines, vps, curves)
    requires FacesWritten(lines, mesh, curves, faces, sides) && |faces| < |mesh.faces| && f == mesh.faces[|faces|]
    requires EdgesIn(curves, f)
    requires more == lines + FaceLines(|lines|, curves, f, origin)
    ensures VerticesWritten(more, mesh, q, vps) && CurvesWritten(more, vps, curves)
    ensures FacesWritten(more, mesh, curves, faces + [|lines| + 11], sides + [Sides(|lines| + 1, |lines| + 2, |lines| + 3)])
  {
    hide FaceLines, VerticesWritten, CurvesWritten, EdgeOf, OfKind, FaceWritten, SidesWritten;
    FaceAdded(lines, more, mesh, curves, faces, sides, f, origin);
    FaceLinesWritten(lines, more, curves, f, origin);
    VerticesStay(lines, more, mesh, q, vps);
    CurvesStay(lines, more, vps, curves);
  }

  /** The curves of a face's three edges, in the order of its winding. */
  method CurvesOf(b: StepBuilder, mesh: Mesh, q: Rounding, vps: seq<nat>, curves: map<Edge, nat>, faces: seq<nat>,
                  ghost sides: seq<Sides>, f: Face)
    returns (eab: nat, ebc: nat, eca: nat, dab: bool, dbc: bool, dca: bool, curves': map<Edge, nat>)
    requires f.a < |vps| && f.b < |vps| && f.c < |vps|
    requires VerticesWritten(b.lines, mesh, q, vps) && CurvesWritten(b.lines, vps, curves)
    requires FacesWritten(b.lines, mesh, curves, faces, sides)
    modifies b
    ensures old(b.lines) <= b.lines && VerticesWritten(b.lines, mesh, q, vps) && CurvesWritten(b.lines, vps, curves')
    ensures FacesWritten(b.lines, mesh, curves', faces, sides)
    ensures AddsEdges(curves, curves', f) && EdgesIn(curves', f)
    ensures eab == curves'[EdgeOf(f.a, f.b)] && ebc == curves'[EdgeOf(f.b, f.c)] && eca == curves'[EdgeOf(f.c, f.a)]
    ensures dab == (f.a <= f.b) && dbc == (f.b <= f.c) && dca == (f.c <= f.a)
  {
    hide VerticesWritten, CurvesWritten, FacesWritten, EdgeOf;
    ghost var before := b.lines;
    var c1, c2;
    eab, dab, c1 := CurveOf(b, vps, curves, f.a, f.b);
    VerticesStay(before, b.lines, mesh, q, vps);
    FacesStay(before, b.lines, mesh, curves, c1, faces, sides);
    ghost var first := b.lines;
    ebc, dbc, c2 := CurveOf(b, vps, c1, f.b, f.c);
    VerticesStay(first, b.lines, mesh, q, vps);
    FacesStay(first, b.lines, mesh, c1, c2, faces, sides);
    ghost var second := b.lines;
    eca, dca, curves' := CurveOf(b, vps, c2, f.c, f.a);
    VerticesStay(second, b.lines, mesh, q, vps);
    FacesStay(second, b.lines, mesh, c2, curves', faces, sides);
  }

  /** A face's own records, once its curves are in the table. */
  method WriteFaceRecords(b: StepBuilder, mesh: Mesh, q: Rounding, vps: seq<nat>, curves: map<Edge, nat>, faces: seq<nat>,
                          ghost sides: seq<Sides>, f: Face, eab: nat, ebc: nat, eca: nat, dab: bool, dbc: bool, dca: bool)
    returns (face: nat, ghost s: Sides)
    requires VerticesWritten(b.lines, mesh, q, vps) && CurvesWritten(b.lines, vps, curves)
    requires FacesWritten(b.lines, mesh, curves, faces, sides) && |faces| < |mesh.faces| && f == mesh.faces[|faces|]
    requires EdgesIn(curves, f) && f.a < |mesh.vertices|
    requires eab == curves[EdgeOf(f.a, f.b)] && ebc == curves[EdgeOf(f.b, f.c)] && eca == curves[EdgeOf(f.c, f.a)]
    requires dab == (f.a <= f.b) && dbc == (f.b <= f.c) && dca == (f.c <= f.a)
    modifies b
    ensures old(b.lines) <= b.lines && VerticesWritten(b.lines, mesh, q, vps) && CurvesWritten(b.lines, vps, curves)
    ensures FacesWritten(b.lines, mesh, curves, faces + [face], sides + [s])
  {
    hide VerticesWritten, CurvesWritten, FacesWritten, FaceLines, EdgeOf, EdgesIn;
    ghost var curved := b.lines;
    var origin := q(mesh.vertices[f.a]);
    face := WriteFaceLines(b, curves, f, eab, ebc, eca, dab, dbc, dca, origin);
    s := Sides(|curved| + 1, |curved| + 2, |curved| + 3);
    AllKept(curved, b.lines, mesh, q, vps, curves, faces, sides, f, origin);
  }

  /** One face: its three curves first, then its own records. */
  method WriteFace(b: StepBuilder, mesh: Mesh, q: Rounding, vps: seq<nat>, curves: map<Edge, nat>, faces: seq<nat>,
                   ghost sides: seq<Sides>)
    returns (face: nat, curves': map<Edge, nat>, ghost s: Sides)
    requires mesh.Valid() && |faces| < |mesh.faces| && |vps| == |mesh.vertices|
    requires VerticesWritten(b.lines, mesh, q, vps) && CurvesWritten(b.lines, vps, curves)
    requires FacesWritten(b.lines, mesh, curves, faces, sides) && CurvesAreEdges(mesh, curves, |faces|)
    modifies b
    ensures VerticesWritten(b.lines, mesh, q, vps) && CurvesWritten(b.lines, vps, curves')
    ensures FacesWritten(b.lines, mesh, curves', faces + [face], sides + [s])
    ensures CurvesAreEdges(mesh, curves', |faces| + 1) && old(b.lines) <= b.lines
  {
    var f := mesh.faces[|faces|];
    assert mesh.Fits(f);
    hide VerticesWritten, CurvesWritten, FacesWritten, CurvesAreEdges, AddsEdges, EdgesIn;
    var eab, ebc, eca, dab, dbc, dca;
    eab, ebc, eca, dab, dbc, dca, curves' := CurvesOf(b, mesh, q, vps, curves, faces, sides, f);
    face, s := WriteFaceRecords(b, mesh, q, vps, curves', faces, sides, f, eab, ebc, eca, dab, dbc, dca);
    EdgesOfOneMore(mesh, curves, curves', |faces|);
  }

  lemma EdgesOfOneMore(mesh: Mesh, curves: map<Edge, nat>, curves': map<Edge, nat>, n: nat)
    requires n < |mesh.faces| && CurvesAreEdges(mesh, curves, n)
    requires AddsEdges(curves, curves', mesh.faces[n])
    ensures CurvesAreEdges(mesh, curves', n + 1)
  {
    forall e
      ensures e in curves' <==> exists k :: 0 <= k < n + 1 && EdgeOfFace(mesh.faces[k], e)
    {
      assert e in curves' <==> e in curves || EdgeOfFace(mesh.faces[n], e);
    }
  }

  lemma NothingYet(lines: seq<Record>, mesh: Mesh, vps: seq<nat>)
    requires Quiet(lines, 0)
    ensures CurvesWritten(lines, vps, map[]) && FacesWritten(lines, mesh, map[], [], []) && CurvesAreEdges(mesh, map[], 0)
  {
  }

  lemma QuietMore(lines: seq<Record>, more: seq<Record>, mesh: Mesh, q: Rounding, l: Layout)
    requires Keeps(lines, more) && Quiet(more, |lines|) && Written(lines, mesh, q, l)
    ensures Written(more, mesh, q, l)
  {
    VerticesStay(lines, more, mesh, q, l.vertices);
    CurvesStay(lines, more, l.vertices, l.curves);
    FacesStay(lines, more, mesh, l.curves, l.curves, l.faces, l.sides);
  }

  method WriteVertices(b: StepBuilder, mesh: Mesh, q: Rounding) returns (vps: seq<nat>)
    requires Quiet(b.lines, 0)
    modifies b
    ensures |vps| == |mesh.vertices| && VerticesWritten(b.lines, mesh, q, vps)
    ensures old(b.lines) <= b.lines && Quiet(b.lines, 0)
  {
    vps := [];
    var v := 0;
    while v < |mesh.vertices|
      invariant 0 <= v == |vps| <= |mesh.vertices|
      invariant VerticesWritten(b.lines, mesh, q, vps) && Quiet(b.lines, 0) && old(b.lines) <= b.lines
    {
      ghost var before := b.lines;
      var cp := b.Line(PointRecord(q(mesh.vertices[v])));
      var vp := b.Line(VertexRecord(cp));
      VerticesStay(before, b.lines, mesh, q, vps);
      assert VertexWritten(b.lines, vp, q(mesh.vertices[v]));
      vps := vps + [vp];
      v := v + 1;
    }
  }

  method WriteFaces(b: StepBuilder, mesh: Mesh, q: Rounding, vps: seq<nat>)
    returns (curves: map<Edge, nat>, faces: seq<nat>, ghost sides: seq<Sides>)
    requires mesh.Valid() && |vps| == |mesh.vertices| && VerticesWritten(b.lines, mesh, q, vps) && Quiet(b.lines, 0)
    modifies b
    ensures Written(b.lines, mesh, q, Layout(vps, curves, faces, sides)) && old(b.lines) <= b.lines
  {
    NothingYet(b.lines, mesh, vps);
    curves, faces, sides := map[], [], [];
    var k := 0;
    while k < |mesh.faces|
      invariant 0 <= k == |faces| <= |mesh.faces| && old(b.lines) <= b.lines
      invariant VerticesWritten(b.lines, mesh, q, vps) && CurvesWritten(b.lines, vps, curves)
      invariant FacesWritten(b.lines, mesh, curves, faces, sides) && CurvesAreEdges(mesh, curves, k)
    {
      var face, curves', s := WriteFace(b, mesh, q, vps, curves, faces, sides);
      curves, faces, sides := curves', faces + [face], sides + [s];
      k := k + 1;
    }
  }

  /** The representation context is written first and gets its unit references last. */
  lemma ContextResolved(lines: seq<Record>, refs: seq<nat>, mesh: Mesh, q: Rounding, l: Layout)
    requires lines != [] && lines[0].kw == OTHER("CONTEXT") && Written(lines, mesh, q, l)
    ensures Written(lines[0 := Plain("CONTEXT", refs)], mesh, q, l)
  {
    hide Written;
    QuietMore(lines, lines[0 := Plain("CONTEXT", refs)], mesh, q, l);
  }

  /** The whole file, for every mesh; `l` says where everything went. */
  method ExportStep(mesh: Mesh, q: Rounding) returns (lines: seq<Record>, ghost l: Layout)
    requires mesh.Valid()
    ensures Written(lines, mesh, q, l)
  {
    var b := new StepBuilder();
    var ctx := b.Line(Plain("CONTEXT", []));
    var vps := WriteVertices(b, mesh, q);
    ghost var curves, sides;
    var faces;
    curves, faces, sides := WriteFaces(b, mesh, q, vps);
    l := Layout(vps, curves, faces, sides);
    ghost var before := b.lines;
    var shell := b.Line(Plain("CLOSED_SHELL", faces));
    var brep := b.Line(Plain("MANIFOLD_SOLID_BREP", [shell]));
    var srep := b.Line(Plain("ADVANCED_BREP_SHAPE_REPRESENTATION", [brep, ctx]));
    var len := b.Line(Plain("UNIT", []));
    var ang := b.Line(Plain("UNIT", []));
    var sr := b.Line(Plain("UNIT", []));
    QuietMore(before, b.lines, mesh, q, l);
    ContextResolved(b.lines, [len, ang, sr], mesh, q, l);
    lines := b.lines[0 := Plain("CONTEXT", [len, ang, sr])];
  }
}
