/** What the reader recovers from what the writer wrote, and how the written file
  uses its edge curves (manufacturing/src/step.rs). */
module StepRoundTrip {
  import opened Options
  import opened Points
  import opened Solids
  import opened StepImport
  import opened StepExport

  /** The written records by identifier. */
  function FileOf(lines: seq<Record>): File {
    map id: nat | 1 <= id <= |lines| :: RecordOf(lines, id)
  }

  function RecordOf(lines: seq<Record>, id: nat): Record
    requires 1 <= id <= |lines|
  {
    lines[id - 1]
  }

  function RoundedAt(mesh: Mesh, q: Rounding, f: Face): Triangle
    requires mesh.Fits(f)
  {
    Triangle(q(mesh.vertices[f.a]), q(mesh.vertices[f.b]), q(mesh.vertices[f.c]))
  }

  /** The faces by their rounded corner positions, with their winding. */
  function Rounded(mesh: Mesh, q: Rounding): (ts: seq<Triangle>)
    requires mesh.Valid()
    ensures |ts| == |mesh.faces|
  {
    seq(|mesh.faces|, k requires 0 <= k < |mesh.faces| => RoundedAt(mesh, q, mesh.faces[k]))
  }

  // ----- Reading one face

  lemma VertexRead(lines: seq<Record>, id: nat, p: Point)
    requires VertexWritten(lines, id, p)
    ensures var t := TablesOf(FileOf(lines)); id in t.vertices && t.vertices[id] == p
  {
    var f, cp := FileOf(lines), lines[id - 1].refs[0];
    assert cp in PointTable(f) && PointTable(f)[cp] == p;
  }

  /** An oriented edge starts where the face's winding leaves from, whichever way its curve runs. */
  lemma SideRead(lines: seq<Record>, mesh: Mesh, q: Rounding, l: Layout, id: nat, a: nat, c: nat)
    requires VerticesWritten(lines, mesh, q, l.vertices) && CurvesWritten(lines, l.vertices, l.curves)
    requires SideWritten(lines, l.curves, id, a, c)
    ensures a < |mesh.vertices| && StartOf(TablesOf(FileOf(lines)), id) == Some(q(mesh.vertices[a]))
  {
    var t, e := TablesOf(FileOf(lines)), EdgeOf(a, c);
    assert CurveWritten(lines, l.curves[e], l.vertices[e.lo], l.vertices[e.hi]);
    assert t.oriented[id] == (l.curves[e], a <= c);
    assert t.curves[l.curves[e]] == (l.vertices[e.lo], l.vertices[e.hi]);
    assert VertexWritten(lines, l.vertices[a], q(mesh.vertices[a]));
    VertexRead(lines, l.vertices[a], q(mesh.vertices[a]));
  }

  lemma LoopRead(lines: seq<Record>, loop: nat, s: Sides, p: Point, q: Point, r: Point)
    requires Is(lines, loop, LoopRecord(s))
    requires var t := TablesOf(FileOf(lines));
             StartOf(t, s.ab) == Some(p) && StartOf(t, s.bc) == Some(q) && StartOf(t, s.ca) == Some(r)
    ensures Resolved(TablesOf(FileOf(lines)), loop) == Some([p, q, r])
  {
    var t := TablesOf(FileOf(lines));
    assert t.loops[loop] == [s.ab, s.bc, s.ca];
    ThreeStarts(t, s, p, q, r);
  }

  lemma ThreeStarts(t: Tables, s: Sides, p: Point, q: Point, r: Point)
    requires StartOf(t, s.ab) == Some(p) && StartOf(t, s.bc) == Some(q) && StartOf(t, s.ca) == Some(r)
    ensures StartsOf(t, [s.ab, s.bc, s.ca]) == Some([p, q, r])
  {
    hide StartOf;
    var edges := [s.ab, s.bc, s.ca];
    assert forall i | 0 <= i < 3 :: StartOf(t, edges[i]).Some?;
    assert StartsOf(t, edges).value == [p, q, r];
  }

  lemma BoundRead(lines: seq<Record>, bound: nat, s: Sides, p: Point, q: Point, r: Point)
    requires BoundWritten(lines, bound, s)
    requires var t := TablesOf(FileOf(lines));
             StartOf(t, s.ab) == Some(p) && StartOf(t, s.bc) == Some(q) && StartOf(t, s.ca) == Some(r)
    ensures var f := FileOf(lines); IsBound(f, bound) && BoundFan(TablesOf(f), f[bound].refs) == [Triangle(p, q, r)]
  {
    var loop := lines[bound - 1].refs[0];
    LoopRead(lines, loop, s, p, q, r);
    assert lines[bound - 1].refs == [loop];
    assert Fan([p, q, r]) == [Triangle(p, q, r)];
  }

  lemma FaceRead(lines: seq<Record>, id: nat, s: Sides, p: Point, q: Point, r: Point)
    requires FaceWritten(lines, id, s)
    requires var t := TablesOf(FileOf(lines));
             StartOf(t, s.ab) == Some(p) && StartOf(t, s.bc) == Some(q) && StartOf(t, s.ca) == Some(r)
    ensures id in FileOf(lines) && Contributed(FileOf(lines), id) == [Triangle(p, q, r)]
  {
    hide TablesOf, StartOf, BoundFan, BoundsFan;
    var f := FileOf(lines);
    var t, bound, plane := TablesOf(f), lines[id - 1].refs[0], lines[id - 1].refs[1];
    BoundRead(lines, bound, s, p, q, r);
    assert lines[id - 1].refs == [bound, plane] && !IsBound(f, plane);
    OneBound(f, t, bound, plane);
  }

  lemma OneBound(f: File, t: Tables, bound: nat, plane: nat)
    requires IsBound(f, bound) && !IsBound(f, plane)
    ensures BoundsFan(f, t, [bound, plane]) == BoundFan(t, f[bound].refs)
  {
    hide BoundFan;
    assert [bound, plane][..1] == [bound] && [bound][..0] == [];
    assert BoundsFan(f, t, [bound]) == [] + BoundFan(t, f[bound].refs);
  }

  /** Every written face is read back as its rounded triangle. */
  lemma WrittenFaceRead(lines: seq<Record>, mesh: Mesh, q: Rounding, l: Layout, k: nat)
    requires mesh.Valid() && Written(lines, mesh, q, l) && k < |mesh.faces|
    ensures l.faces[k] in FileOf(lines) && Contributed(FileOf(lines), l.faces[k]) == [Rounded(mesh, q)[k]]
  {
    hide VerticesWritten, CurvesWritten, SideWritten, TablesOf, StartOf, FaceWritten, FileOf;
    var f, s := mesh.faces[k], l.sides[k];
    assert FaceWritten(lines, l.faces[k], s) && SidesWritten(lines, l.curves, s, f);
    SideRead(lines, mesh, q, l, s.ab, f.a, f.b);
    SideRead(lines, mesh, q, l, s.bc, f.b, f.c);
    SideRead(lines, mesh, q, l, s.ca, f.c, f.a);
    FaceRead(lines, l.faces[k], s, q(mesh.vertices[f.a]), q(mesh.vertices[f.b]), q(mesh.vertices[f.c]));
  }

  // ----- Summing up

  lemma {:induction false} NothingRecovered(f: File, ids: set<nat>)
    requires ids <= f.Keys && forall id | id in ids :: Contributed(f, id) == []
    ensures Recovered(f, ids) == multiset{}
  {
    if ids != {} {
      var id :| id in ids;
      RecoveredFrom(f, ids, id);
      NothingRecovered(f, ids - {id});
    }
  }

  lemma AscendingPrefix(faces: seq<nat>)
    requires faces != [] && Ascending(faces)
    ensures Ascending(faces[..|faces| - 1]) && faces[|faces| - 1] !in faces[..|faces| - 1]
    ensures forall id | id in faces :: id == faces[|faces| - 1] || id in faces[..|faces| - 1]
  {
  }

  /** Records that contribute one triangle each, and otherwise nothing, recover exactly those triangles. */
  lemma {:induction false} RecoveredList(f: File, ids: set<nat>, faces: seq<nat>, ts: seq<Triangle>)
    requires ids <= f.Keys && |faces| == |ts| && Ascending(faces)
    requires forall k | 0 <= k < |faces| :: faces[k] in ids && Contributed(f, faces[k]) == [ts[k]]
    requires forall id | id in ids && id !in faces :: Contributed(f, id) == []
    ensures Recovered(f, ids) == multiset(ts)
  {
    hide Contributed, Ascending, Recovered;
    if faces == [] {
      NothingRecovered(f, ids);
    } else {
      var last, rest, others := faces[|faces| - 1], faces[..|faces| - 1], ts[..|ts| - 1];
      RecoveredFrom(f, ids, last);
      AscendingPrefix(faces);
      RecoveredList(f, ids - {last}, rest, others);
      assert ts == others + [ts[|ts| - 1]];
    }
  }

  lemma EverythingRecovered(lines: seq<Record>, mesh: Mesh, q: Rounding, l: Layout)
    requires Written(lines, mesh, q, l)
    ensures mesh.Valid() && Recovered(FileOf(lines), FileOf(lines).Keys) == multiset(Rounded(mesh, q))
  {
    WrittenMesh(lines, mesh, q, l);
    hide Contributed, Rounded, FileOf, Written, Ascending;
    forall k | 0 <= k < |l.faces|
      ensures l.faces[k] in FileOf(lines) && Contributed(FileOf(lines), l.faces[k]) == [Rounded(mesh, q)[k]]
    {
      WrittenFaceRead(lines, mesh, q, l, k);
    }
    OthersContributeNothing(lines, mesh, q, l);
    RecoveredList(FileOf(lines), FileOf(lines).Keys, l.faces, Rounded(mesh, q));
  }

  /** Only a valid mesh can be written out. */
  lemma WrittenMesh(lines: seq<Record>, mesh: Mesh, q: Rounding, l: Layout)
    requires Written(lines, mesh, q, l)
    ensures mesh.Valid() && |l.faces| == |mesh.faces| && Ascending(l.faces)
  {
    hide VerticesWritten, CurvesWritten, SideWritten, FaceWritten, StartOf, TablesOf, Ascending, OnlyThese, SidesAscending;
    forall k | 0 <= k < |mesh.faces|
      ensures mesh.Fits(mesh.faces[k])
    {
      var f, s := mesh.faces[k], l.sides[k];
      assert SidesWritten(lines, l.curves, s, f);
      SideRead(lines, mesh, q, l, s.ab, f.a, f.b);
      SideRead(lines, mesh, q, l, s.bc, f.b, f.c);
      SideRead(lines, mesh, q, l, s.ca, f.c, f.a);
    }
  }

  lemma OthersContributeNothing(lines: seq<Record>, mesh: Mesh, q: Rounding, l: Layout)
    requires Written(lines, mesh, q, l)
    ensures forall id | id in FileOf(lines) && id !in l.faces :: Contributed(FileOf(lines), id) == []
  {
    var f := FileOf(lines);
    forall id | id in f && id !in l.faces
      ensures Contributed(f, id) == []
    {
      assert f[id].kw == ADVANCED_FACE ==> OfKind(lines, id, ADVANCED_FACE);
    }
  }

  /** The round trip, for every mesh and whatever order the reader visits the records in. An empty mesh is refused; any
    other comes back with all its triangles and their winding, each corner within 1e-7 of its rounded position, and
    exactly those triangles iff no two different rounded corners are nearer than 1e-7. */
  lemma RoundTrip(lines: seq<Record>, mesh: Mesh, q: Rounding, l: Layout, read: seq<Triangle>, r: Outcome)
    requires Written(lines, mesh, q, l) && IsImport(FileOf(lines), read, r)
    ensures mesh.Valid() && (r.Imported? <==> mesh.faces != [])
    ensures multiset(read) == multiset(Rounded(mesh, q))
    ensures r.Imported? ==> AllSnapped(r.solid.Triangles(), read)
    ensures r.Imported? ==>
              (multiset(r.solid.Triangles()) == multiset(Rounded(mesh, q)) <==> Separated(Rounded(mesh, q)))
  {
    var ts := Rounded(mesh, q);
    EverythingRecovered(lines, mesh, q, l);
    assert |multiset(read)| == |read| && |multiset(ts)| == |ts|;
    LoadedNearby(read);
    LoadsExactlyIff(read);
    if Separated(read) {
      SeparatedOrder(read, ts);
    }
    if Separated(ts) {
      SeparatedOrder(ts, read);
    }
  }

  /** One triangle, written as it is, whose first two corners are nearer than 1e-7. */
  const SLIM_MESH := Mesh([SLIM.p, SLIM.q, SLIM.r], [Face(0, 1, 2)])

  /** The failing case of the exact round trip: the slim triangle comes back with these corners merged. */
  lemma SlimTriangleComesBackMerged(lines: seq<Record>, l: Layout, read: seq<Triangle>, r: Outcome)
    requires SLIM_MESH.Valid() && Written(lines, SLIM_MESH, p => p, l) && IsImport(FileOf(lines), read, r)
    ensures r.Imported? && r.solid.Triangles() == [Triangle(SLIM.p, SLIM.p, SLIM.r)]
    ensures r.solid.Triangles() != SLIM_MESH.Triangles() == [SLIM]
  {
    SlimIsWrittenAsItIs();
    RoundTrip(lines, SLIM_MESH, p => p, l, read, r);
    hide Written, FileOf, Near, Rounded, AllSnapped, Separated;
    OnlyTriangle(read, SLIM);
    NearCornersMerge();
  }

  lemma SlimIsWrittenAsItIs()
    ensures SLIM_MESH.Valid() && Rounded(SLIM_MESH, p => p) == [SLIM] == SLIM_MESH.Triangles()
  {
  }

  lemma OnlyTriangle(ts: seq<Triangle>, t: Triangle)
    requires multiset(ts) == multiset([t])
    ensures ts == [t]
  {
    assert |multiset(ts)| == |ts| == 1;
    assert ts[0] in multiset(ts);
  }

  /** Writing and reading in one go. */
  method WriteAndRead(mesh: Mesh, q: Rounding) returns (r: Outcome)
    requires mesh.Valid()
    ensures r.Imported? <==> mesh.faces != []
    ensures r.Imported? ==> |r.solid.faces| == |mesh.faces|
    ensures r.Imported? && Separated(Rounded(mesh, q)) ==>
              r.solid.Valid() && multiset(r.solid.Triangles()) == multiset(Rounded(mesh, q))
  {
    ghost var l, read;
    var lines;
    lines, l := ExportStep(mesh, q);
    r, read := ImportStep(FileOf(lines));
    RoundTrip(lines, mesh, q, l, read, r);
    assert |multiset(read)| == |multiset(Rounded(mesh, q))|;
  }

  // ----- One curve per edge, used in both directions

  /** The curves of the file are those of the mesh's undirected edges, one each. */
  lemma OneCurvePerEdge(lines: seq<Record>, mesh: Mesh, q: Rounding, l: Layout)
    requires Written(lines, mesh, q, l)
    ensures forall e :: e in l.curves <==> exists k :: 0 <= k < |mesh.faces| && EdgeOfFace(mesh.faces[k], e)
    ensures forall id :: OfKind(lines, id, EDGE_CURVE) <==> id in l.curves.Values
    ensures forall e, e' | e in l.curves && e' in l.curves && l.curves[e] == l.curves[e'] :: e == e'
  {
    forall id: nat
      ensures OfKind(lines, id, EDGE_CURVE) <==> id in l.curves.Values
    {
      if id in l.curves.Values {
        var e :| e in l.curves && l.curves[e] == id;
        assert CurveWritten(lines, id, l.vertices[e.lo], l.vertices[e.hi]);
      }
    }
  }

  /** A side of a face: its face and its place in the winding. */
  datatype Place = Place(face: nat, turn: nat)

  predicate PlaceOf(mesh: Mesh, p: Place) {
    p.face < |mesh.faces| && p.turn < 3
  }

  function Start(mesh: Mesh, p: Place): nat
    requires PlaceOf(mesh, p)
  {
    var f := mesh.faces[p.face];
    if p.turn == 0 then f.a else if p.turn == 1 then f.b else f.c
  }

  function End(mesh: Mesh, p: Place): nat
    requires PlaceOf(mesh, p)
  {
    var f := mesh.faces[p.face];
    if p.turn == 0 then f.b else if p.turn == 1 then f.c else f.a
  }

  predicate Opposite(mesh: Mesh, p: Place, o: Place) {
    PlaceOf(mesh, p) && PlaceOf(mesh, o) && Start(mesh, o) == End(mesh, p) && End(mesh, o) == Start(mesh, p)
  }

  /** Closed and consistently oriented: no side is degenerate, each is met by an opposite one, no two run the same way. */
  ghost predicate Closed(mesh: Mesh) {
    && (forall p | PlaceOf(mesh, p) :: Start(mesh, p) != End(mesh, p) && exists o :: Opposite(mesh, p, o))
    && (forall p, p' | PlaceOf(mesh, p) && PlaceOf(mesh, p') && Start(mesh, p) == Start(mesh, p') && End(mesh, p) == End(mesh, p')
          :: p == p')
  }

  function IdAt(l: Layout, p: Place): nat
    requires p.face < |l.sides| && p.turn < 3
  {
    var s := l.sides[p.face];
    if p.turn == 0 then s.ab else if p.turn == 1 then s.bc else s.ca
  }

  lemma RecordAt(lines: seq<Record>, mesh: Mesh, q: Rounding, l: Layout, p: Place)
    requires Written(lines, mesh, q, l) && PlaceOf(mesh, p)
    ensures SideWritten(lines, l.curves, IdAt(l, p), Start(mesh, p), End(mesh, p))
  {
    hide VerticesWritten, CurvesWritten, SideWritten, CurvesAreEdges;
    assert SidesWritten(lines, l.curves, l.sides[p.face], mesh.faces[p.face]);
  }

  lemma PlaceOfRecord(lines: seq<Record>, mesh: Mesh, q: Rounding, l: Layout, id: nat) returns (p: Place)
    requires Written(lines, mesh, q, l) && OfKind(lines, id, ORIENTED_EDGE)
    ensures PlaceOf(mesh, p) && IdAt(l, p) == id
  {
    var k :| 0 <= k < |l.sides| && Listed(l.sides[k], id);
    p := Place(k, if id == l.sides[k].ab then 0 else if id == l.sides[k].bc then 1 else 2);
  }

  predicate Uses(lines: seq<Record>, id: nat, curve: nat) {
    OfKind(lines, id, ORIENTED_EDGE) && lines[id - 1].refs == [curve]
  }

  lemma PlaceOfEdge(lines: seq<Record>, mesh: Mesh, q: Rounding, l: Layout, e: Edge) returns (p: Place)
    requires Written(lines, mesh, q, l) && e in l.curves
    ensures PlaceOf(mesh, p) && EdgeOf(Start(mesh, p), End(mesh, p)) == e
  {
    hide VerticesWritten, CurvesWritten, FacesWritten;
    var k :| 0 <= k < |mesh.faces| && EdgeOfFace(mesh.faces[k], e);
    var f := mesh.faces[k];
    p := Place(k, if e == EdgeOf(f.a, f.b) then 0 else if e == EdgeOf(f.b, f.c) then 1 else 2);
  }

  lemma UsersOfCurve(lines: seq<Record>, mesh: Mesh, q: Rounding, l: Layout, e: Edge, u: Place, p: Place, o: Place)
    requires Written(lines, mesh, q, l) && Closed(mesh) && e in l.curves
    requires PlaceOf(mesh, u) && Opposite(mesh, p, o) && EdgeOf(Start(mesh, p), End(mesh, p)) == e
    requires EdgeOf(Start(mesh, u), End(mesh, u)) in l.curves && l.curves[EdgeOf(Start(mesh, u), End(mesh, u))] == l.curves[e]
    ensures u == p || u == o
  {
    assert EdgeOf(Start(mesh, u), End(mesh, u)) == e;
  }

  lemma UseAt(lines: seq<Record>, mesh: Mesh, q: Rounding, l: Layout, e: Edge, p: Place)
    requires Written(lines, mesh, q, l) && e in l.curves && PlaceOf(mesh, p) && EdgeOf(Start(mesh, p), End(mesh, p)) == e
    ensures Is(lines, IdAt(l, p), OrientedRecord(l.curves[e], Start(mesh, p) <= End(mesh, p)))
  {
    hide Written, IdAt;
    RecordAt(lines, mesh, q, l, p);
  }

  lemma OnlyUsers(lines: seq<Record>, mesh: Mesh, q: Rounding, l: Layout, e: Edge, p: Place, o: Place, id: nat)
    requires Written(lines, mesh, q, l) && Closed(mesh) && e in l.curves && Uses(lines, id, l.curves[e])
    requires Opposite(mesh, p, o) && EdgeOf(Start(mesh, p), End(mesh, p)) == e
    ensures id == IdAt(l, p) || id == IdAt(l, o)
  {
    var u := PlaceOfRecord(lines, mesh, q, l, id);
    hide Written, IdAt, Closed;
    RecordAt(lines, mesh, q, l, u);
    UsersOfCurve(lines, mesh, q, l, e, u, p, o);
  }

  lemma OppositeOf(mesh: Mesh, p: Place) returns (o: Place)
    requires Closed(mesh) && PlaceOf(mesh, p)
    ensures PlaceOf(mesh, o) && Opposite(mesh, p, o)
    ensures EdgeOf(Start(mesh, o), End(mesh, o)) == EdgeOf(Start(mesh, p), End(mesh, p))
    ensures (Start(mesh, o) <= End(mesh, o)) == !(Start(mesh, p) <= End(mesh, p))
  {
    o :| Opposite(mesh, p, o);
  }

  lemma UserAt(lines: seq<Record>, id: nat, curve: nat, forward: bool)
    requires Is(lines, id, OrientedRecord(curve, forward))
    ensures Uses(lines, id, curve)
  {
  }

  lemma SidesOfCount(lines: seq<Record>, mesh: Mesh, q: Rounding, l: Layout)
    requires Written(lines, mesh, q, l)
    ensures |l.sides| == |mesh.faces|
  {
  }

  /** In the file of a closed, consistently oriented mesh every curve is used by exactly two oriented edges, one with each
    flag. */
  lemma TwoOppositeUses(lines: seq<Record>, mesh: Mesh, q: Rounding, l: Layout, e: Edge) returns (forward: nat, reverse: nat)
    requires Written(lines, mesh, q, l) && Closed(mesh) && e in l.curves
    ensures Is(lines, forward, OrientedRecord(l.curves[e], true)) && Is(lines, reverse, OrientedRecord(l.curves[e], false))
    ensures forall id :: Uses(lines, id, l.curves[e]) <==> id == forward || id == reverse
  {
    hide Written, Closed, IdAt, Start, End, EdgeOf, Opposite, Is, Uses, OrientedRecord;
    var p := PlaceOfEdge(lines, mesh, q, l, e);
    var o := OppositeOf(mesh, p);
    SidesOfCount(lines, mesh, q, l);
    UseAt(lines, mesh, q, l, e, p);
    UseAt(lines, mesh, q, l, e, o);
    UserAt(lines, IdAt(l, p), l.curves[e], Start(mesh, p) <= End(mesh, p));
    UserAt(lines, IdAt(l, o), l.curves[e], Start(mesh, o) <= End(mesh, o));
    forall id: nat | Uses(lines, id, l.curves[e])
      ensures id == IdAt(l, p) || id == IdAt(l, o)
    {
      OnlyUsers(lines, mesh, q, l, e, p, o, id);
    }
    if Start(mesh, p) <= End(mesh, p) {
      return IdAt(l, p), IdAt(l, o);
    } else {
      return IdAt(l, o), IdAt(l, p);
    }
  }
}
