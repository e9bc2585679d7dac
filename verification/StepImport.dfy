/** Reading a STEP data section (ISO 10303-21:2002, clause 9): what `import_step`
  recovers from any table of records (manufacturing/src/step.rs). */
module StepImport {
  import opened Options
  import opened Points
  import opened Solids

  datatype Keyword =
    | CARTESIAN_POINT
    | VERTEX_POINT
    | EDGE_CURVE
    | ORIENTED_EDGE
    | EDGE_LOOP
    | ADVANCED_FACE
    | FACE_OUTER_BOUND
    | FACE_BOUND
    | OTHER(name: string)

  /** What the reader looks at in one record: its keyword, the references in its body in textual order, the coordinates
    of a point, and whether the token `.F.` occurs. */
  datatype Record = Record(kw: Keyword, refs: seq<nat>, coords: Option<Point>, reversed: bool)

  type File = map<nat, Record>

  // ----- The tables

  function PointTable(f: File): map<nat, Point> {
    map id | id in f && f[id].kw == CARTESIAN_POINT && f[id].coords.Some? :: f[id].coords.value
  }

  function VertexTable(f: File): map<nat, Point> {
    map id | id in f && f[id].kw == VERTEX_POINT && f[id].refs != [] && f[id].refs[0] in PointTable(f)
      :: PointTable(f)[f[id].refs[0]]
  }

  function CurveTable(f: File): map<nat, (nat, nat)> {
    map id | id in f && f[id].kw == EDGE_CURVE && |f[id].refs| >= 2 :: (f[id].refs[0], f[id].refs[1])
  }

  /** The last reference is the curve. */
  function OrientedTable(f: File): map<nat, (nat, bool)> {
    map id | id in f && f[id].kw == ORIENTED_EDGE && f[id].refs != []
      :: (f[id].refs[|f[id].refs| - 1], !f[id].reversed)
  }

  function LoopTable(f: File): map<nat, seq<nat>> {
    map id | id in f && f[id].kw == EDGE_LOOP :: f[id].refs
  }

  datatype Tables = Tables(vertices: map<nat, Point>, curves: map<nat, (nat, nat)>, oriented: map<nat, (nat, bool)>,
                           loops: map<nat, seq<nat>>)

  function TablesOf(f: File): Tables {
    Tables(VertexTable(f), CurveTable(f), OrientedTable(f), LoopTable(f))
  }

  // ----- What a face contributes

  /** The position at which an oriented edge starts. */
  function StartOf(t: Tables, oe: nat): Option<Point> {
    if oe !in t.oriented then None
    else
      var (curve, forward) := t.oriented[oe];
      if curve !in t.curves then None
      else
        var (v0, v1) := t.curves[curve];
        var start := if forward then v0 else v1;
        if start !in t.vertices then None else Some(t.vertices[start])
  }

  /** The corners of a loop, if every edge resolves. */
  function StartsOf(t: Tables, edges: seq<nat>): (pts: Option<seq<Point>>)
    ensures pts.Some? ==> |pts.value| == |edges|
    ensures pts.Some? <==> forall i | 0 <= i < |edges| :: StartOf(t, edges[i]).Some?
    ensures pts.Some? ==> forall i | 0 <= i < |edges| :: pts.value[i] == StartOf(t, edges[i]).value
  {
    if edges == [] then Some([])
    else
      var prefix := edges[..|edges| - 1];
      var rest, last := StartsOf(t, prefix), StartOf(t, edges[|edges| - 1]);
      assert forall i | 0 <= i < |prefix| :: edges[i] == prefix[i];
      if rest.Some? && last.Some? then Some(rest.value + [last.value]) else None
  }

  function Resolved(t: Tables, id: nat): (pts: Option<seq<Point>>) {
    if id !in t.loops then None
    else
      var pts := StartsOf(t, t.loops[id]);
      if pts.Some? && |pts.value| >= 3 then pts else None
  }

  /** The record of an oriented edge leads to a position: its last reference is an edge curve, whose first or second
    reference, by the direction, is a vertex, whose first reference is a point there. */
  ghost predicate LeadsTo(f: File, oe: nat, p: Point) {
    && oe in f && f[oe].kw == ORIENTED_EDGE && f[oe].refs != []
    && var curve := f[oe].refs[|f[oe].refs| - 1];
    && curve in f && f[curve].kw == EDGE_CURVE && |f[curve].refs| >= 2
    && var vertex := f[curve].refs[if f[oe].reversed then 1 else 0];
    && vertex in f && f[vertex].kw == VERTEX_POINT && f[vertex].refs != []
    && var point := f[vertex].refs[0];
       point in f && f[point].kw == CARTESIAN_POINT && f[point].coords == Some(p)
  }

  lemma StartIff(f: File, oe: nat, p: Point)
    ensures StartOf(TablesOf(f), oe) == Some(p) <==> LeadsTo(f, oe, p)
  {
  }

  lemma StartsAre(t: Tables, edges: seq<nat>, pts: seq<Point>)
    ensures StartsOf(t, edges) == Some(pts)
            <==> |edges| == |pts| && forall i | 0 <= i < |pts| :: StartOf(t, edges[i]) == Some(pts[i])
  {
    hide StartOf, StartsOf;
    var starts := StartsOf(t, edges);
    if |edges| == |pts| && forall i | 0 <= i < |pts| :: StartOf(t, edges[i]) == Some(pts[i]) {
      assert starts.Some? && |starts.value| == |pts|;
      assert starts.value == pts;
    }
  }

  /** A loop is read exactly when it has three edges or more and all of them lead somewhere; its corners are those positions
    in order. */
  lemma CornersOfLoop(f: File, id: nat, pts: seq<Point>)
    ensures Resolved(TablesOf(f), id) == Some(pts)
            <==> && id in f && f[id].kw == EDGE_LOOP && |f[id].refs| == |pts| >= 3
                 && forall i | 0 <= i < |pts| :: LeadsTo(f, f[id].refs[i], pts[i])
  {
    hide StartOf, LeadsTo, StartsOf;
    var t := TablesOf(f);
    if id in f && f[id].kw == EDGE_LOOP {
      var refs := f[id].refs;
      forall i | 0 <= i < |refs| && i < |pts|
        ensures StartOf(t, refs[i]) == Some(pts[i]) <==> LeadsTo(f, refs[i], pts[i])
      {
        StartIff(f, refs[i], pts[i]);
      }
      StartsAre(t, refs, pts);
    }
  }

  function Fan(pts: seq<Point>): (ts: seq<Triangle>) {
    if |pts| < 3 then []
    else seq(|pts| - 2, i requires 0 <= i < |pts| - 2 => Triangle(pts[0], pts[i + 1], pts[i + 2]))
  }

  /** A loop of n corners gives n - 2 triangles: all of them have the first corner in common, and the sides opposite to it
    are, in order and direction, the loop's edges that do not touch that corner. */
  lemma FanOfLoop(pts: seq<Point>)
    requires |pts| >= 3
    ensures |Fan(pts)| == |pts| - 2
    ensures forall t | t in Fan(pts) :: t.p == pts[0]
    ensures forall i | 0 <= i < |Fan(pts)| :: Fan(pts)[i].q == pts[i + 1] && Fan(pts)[i].r == pts[i + 2]
  {
    assert forall i | 0 <= i < |Fan(pts)| :: Fan(pts)[i] == Triangle(pts[0], pts[i + 1], pts[i + 2]);
  }

  /** The directed sides of a list of triangles. */
  ghost function SidesOf(ts: seq<Triangle>): multiset<(Point, Point)> {
    if ts == [] then multiset{}
    else
      var t := ts[|ts| - 1];
      SidesOf(ts[..|ts| - 1]) + multiset{(t.p, t.q), (t.q, t.r), (t.r, t.p)}
  }

  /** The edges from each point of a list to the next. */
  ghost function Chain(pts: seq<Point>): multiset<(Point, Point)> {
    if |pts| < 2 then multiset{} else Chain(pts[..|pts| - 1]) + multiset{(pts[|pts| - 2], pts[|pts| - 1])}
  }

  /** The diagonals from the first corner, each in both directions. */
  ghost function Diagonals(pts: seq<Point>): multiset<(Point, Point)> {
    if |pts| < 4 then multiset{}
    else Diagonals(pts[..|pts| - 1]) + multiset{(pts[0], pts[|pts| - 2]), (pts[|pts| - 2], pts[0])}
  }

  /** The sides of the triangles are the edges of the closed loop, each as often and in the same direction, and diagonals
    that two triangles run along in opposite directions: the fan has the loop as its boundary. */
  lemma {:induction false} FanHasLoopAsBoundary(pts: seq<Point>)
    requires |pts| >= 3
    ensures SidesOf(Fan(pts)) == Chain(pts) + multiset{(pts[|pts| - 1], pts[0])} + Diagonals(pts)
  {
    hide Fan, SidesOf, Chain, Diagonals;
    var n, rest := |pts|, pts[..|pts| - 1];
    LastOfFan(pts);
    ChainMore(pts);
    ChainMore(rest);
    if n > 3 {
      FanHasLoopAsBoundary(rest);
      Regrouped(Chain(rest), Diagonals(rest), (pts[0], pts[n - 2]), (pts[n - 2], pts[n - 1]), (pts[n - 1], pts[0]),
                (pts[n - 2], pts[0]));
    }
  }

  lemma Regrouped<T>(chain: multiset<T>, diagonals: multiset<T>, out: T, edge: T, close: T, back: T)
    ensures chain + multiset{back} + diagonals + multiset{out, edge, close}
            == chain + multiset{edge} + multiset{close} + (diagonals + multiset{out, back})
  {
  }

  lemma LastOfFan(pts: seq<Point>)
    requires |pts| >= 3
    ensures var n, rest := |pts|, pts[..|pts| - 1];
            var last := multiset{(pts[0], pts[n - 2]), (pts[n - 2], pts[n - 1]), (pts[n - 1], pts[0])};
            if n == 3 then SidesOf(Fan(pts)) == last && Diagonals(pts) == multiset{}
            else && SidesOf(Fan(pts)) == SidesOf(Fan(rest)) + last
                 && Diagonals(pts) == Diagonals(rest) + multiset{(pts[0], pts[n - 2]), (pts[n - 2], pts[0])}
  {
    var n := |pts|;
    var last := Triangle(pts[0], pts[n - 2], pts[n - 1]);
    if n == 3 {
      assert Fan(pts) == [last] && [last][..0] == [];
    } else {
      assert Fan(pts)[..n - 3] == Fan(pts[..n - 1]) && Fan(pts)[n - 3] == last;
    }
  }

  lemma ChainMore(pts: seq<Point>)
    requires |pts| >= 2
    ensures Chain(pts) == Chain(pts[..|pts| - 1]) + multiset{(pts[|pts| - 2], pts[|pts| - 1])}
    ensures |pts| == 2 ==> Chain(pts[..1]) == multiset{}
  {
  }

  /** The fan of the first loop of a bound that resolves. */
  function BoundFan(t: Tables, loops: seq<nat>): seq<Triangle> {
    if loops == [] then []
    else
      var pts := Resolved(t, loops[0]);
      if pts.Some? then Fan(pts.value) else BoundFan(t, loops[1..])
  }

  /** A bound contributes the fan of one loop, before which none resolves, or nothing when none of its loops resolves. */
  lemma {:induction false} BoundFanOfFirst(t: Tables, loops: seq<nat>)
    ensures (forall i | 0 <= i < |loops| :: Resolved(t, loops[i]).None?) ==> BoundFan(t, loops) == []
    ensures forall i | 0 <= i < |loops| && Resolved(t, loops[i]).Some? && forall j | 0 <= j < i :: Resolved(t, loops[j]).None? ::
              BoundFan(t, loops) == Fan(Resolved(t, loops[i]).value)
  {
    hide Resolved, Fan;
    if loops != [] && Resolved(t, loops[0]).None? {
      BoundFanOfFirst(t, loops[1..]);
      forall i | 0 <= i < |loops| && Resolved(t, loops[i]).Some? && forall j | 0 <= j < i :: Resolved(t, loops[j]).None?
        ensures BoundFan(t, loops) == Fan(Resolved(t, loops[i]).value)
      {
        assert loops[1..][i - 1] == loops[i];
        assert forall j | 0 <= j < i - 1 :: loops[1..][j] == loops[j + 1];
      }
    }
  }

  predicate IsBound(f: File, id: nat) {
    id in f && (f[id].kw == FACE_OUTER_BOUND || f[id].kw == FACE_BOUND)
  }

  function BoundsFan(f: File, t: Tables, refs: seq<nat>): seq<Triangle> {
    if refs == [] then []
    else
      var last := refs[|refs| - 1];
      BoundsFan(f, t, refs[..|refs| - 1]) + if IsBound(f, last) then BoundFan(t, f[last].refs) else []
  }

  /** Outer and inner bounds are read alike, so a hole in a face comes back filled. */
  lemma HolesAreFilled(f: File, t: Tables, outer: nat, inner: nat)
    requires outer in f && f[outer].kw == FACE_OUTER_BOUND && inner in f && f[inner].kw == FACE_BOUND
    ensures BoundsFan(f, t, [outer, inner]) == BoundFan(t, f[outer].refs) + BoundFan(t, f[inner].refs)
  {
    hide BoundFan;
    assert [outer, inner][..1] == [outer] && [outer][..0] == [];
    assert BoundsFan(f, t, [outer]) == [] + BoundFan(t, f[outer].refs);
  }

  /** The triangles one record contributes. */
  function Contributed(f: File, id: nat): seq<Triangle>
    requires id in f
  {
    if f[id].kw == ADVANCED_FACE then BoundsFan(f, TablesOf(f), f[id].refs) else []
  }

  /** The triangles of a set of records; a sum, so their order does not matter. */
  ghost function Recovered(f: File, ids: set<nat>): multiset<Triangle>
    requires ids <= f.Keys
  {
    if ids == {} then multiset{}
    else
      var id :| id in ids;
      Recovered(f, ids - {id}) + multiset(Contributed(f, id))
  }

  lemma {:induction false} RecoveredFrom(f: File, ids: set<nat>, id: nat)
    requires ids <= f.Keys && id in ids
    ensures Recovered(f, ids) == Recovered(f, ids - {id}) + multiset(Contributed(f, id))
  {
    var first :| first in ids && Recovered(f, ids) == Recovered(f, ids - {first}) + multiset(Contributed(f, first));
    if first != id {
      RecoveredFrom(f, ids - {first}, id);
      RecoveredFrom(f, ids - {id}, first);
      assert ids - {first} - {id} == ids - {id} - {first};
    }
  }

  // ----- The reader

  method ResolveLoop(t: Tables, id: nat) returns (pts: Option<seq<Point>>)
    ensures pts == Resolved(t, id)
  {
    if id !in t.loops {
      return None;
    }
    var edges := t.loops[id];
    var starts: seq<Point> := [];
    var i := 0;
    while i < |edges|
      invariant 0 <= i <= |edges| && StartsOf(t, edges[..i]) == Some(starts)
    {
      assert edges[..i + 1][..i] == edges[..i];
      var start := StartOf(t, edges[i]);
      if start.None? {
        assert StartsOf(t, edges).None?;
        return None;
      }
      starts := starts + [start.value];
      i := i + 1;
    }
    assert edges[..i] == edges;
    return if |starts| >= 3 then Some(starts) else None;
  }

  lemma {:induction false} LoadedMore(read: seq<Triangle>, t: Triangle)
    ensures WithTriangles(EMPTY, read + [t]) == WithTriangle(WithTriangles(EMPTY, read), t)
  {
    assert (read + [t])[..|read|] == read;
  }

  method AddRead(solid: Solid, t: Triangle, ghost read: seq<Triangle>)
    requires solid.State() == WithTriangles(EMPTY, read)
    modifies solid
    ensures solid.State() == WithTriangles(EMPTY, read + [t])
  {
    LoadedMore(read, t);
    solid.AddTriangle(t);
  }

  ghost function Grown(read: seq<Triangle>, ts: seq<Triangle>, k: nat): seq<Triangle>
    requires k <= |ts|
  {
    read + ts[..k]
  }

  lemma GrownNext(read: seq<Triangle>, ts: seq<Triangle>, k: nat)
    requires k < |ts|
    ensures Grown(read, ts, k) + [ts[k]] == Grown(read, ts, k + 1)
  {
  }

  lemma GrownEnds(read: seq<Triangle>, ts: seq<Triangle>)
    ensures Grown(read, ts, 0) == read && Grown(read, ts, |ts|) == read + ts
  {
  }

  method FanTriangulate(solid: Solid, pts: seq<Point>, ghost read: seq<Triangle>)
    requires solid.State() == WithTriangles(EMPTY, read)
    modifies solid
    ensures solid.State() == WithTriangles(EMPTY, read + Fan(pts))
  {
    hide WithTriangles;
    ghost var fan := Fan(pts);
    GrownEnds(read, fan);
    if |pts| < 3 {
      return;
    }
    var i := 1;
    while i < |pts| - 1
      invariant 1 <= i <= |pts| - 1
      invariant solid.State() == WithTriangles(EMPTY, Grown(read, fan, i - 1))
    {
      AddRead(solid, Triangle(pts[0], pts[i], pts[i + 1]), Grown(read, fan, i - 1));
      GrownNext(read, fan, i - 1);
      i := i + 1;
    }
  }

  method ReadBound(t: Tables, solid: Solid, loops: seq<nat>, ghost read: seq<Triangle>)
    requires solid.State() == WithTriangles(EMPTY, read)
    modifies solid
    ensures solid.State() == WithTriangles(EMPTY, read + BoundFan(t, loops))
  {
    var i := 0;
    while i < |loops|
      invariant 0 <= i <= |loops|
      invariant solid.State() == WithTriangles(EMPTY, read) && BoundFan(t, loops[i..]) == BoundFan(t, loops)
    {
      var pts := ResolveLoop(t, loops[i]);
      if pts.Some? {
        FanTriangulate(solid, pts.value, read);
        return;
      }
      assert loops[i..][1..] == loops[i + 1..];
      i := i + 1;
    }
    assert loops[i..] == [] && read + [] == read;
  }

  /** What has been read after the first `i` references of a face. */
  ghost function ReadSoFar(f: File, t: Tables, refs: seq<nat>, read: seq<Triangle>, i: nat): seq<Triangle>
    requires i <= |refs|
  {
    read + BoundsFan(f, t, refs[..i])
  }

  lemma NextBound(f: File, t: Tables, refs: seq<nat>, read: seq<Triangle>, i: nat)
    requires i < |refs|
    ensures ReadSoFar(f, t, refs, read, i + 1)
            == if IsBound(f, refs[i]) then ReadSoFar(f, t, refs, read, i) + BoundFan(t, f[refs[i]].refs)
               else ReadSoFar(f, t, refs, read, i)
  {
    assert refs[..i + 1][..i] == refs[..i];
  }

  lemma NoBoundsAndAll(f: File, t: Tables, refs: seq<nat>, read: seq<Triangle>)
    ensures ReadSoFar(f, t, refs, read, 0) == read
    ensures ReadSoFar(f, t, refs, read, |refs|) == read + BoundsFan(f, t, refs)
  {
    assert refs[..|refs|] == refs;
  }

  method ReadFace(f: File, t: Tables, solid: Solid, refs: seq<nat>, ghost read: seq<Triangle>)
    requires solid.State() == WithTriangles(EMPTY, read)
    modifies solid
    ensures solid.State() == WithTriangles(EMPTY, read + BoundsFan(f, t, refs))
  {
    hide WithTriangles, ReadSoFar, BoundsFan, BoundFan;
    NoBoundsAndAll(f, t, refs, read);
    var i := 0;
    while i < |refs|
      invariant 0 <= i <= |refs| && solid.State() == WithTriangles(EMPTY, ReadSoFar(f, t, refs, read, i))
    {
      NextBound(f, t, refs, read, i);
      if IsBound(f, refs[i]) {
        ReadBound(t, solid, f[refs[i]].refs, ReadSoFar(f, t, refs, read, i));
      }
      i := i + 1;
    }
  }

  datatype Outcome = Imported(solid: Mesh) | NoPoints | NoFaces

  /** `read` is some order of the recovered triangles, and `r` what loading them in that order gives. */
  ghost predicate IsImport(f: File, read: seq<Triangle>, r: Outcome) {
    && multiset(read) == Recovered(f, f.Keys)
    && r == if read != [] then Imported(WithTriangles(EMPTY, read)) else if PointTable(f) == map[] then NoPoints else NoFaces
  }

  lemma OneRecordRead(f: File, todo: set<nat>, id: nat, read: seq<Triangle>)
    requires todo <= f.Keys && id in todo && multiset(read) + Recovered(f, todo) == Recovered(f, f.Keys)
    ensures multiset(read + Contributed(f, id)) + Recovered(f, todo - {id}) == Recovered(f, f.Keys)
    ensures f[id].kw != ADVANCED_FACE ==> read + Contributed(f, id) == read
  {
    RecoveredFrom(f, todo, id);
  }

  /** The records are visited in an arbitrary order, as the hash map of the source is. */
  method ImportStep(f: File) returns (r: Outcome, ghost read: seq<Triangle>)
    ensures IsImport(f, read, r)
  {
    var t := TablesOf(f);
    var solid := new Solid();
    read := [];
    var todo := f.Keys;
    while todo != {}
      invariant todo <= f.Keys && fresh(solid)
      invariant solid.State() == WithTriangles(EMPTY, read)
      invariant multiset(read) + Recovered(f, todo) == Recovered(f, f.Keys)
    {
      var id :| id in todo;
      OneRecordRead(f, todo, id, read);
      if f[id].kw == ADVANCED_FACE {
        ReadFace(f, t, solid, f[id].refs, read);
        read := read + BoundsFan(f, t, f[id].refs);
      }
      todo := todo - {id};
    }
    if solid.faces != [] {
      return Imported(solid.State()), read;
    }
    assert read == [];
    return if PointTable(f) == map[] then NoPoints else NoFaces, read;
  }

  /** Two imports of the same file that visit its records in different orders: both succeed, exactly when some face
    resolves, or give the same error; both have one triangle per recovered triangle; and they are exact together, iff no
    two different corners are nearer than 1e-7. */
  lemma ImportOrderIrrelevant(f: File, read: seq<Triangle>, r: Outcome, read': seq<Triangle>, r': Outcome)
    requires IsImport(f, read, r) && IsImport(f, read', r')
    ensures r.Imported? <==> Recovered(f, f.Keys) != multiset{}
    ensures if r.Imported? then r'.Imported? && |r'.solid.faces| == |r.solid.faces| == |Recovered(f, f.Keys)| else r' == r
    ensures Separated(read) <==> Separated(read')
    ensures r.Imported? ==> (multiset(r.solid.Triangles()) == Recovered(f, f.Keys) <==> Separated(read))
  {
    LoadsExactlyIff(read);
    EmptyMultiset(read);
    EmptyMultiset(read');
    if Separated(read) {
      SeparatedOrder(read, read');
    }
    if Separated(read') {
      SeparatedOrder(read', read);
    }
  }

  lemma EmptyMultiset(ts: seq<Triangle>)
    ensures multiset(ts) == multiset{} <==> ts == []
    ensures |multiset(ts)| == |ts|
  {
    if ts != [] {
      assert ts[0] in multiset(ts);
    }
  }
}
