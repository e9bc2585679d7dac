/** The edge count that guards the mesher (`validate_watertight` of
  tpt-vertex-simulation/src/mesh.rs), and what it guarantees the slicer. */
module Watertightness {
  import opened Solids
  import opened Slicing

  datatype Shell = Sound | TooFew(faces: nat) | BadEdge(edge: Edge, count: nat)

  function SidesOf(f: Face): seq<Edge> {
    [EdgeOf(f.a, f.b), EdgeOf(f.b, f.c), EdgeOf(f.c, f.a)]
  }

  /** Every side of the faces, as often as it occurs. */
  function Tally(faces: seq<Face>): multiset<Edge> {
    if faces == [] then multiset{} else Tally(faces[..|faces| - 1]) + multiset(SidesOf(faces[|faces| - 1]))
  }

  /** Every edge occurs exactly twice. */
  ghost predicate AllTwice(tally: multiset<Edge>) {
    forall e | e in tally :: tally[e] == 2
  }

  ghost predicate AllTriangular(m: Mesh) {
    forall k | 0 <= k < |m.faces| :: Triangular(m.faces[k])
  }

  ghost predicate Counts(edges: map<Edge, nat>, tally: multiset<Edge>) {
    forall e :: (e in edges <==> e in tally) && (e in edges ==> edges[e] == tally[e])
  }

  lemma NothingCounted()
    ensures Counts(map[], multiset{})
  {
  }

  method CountSide(edges: map<Edge, nat>, e: Edge, ghost tally: multiset<Edge>) returns (edges': map<Edge, nat>)
    requires Counts(edges, tally)
    ensures Counts(edges', tally + multiset{e})
  {
    edges' := edges[e := (if e in edges then edges[e] else 0) + 1];
  }

  method CountFace(edges: map<Edge, nat>, f: Face, ghost tally: multiset<Edge>) returns (edges': map<Edge, nat>)
    requires Counts(edges, tally)
    ensures Counts(edges', tally + multiset(SidesOf(f)))
  {
    hide EdgeOf, Counts;
    var sides := SidesOf(f);
    edges' := CountSide(edges, sides[0], tally);
    edges' := CountSide(edges', sides[1], tally + multiset{sides[0]});
    edges' := CountSide(edges', sides[2], tally + multiset{sides[0]} + multiset{sides[1]});
    assert tally + multiset{sides[0]} + multiset{sides[1]} + multiset{sides[2]} == tally + multiset(sides);
  }

  /** The shell is sound exactly when it has at least four faces and every edge is a side exactly twice; a defect named is
    a real one. The edges are looked at in an arbitrary order, as the hash map of the source is. */
  method ValidateWatertight(mesh: Mesh) returns (r: Shell)
    ensures r.Sound? <==> |mesh.faces| >= 4 && AllTwice(Tally(mesh.faces))
    ensures r.TooFew? <==> |mesh.faces| < 4
    ensures r.BadEdge? ==> r.edge in Tally(mesh.faces) && Tally(mesh.faces)[r.edge] == r.count != 2
  {
    hide Counts, SidesOf;
    if |mesh.faces| < 4 {
      return TooFew(|mesh.faces|);
    }
    var edges: map<Edge, nat> := map[];
    NothingCounted();
    var k := 0;
    while k < |mesh.faces|
      invariant 0 <= k <= |mesh.faces| && Counts(edges, Tally(mesh.faces[..k]))
    {
      assert mesh.faces[..k + 1][..k] == mesh.faces[..k];
      edges := CountFace(edges, mesh.faces[k], Tally(mesh.faces[..k]));
      k := k + 1;
    }
    assert mesh.faces[..k] == mesh.faces;
    r := FirstBad(edges);
    hide Tally;
    CountsAgree(edges, Tally(mesh.faces));
  }

  lemma CountsAgree(edges: map<Edge, nat>, tally: multiset<Edge>)
    requires Counts(edges, tally)
    ensures (forall e | e in edges :: edges[e] == 2) <==> AllTwice(tally)
    ensures forall e | e in edges :: e in tally && tally[e] == edges[e]
  {
  }

  /** Any edge whose count is not two. */
  method FirstBad(edges: map<Edge, nat>) returns (r: Shell)
    ensures !r.TooFew? && (r.Sound? <==> forall e | e in edges :: edges[e] == 2)
    ensures r.BadEdge? ==> r.edge in edges && edges[r.edge] == r.count != 2
  {
    var todo := edges.Keys;
    while todo != {}
      invariant todo <= edges.Keys
      invariant forall e | e in edges && e !in todo :: edges[e] == 2
    {
      var e :| e in todo;
      if edges[e] != 2 {
        return BadEdge(e, edges[e]);
      }
      todo := todo - {e};
    }
    r := Sound;
  }

  // ----- What the count means

  /** The faces, among the first `n`, that have the edge between `u` and `v`. */
  function FacesOn(m: Mesh, n: nat, u: nat, v: nat): set<nat>
    requires n <= |m.faces|
  {
    set k: nat | k < n && EdgeOn(m, k, u, v)
  }

  lemma SidesOnce(f: Face, u: nat, v: nat)
    requires Triangular(f) && u != v
    ensures multiset(SidesOf(f))[EdgeOf(u, v)] == if HasEdge(f, u, v) then 1 else 0
  {
    var a, b, c := EdgeOf(f.a, f.b), EdgeOf(f.b, f.c), EdgeOf(f.c, f.a);
    assert multiset(SidesOf(f)) == multiset{a, b, c};
  }

  lemma OneMoreFace(m: Mesh, n: nat, u: nat, v: nat)
    requires 1 <= n <= |m.faces| && u != v
    ensures |FacesOn(m, n, u, v)| == |FacesOn(m, n - 1, u, v)| + if HasEdge(m.faces[n - 1], u, v) then 1 else 0
  {
    assert FacesOn(m, n, u, v) == FacesOn(m, n - 1, u, v) + if EdgeOn(m, n - 1, u, v) then {n - 1} else {};
  }

  /** Among triangles, an edge is counted once for every face that has it. */
  lemma {:induction false} TallyIsFaces(m: Mesh, n: nat, u: nat, v: nat)
    requires n <= |m.faces| && u != v && AllTriangular(m)
    ensures Tally(m.faces[..n])[EdgeOf(u, v)] == |FacesOn(m, n, u, v)|
  {
    if n == 0 {
      assert FacesOn(m, 0, u, v) == {};
    } else {
      hide EdgeOf, SidesOf, HasEdge, FacesOn;
      TallyIsFaces(m, n - 1, u, v);
      SidesOnce(m.faces[n - 1], u, v);
      assert m.faces[..n][..n - 1] == m.faces[..n - 1];
      OneMoreFace(m, n, u, v);
      assert Tally(m.faces[..n]) == Tally(m.faces[..n - 1]) + multiset(SidesOf(m.faces[n - 1]));
      hide Tally, AllTriangular;
    }
  }

  lemma ThreeIsMore(s: set<nat>, i: nat, j: nat, k: nat)
    requires i in s && j in s && k in s && i != j && j != k && i != k
    ensures |s| >= 3
  {
    assert |s - {i}| == |s| - 1;
    assert |s - {i} - {j}| == |s| - 2;
    assert |s - {i} - {j} - {k}| == |s| - 3;
  }

  lemma PartnerInPair(s: set<nat>, k: nat) returns (j: nat)
    requires |s| == 2 && k in s
    ensures j in s && j != k
  {
    assert |s - {k}| == 1;
    j :| j in s - {k};
  }

  lemma TwoOfPair(s: set<nat>, i: nat, j: nat)
    requires i in s && j in s && i != j && forall k | k in s :: k == i || k == j
    ensures |s| == 2
  {
    assert s == {i, j};
  }

  /** Every side of a triangle joins two different vertices. */
  lemma SideOfFace(m: Mesh, e: Edge)
    requires e in Tally(m.faces) && AllTriangular(m)
    ensures e == EdgeOf(e.lo, e.hi) && e.lo != e.hi
  {
    hide Tally, AllTriangular;
    SideOfPrefix(m, |m.faces|, e);
    assert m.faces[..|m.faces|] == m.faces;
  }

  lemma {:induction false} SideOfPrefix(m: Mesh, n: nat, e: Edge)
    requires n <= |m.faces| && AllTriangular(m)
    ensures e in Tally(m.faces[..n]) ==> e.lo < e.hi
  {
    if n > 0 {
      SideOfPrefix(m, n - 1, e);
      assert m.faces[..n][..n - 1] == m.faces[..n - 1];
      assert Triangular(m.faces[n - 1]);
    }
  }

  /** A shell of triangles passes the count exactly when it has four faces and each edge is on exactly two of them, which
    is what the slicer needs for closed contours. */
  lemma CountedIffEdgesTwice(m: Mesh)
    requires AllTriangular(m)
    ensures AllTwice(Tally(m.faces)) <==> EdgesTwice(m)
  {
    if AllTwice(Tally(m.faces)) {
      CountedMeansTwice(m);
    }
    if EdgesTwice(m) {
      hide Tally, EdgesTwice, AllTriangular;
      forall e | e in Tally(m.faces)
        ensures Tally(m.faces)[e] == 2
      {
        SideCountedTwice(m, e);
      }
    }
  }

  lemma SideCountedTwice(m: Mesh, e: Edge)
    requires AllTriangular(m)
    requires EdgesTwice(m) && e in Tally(m.faces)
    ensures Tally(m.faces)[e] == 2
  {
    SideOfFace(m, e);
    hide Tally, AllTriangular, EdgesTwice, FacesOn;
    TallyIsFaces(m, |m.faces|, e.lo, e.hi);
    assert m.faces[..|m.faces|] == m.faces;
    TwiceOn(m, e.lo, e.hi);
  }

  lemma CountedOn(m: Mesh, k: nat, u: nat, v: nat)
    requires AllTriangular(m)
    requires AllTwice(Tally(m.faces))
    requires EdgeOn(m, k, u, v)
    ensures |FacesOn(m, |m.faces|, u, v)| == 2
  {
    hide Tally, AllTriangular, EdgeOf, FacesOn, HasEdge;
    OnFaces(m, k, u, v);
    TallyIsFaces(m, |m.faces|, u, v);
    assert m.faces[..|m.faces|] == m.faces;
    assert EdgeOf(u, v) in Tally(m.faces);
  }

  lemma OnFaces(m: Mesh, k: nat, u: nat, v: nat)
    ensures k in FacesOn(m, |m.faces|, u, v) <==> EdgeOn(m, k, u, v)
  {
  }

  lemma CountedMeansTwice(m: Mesh)
    requires AllTriangular(m)
    requires AllTwice(Tally(m.faces))
    ensures EdgesTwice(m)
  {
    var n := |m.faces|;
    hide Tally, AllTwice, AllTriangular, HasEdge, FacesOn;
    forall k: nat, u: nat, v: nat | EdgeOn(m, k, u, v)
      ensures HasNeighbour(m, k, u, v)
    {
      CountedOn(m, k, u, v);
      OnFaces(m, k, u, v);
      var j := PartnerInPair(FacesOn(m, n, u, v), k);
      OnFaces(m, j, u, v);
    }
    forall i: nat, j: nat, k: nat, u: nat, v: nat | EdgeOn(m, i, u, v) && EdgeOn(m, j, u, v) && EdgeOn(m, k, u, v)
      ensures i == j || j == k || i == k
    {
      CountedOn(m, k, u, v);
      OnFaces(m, i, u, v);
      OnFaces(m, j, u, v);
      OnFaces(m, k, u, v);
      if i != j && j != k && i != k {
        ThreeIsMore(FacesOn(m, n, u, v), i, j, k);
      }
    }
  }

  lemma TwiceOn(m: Mesh, u: nat, v: nat)
    requires EdgesTwice(m) && FacesOn(m, |m.faces|, u, v) != {}
    ensures |FacesOn(m, |m.faces|, u, v)| == 2
  {
    var s := FacesOn(m, |m.faces|, u, v);
    var k :| k in s;
    assert HasNeighbour(m, k, u, v);
    var j: nat :| j != k && EdgeOn(m, j, u, v);
    TwoOfPair(s, k, j);
  }
}
