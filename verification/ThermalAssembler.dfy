/** The assembly loops in place, proved against `Assembled` and `Constrained`
  (tpt-vertex-simulation/src/thermal.rs and the fixed-DOF loop of
  tpt-vertex-simulation/src/assembly.rs). */
module ThermalAssembler {
  import opened LinearSystems
  import opened Rotations
  import opened MatrixArrays
  import opened Elimination
  import opened Conduction
  import opened Dirichlet
  import opened DenseSolver

  datatype Source = Source(node: nat, heat: real)

  ghost predicate SourcesInRange(sources: seq<Source>, n: nat) {
    forall i | 0 <= i < |sources| :: sources[i].node < n
  }

  /** The heat put into each node. */
  function Heated(n: nat, sources: seq<Source>): (f: Vec)
    requires SourcesInRange(sources, n)
    ensures |f| == n
  {
    if sources == [] then seq(n, _ => 0.0)
    else
      var f, last := Heated(n, sources[..|sources| - 1]), sources[|sources| - 1];
      f[last.node := f[last.node] + last.heat]
  }

  /** The conduction system before any temperature is prescribed. */
  function Balance(mesh: VolMesh, conductivity: real, sources: seq<Source>): (s: System)
    requires mesh.Valid() && SourcesInRange(sources, |mesh.nodes|)
    ensures s.Square(|mesh.nodes|)
  {
    System(Assembled(ElementsOf(mesh, conductivity), |mesh.nodes|), Heated(|mesh.nodes|, sources))
  }

  method AddEntry(k: array2<real>, n: nat, r: nat, c: nat, d: real)
    requires k.Length0 == k.Length1 == n && r < n && c < n
    modifies k
    ensures Rows(k) == AddAt(old(Rows(k)), n, r, c, d)
  {
    ghost var m := AddAt(Rows(k), n, r, c, d);
    k[r, c] := k[r, c] + d;
    RowsEqual(k, m);
  }

  lemma NextEntry(base: Matrix, n: nat, e: Element, i: nat, j: nat, m: nat)
    requires IsSquare(base, n) && e.Fits(n) && i < 4 && j < 4 && m == 4 * i + j
    ensures Scattered(base, n, e, m + 1) == AddAt(Scattered(base, n, e, m), n, e.tet[i], e.tet[j], e.ke[i][j])
  {
    assert m / 4 == i && m % 4 == j;
    EntryAdded(base, n, e, m, m / 4, m % 4);
  }

  lemma EntryAdded(base: Matrix, n: nat, e: Element, m: nat, i: nat, j: nat)
    requires IsSquare(base, n) && e.Fits(n) && m < 16 && i == m / 4 && j == m % 4
    ensures Scattered(base, n, e, m + 1) == AddAt(Scattered(base, n, e, m), n, e.tet[i], e.tet[j], e.ke[i][j])
  {
  }

  method ScatterNext(k: array2<real>, n: nat, e: Element, i: nat, j: nat, ghost base: Matrix, ghost m: nat)
    requires k.Length0 == k.Length1 == n && e.Fits(n) && IsSquare(base, n) && i < 4 && j < 4 && m == 4 * i + j
    requires Rows(k) == Scattered(base, n, e, m)
    modifies k
    ensures Rows(k) == Scattered(base, n, e, m + 1)
  {
    NextEntry(base, n, e, i, j, m);
    AddEntry(k, n, e.tet[i], e.tet[j], e.ke[i][j]);
  }

  method ScatterRow(k: array2<real>, n: nat, e: Element, i: nat, ghost base: Matrix, ghost first: nat)
    requires k.Length0 == k.Length1 == n && e.Fits(n) && IsSquare(base, n) && i < 4 && first == 4 * i
    requires Rows(k) == Scattered(base, n, e, first)
    modifies k
    ensures Rows(k) == Scattered(base, n, e, first + 4)
  {
    hide Scattered;
    ghost var m := first;
    var j := 0;
    while j < 4
      invariant 0 <= j <= 4 && m == first + j
      invariant Rows(k) == Scattered(base, n, e, m)
    {
      ScatterNext(k, n, e, i, j, base, m);
      m, j := m + 1, j + 1;
    }
  }

  lemma NothingScattered(base: Matrix, n: nat, e: Element)
    requires IsSquare(base, n) && e.Fits(n)
    ensures Scattered(base, n, e, 0) == base
  {
  }

  method ScatterElement(k: array2<real>, n: nat, e: Element)
    requires k.Length0 == k.Length1 == n && e.Fits(n)
    modifies k
    ensures Rows(k) == Scattered(old(Rows(k)), n, e, 16)
  {
    hide Scattered;
    ghost var base := Rows(k);
    ghost var m: nat := 0;
    NothingScattered(base, n, e);
    var i := 0;
    while i < 4
      invariant 0 <= i <= 4 && m == 4 * i
      invariant Rows(k) == Scattered(base, n, e, m)
    {
      ScatterRow(k, n, e, i, base, m);
      m, i := m + 4, i + 1;
    }
  }

  method AssembleElements(k: array2<real>, n: nat, es: seq<Element>)
    requires k.Length0 == k.Length1 == n && AllFit(es, n) && Rows(k) == ZeroMatrix(n)
    modifies k
    ensures Rows(k) == Assembled(es, n)
  {
    var e := 0;
    while e < |es|
      invariant 0 <= e <= |es|
      invariant Rows(k) == Assembled(es[..e], n)
    {
      assert es[..e + 1][..e] == es[..e];
      ScatterElement(k, n, es[e]);
      e := e + 1;
    }
    assert es[..e] == es;
  }

  method AddSources(f: array<real>, n: nat, sources: seq<Source>)
    requires SourcesInRange(sources, n) && f[..] == seq(n, _ => 0.0)
    modifies f
    ensures f[..] == Heated(n, sources)
  {
    var i := 0;
    while i < |sources|
      invariant 0 <= i <= |sources|
      invariant f[..] == Heated(n, sources[..i])
    {
      assert sources[..i + 1][..i] == sources[..i];
      f[sources[i].node] := f[sources[i].node] + sources[i].heat;
      i := i + 1;
    }
    assert sources[..i] == sources;
  }

  // ----- Prescribing temperatures

  /** One fixed temperature of the load pass. */
  method ShiftLoads(k: array2<real>, f: array<real>, n: nat, x: Fix)
    requires k.Length0 == k.Length1 == f.Length == n && x.node < n
    modifies f
    ensures f[..] == ShiftedOnce(Rows(k), old(f[..]), n, x)
  {
    ghost var before := f[..];
    ghost var shifted := ShiftedOnce(Rows(k), before, n, x);
    var j := 0;
    while j < n
      invariant 0 <= j <= n
      invariant forall i | 0 <= i < n :: f[i] == if i < j then shifted[i] else before[i]
    {
      if j != x.node {
        f[j] := f[j] - Mul(k[j, x.node], x.value);
      }
      j := j + 1;
    }
  }

  method ShiftAllLoads(k: array2<real>, f: array<real>, n: nat, fixed: seq<Fix>)
    requires k.Length0 == k.Length1 == f.Length == n && InRange(fixed, n)
    modifies f
    ensures f[..] == Shifted(Rows(k), old(f[..]), n, fixed)
  {
    ghost var before := f[..];
    var i := 0;
    while i < |fixed|
      invariant 0 <= i <= |fixed|
      invariant f[..] == Shifted(Rows(k), before, n, fixed[..i])
    {
      assert fixed[..i + 1][..i] == fixed[..i];
      ShiftLoads(k, f, n, fixed[i]);
      i := i + 1;
    }
    assert fixed[..i] == fixed;
  }

  /** One fixed unknown of the elimination pass, shared by the thermal and the elastic assembly. */
  method Pin(k: array2<real>, f: array<real>, n: nat, node: nat, diag: real, load: real)
    requires k.Length0 == k.Length1 == f.Length == n && node < n
    modifies k, f
    ensures Rows(k) == PinnedOnce(old(Rows(k)), n, node, diag)
    ensures f[..] == old(f[..])[node := load]
  {
    ghost var before := Rows(k);
    var j := 0;
    while j < n
      invariant 0 <= j <= n && f[..] == old(f[..])
      invariant forall a, b | 0 <= a < n && 0 <= b < n ::
                  k[a, b] == if (a == node && b < j) || (b == node && a < j) then 0.0 else before[a][b]
    {
      k[node, j] := 0.0;
      k[j, node] := 0.0;
      j := j + 1;
    }
    k[node, node] := diag;
    f[node] := load;
    RowsEqual(k, PinnedOnce(before, n, node, diag));
  }

  method PinAll(k: array2<real>, f: array<real>, n: nat, fixed: seq<Fix>, diag: real)
    requires k.Length0 == k.Length1 == f.Length == n && InRange(fixed, n)
    modifies k, f
    ensures Rows(k) == PinnedMatrix(old(Rows(k)), n, fixed, diag)
    ensures f[..] == PinnedLoad(old(f[..]), n, fixed, diag)
  {
    ghost var before, loads := Rows(k), f[..];
    var i := 0;
    while i < |fixed|
      invariant 0 <= i <= |fixed|
      invariant Rows(k) == PinnedMatrix(before, n, fixed[..i], diag)
      invariant f[..] == PinnedLoad(loads, n, fixed[..i], diag)
    {
      assert fixed[..i + 1][..i] == fixed[..i];
      Pin(k, f, n, fixed[i].node, diag, Mul(diag, fixed[i].value));
      i := i + 1;
    }
    assert fixed[..i] == fixed;
  }

  /** The conduction system of any list of elements, with the prescribed temperatures eliminated. */
  method AssembleSystem(es: seq<Element>, n: nat, sources: seq<Source>, fixed: seq<Fix>)
    returns (k: array2<real>, f: array<real>)
    requires AllFit(es, n) && SourcesInRange(sources, n) && InRange(fixed, n)
    ensures fresh(k) && fresh(f) && k.Length0 == k.Length1 == f.Length == n
    ensures System(Rows(k), f[..]) == Constrained(System(Assembled(es, n), Heated(n, sources)), n, fixed, 1.0)
  {
    k := new real[n, n]((_, _) => 0.0);
    f := new real[n](_ => 0.0);
    RowsEqual(k, ZeroMatrix(n));
    assert f[..] == seq(n, _ => 0.0);
    AssembleElements(k, n, es);
    AddSources(f, n, sources);
    ShiftAllLoads(k, f, n, fixed);
    PinAll(k, f, n, fixed, 1.0);
  }

  // ----- Lattice nodes in no tetrahedron

  lemma {:induction false} ScatterMisses(k: Matrix, n: nat, e: Element, m: nat, d: nat, i: nat)
    requires IsSquare(k, n) && e.Fits(n) && m <= 16 && d < n && i < n && d !in e.tet
    ensures Scattered(k, n, e, m)[d][i] == k[d][i] && Scattered(k, n, e, m)[i][d] == k[i][d]
  {
    if m > 0 {
      ScatterMisses(k, n, e, m - 1, d, i);
      assert e.tet[(m - 1) / 4] in e.tet && e.tet[(m - 1) % 4] in e.tet;
    }
  }

  lemma {:induction false} AssemblyMisses(es: seq<Element>, n: nat, d: nat, i: nat)
    requires AllFit(es, n) && d < n && i < n && forall e | 0 <= e < |es| :: d !in es[e].tet
    ensures Assembled(es, n)[d][i] == 0.0 == Assembled(es, n)[i][d]
  {
    if es != [] {
      AssemblyMisses(es[..|es| - 1], n, d, i);
      ScatterMisses(Assembled(es[..|es| - 1], n), n, es[|es| - 1], 16, d, i);
    }
  }

  lemma {:induction false} ZeroRowGivesNothing(row: Vec, fixed: seq<Fix>)
    requires InRange(fixed, |row|) && forall i | 0 <= i < |row| :: row[i] == 0.0
    ensures Taken(row, fixed) == 0.0
  {
    if fixed != [] {
      ZeroRowGivesNothing(row, fixed[..|fixed| - 1]);
    }
  }

  /** A free node that no equation mentions is not mentioned by the reduced system either. */
  lemma DeadThroughElimination(s: System, n: nat, fixed: seq<Fix>, diag: real, d: nat)
    requires s.Square(n) && InRange(fixed, n) && Dead(s, n, d) && d !in Dirichlet.Nodes(fixed)
    ensures Dead(Constrained(s, n, fixed, diag), n, d)
  {
    PinnedEntries(s.a, n, fixed, diag);
    PinnedLoads(Shifted(s.a, s.b, n, fixed), n, fixed, diag);
    ShiftedLoad(s.a, s.b, n, fixed, d);
    ZeroRowGivesNothing(s.a[d], fixed);
  }

  /** The nodes in no tetrahedron, neither heated nor fixed: those of the bounding box outside the solid. */
  function Unused(mesh: VolMesh, sources: seq<Source>, fixed: seq<Fix>): set<nat>
    requires SourcesInRange(sources, |mesh.nodes|)
  {
    set d: nat | d < |mesh.nodes| && IsUnused(mesh, sources, fixed, d)
  }

  predicate IsUnused(mesh: VolMesh, sources: seq<Source>, fixed: seq<Fix>, d: nat)
    requires SourcesInRange(sources, |mesh.nodes|) && d < |mesh.nodes|
  {
    && (forall e | 0 <= e < |mesh.tets| :: d !in mesh.tets[e])
    && Heated(|mesh.nodes|, sources)[d] == 0.0 && d !in Dirichlet.Nodes(fixed)
  }

  lemma UnusedAreDead(mesh: VolMesh, conductivity: real, sources: seq<Source>, fixed: seq<Fix>)
    requires mesh.Valid() && SourcesInRange(sources, |mesh.nodes|) && InRange(fixed, |mesh.nodes|)
    ensures AllDead(Constrained(Balance(mesh, conductivity, sources), |mesh.nodes|, fixed, 1.0), |mesh.nodes|,
                    Unused(mesh, sources, fixed))
  {
    var n := |mesh.nodes|;
    forall d | d in Unused(mesh, sources, fixed)
      ensures Dead(Constrained(Balance(mesh, conductivity, sources), n, fixed, 1.0), n, d)
    {
      UnusedIsDead(mesh, conductivity, sources, fixed, d);
      hide Dead, Balance;
      DeadThroughElimination(Balance(mesh, conductivity, sources), n, fixed, 1.0, d);
    }
  }

  lemma UnusedIsDead(mesh: VolMesh, conductivity: real, sources: seq<Source>, fixed: seq<Fix>, d: nat)
    requires mesh.Valid() && SourcesInRange(sources, |mesh.nodes|) && d < |mesh.nodes| && IsUnused(mesh, sources, fixed, d)
    ensures Dead(Balance(mesh, conductivity, sources), |mesh.nodes|, d)
  {
    hide Assembled, ElementConductivity, Heated;
    var n, es := |mesh.nodes|, ElementsOf(mesh, conductivity);
    forall i: nat | i < n
      ensures Assembled(es, n)[d][i] == 0.0 == Assembled(es, n)[i][d]
    {
      AssemblyMisses(es, n, d, i);
    }
  }

  // ----- Fixed displacement degrees of freedom

  /** The three degrees of freedom of a node, all zero. */
  function DofsOf(node: nat): (fixed: seq<Fix>) {
    [Fix(3 * node, 0.0), Fix(3 * node + 1, 0.0), Fix(3 * node + 2, 0.0)]
  }

  function FixedDofs(nodes: seq<nat>): (fixed: seq<Fix>)
    ensures AllZero(fixed)
  {
    if nodes == [] then [] else FixedDofs(nodes[..|nodes| - 1]) + DofsOf(nodes[|nodes| - 1])
  }

  ghost predicate DofsInRange(nodes: seq<nat>, n: nat) {
    forall i | 0 <= i < |nodes| :: 3 * nodes[i] + 2 < n
  }

  ghost predicate IsDofOf(nodes: seq<nat>, d: nat) {
    d / 3 in nodes
  }

  lemma NodesOfConcat(x: seq<Fix>, y: seq<Fix>)
    ensures Dirichlet.Nodes(x + y) == Dirichlet.Nodes(x) + Dirichlet.Nodes(y)
  {
    forall d: nat
      ensures d in Dirichlet.Nodes(x + y) <==> d in Dirichlet.Nodes(x) || d in Dirichlet.Nodes(y)
    {
      if d in Dirichlet.Nodes(x + y) {
        var i :| 0 <= i < |x + y| && (x + y)[i].node == d;
        assert i < |x| ==> x[i].node == d;
        assert i >= |x| ==> y[i - |x|].node == d;
      }
      if d in Dirichlet.Nodes(x) {
        var i :| 0 <= i < |x| && x[i].node == d;
        assert (x + y)[i].node == d;
      }
      if d in Dirichlet.Nodes(y) {
        var i :| 0 <= i < |y| && y[i].node == d;
        assert (x + y)[|x| + i].node == d;
      }
    }
  }

  lemma DofsOfNode(node: nat, d: nat)
    ensures d in Dirichlet.Nodes(DofsOf(node)) <==> d / 3 == node
  {
    var x := DofsOf(node);
    if d / 3 == node {
      assert x[d % 3].node == d;
    }
  }

  lemma {:induction false} DofsOfNodes(nodes: seq<nat>, d: nat)
    ensures d in Dirichlet.Nodes(FixedDofs(nodes)) <==> IsDofOf(nodes, d)
  {
    if nodes != [] {
      var rest, last := nodes[..|nodes| - 1], nodes[|nodes| - 1];
      DofsOfNodes(rest, d);
      DofsOfNode(last, d);
      NodesOfConcat(FixedDofs(rest), DofsOf(last));
      assert nodes == rest + [last];
    }
  }

  /** The largest magnitude in the matrix. */
  method LargestEntry(k: array2<real>, n: nat) returns (kmax: real)
    requires k.Length0 == k.Length1 == n
    ensures kmax >= 0.0 && forall a, b | 0 <= a < n && 0 <= b < n :: Abs(k[a, b]) <= kmax
    ensures kmax == 0.0 || exists a, b :: 0 <= a < n && 0 <= b < n && Abs(k[a, b]) == kmax
  {
    kmax := 0.0;
    var i := 0;
    while i < n
      invariant 0 <= i <= n && kmax >= 0.0
      invariant forall a, b | 0 <= a < i && 0 <= b < n :: Abs(k[a, b]) <= kmax
      invariant kmax == 0.0 || exists a, b :: 0 <= a < n && 0 <= b < n && Abs(k[a, b]) == kmax
    {
      var j := 0;
      while j < n
        invariant 0 <= j <= n && kmax >= 0.0
        invariant forall a, b | 0 <= a < n && 0 <= b < n && (a < i || (a == i && b < j)) :: Abs(k[a, b]) <= kmax
        invariant kmax == 0.0 || exists a, b :: 0 <= a < n && 0 <= b < n && Abs(k[a, b]) == kmax
      {
        if Abs(k[i, j]) > kmax {
          kmax := Abs(k[i, j]);
        }
        j := j + 1;
      }
      i := i + 1;
    }
  }

  lemma {:induction false} ZeroShift(k: Matrix, f: Vec, n: nat, fixed: seq<Fix>)
    requires IsSquare(k, n) && |f| == n && InRange(fixed, n) && AllZero(fixed)
    ensures Shifted(k, f, n, fixed) == f
  {
    if fixed != [] {
      var last := fixed[|fixed| - 1];
      ZeroShift(k, f, n, fixed[..|fixed| - 1]);
      assert forall j | 0 <= j < n :: Mul(k[j][last.node], last.value) == 0.0;
    }
  }

  lemma PinnedOneMoreFix(k: Matrix, f: Vec, n: nat, done: seq<Fix>, x: Fix, diag: real)
    requires IsSquare(k, n) && |f| == n && InRange(done, n) && x.node < n && x.value == 0.0
    ensures PinnedMatrix(k, n, done + [x], diag) == PinnedOnce(PinnedMatrix(k, n, done, diag), n, x.node, diag)
    ensures PinnedLoad(f, n, done + [x], diag) == PinnedLoad(f, n, done, diag)[x.node := 0.0]
  {
    assert (done + [x])[..|done|] == done;
  }

  method PinNext(k: array2<real>, f: array<real>, n: nat, node: nat, diag: real,
                 ghost before: Matrix, ghost loads: Vec, ghost done: seq<Fix>)
    requires k.Length0 == k.Length1 == f.Length == n && IsSquare(before, n) && |loads| == n
    requires InRange(done, n) && node < n
    requires Rows(k) == PinnedMatrix(before, n, done, diag) && f[..] == PinnedLoad(loads, n, done, diag)
    modifies k, f
    ensures Rows(k) == PinnedMatrix(before, n, done + [Fix(node, 0.0)], diag)
    ensures f[..] == PinnedLoad(loads, n, done + [Fix(node, 0.0)], diag)
  {
    PinnedOneMoreFix(before, loads, n, done, Fix(node, 0.0), diag);
    Pin(k, f, n, node, diag, 0.0);
  }

  lemma NextDof(done: seq<Fix>, node: nat, a: nat, n: nat)
    requires a < 3 && InRange(done, n) && 3 * node + 2 < n
    ensures done + DofsOf(node)[..a] + [Fix(3 * node + a, 0.0)] == done + DofsOf(node)[..a + 1]
    ensures InRange(done + DofsOf(node)[..a + 1], n)
  {
  }

  /** The three degrees of freedom of one fixed node. */
  method FixNode(k: array2<real>, f: array<real>, n: nat, node: nat, diag: real,
                 ghost before: Matrix, ghost loads: Vec, ghost done: seq<Fix>)
    requires k.Length0 == k.Length1 == f.Length == n && IsSquare(before, n) && |loads| == n
    requires InRange(done, n) && 3 * node + 2 < n
    requires Rows(k) == PinnedMatrix(before, n, done, diag) && f[..] == PinnedLoad(loads, n, done, diag)
    modifies k, f
    ensures Rows(k) == PinnedMatrix(before, n, done + DofsOf(node), diag)
    ensures f[..] == PinnedLoad(loads, n, done + DofsOf(node), diag)
  {
    hide PinnedMatrix;
    ghost var now := done;
    var a := 0;
    while a < 3
      invariant 0 <= a <= 3 && now == done + DofsOf(node)[..a] && InRange(now, n)
      invariant Rows(k) == PinnedMatrix(before, n, now, diag) && f[..] == PinnedLoad(loads, n, now, diag)
    {
      PinNext(k, f, n, 3 * node + a, diag, before, loads, now);
      NextDof(done, node, a, n);
      now := done + DofsOf(node)[..a + 1];
      a := a + 1;
    }
    assert now == done + DofsOf(node);
  }

  /** Every fixed node's three unknowns are pinned to zero, with a penalty computed from the matrix as it was. */
  method FixNodes(k: array2<real>, f: array<real>, n: nat, nodes: seq<nat>) returns (penalty: real)
    requires k.Length0 == k.Length1 == f.Length == n && DofsInRange(nodes, n)
    modifies k, f
    ensures penalty >= 1.0 && InRange(FixedDofs(nodes), n)
    ensures System(Rows(k), f[..]) == Constrained(System(old(Rows(k)), old(f[..])), n, FixedDofs(nodes), penalty)
  {
    var kmax := LargestEntry(k, n);
    penalty := kmax * 1000000000000.0 + 1.0;
    ghost var before, loads := Rows(k), f[..];
    ghost var done: seq<Fix> := [];
    var i := 0;
    while i < |nodes|
      invariant 0 <= i <= |nodes| && done == FixedDofs(nodes[..i]) && InRange(done, n)
      invariant Rows(k) == PinnedMatrix(before, n, done, penalty) && f[..] == PinnedLoad(loads, n, done, penalty)
    {
      FixNode(k, f, n, nodes[i], penalty, before, loads, done);
      assert nodes[..i + 1][..i] == nodes[..i];
      done := done + DofsOf(nodes[i]);
      i := i + 1;
    }
    assert nodes[..i] == nodes;
    ZeroShift(before, loads, n, done);
  }

  /** The penalty treatment is exact: whatever the penalty, repeated nodes included, the system is solved exactly by the
    vectors that vanish on the fixed degrees of freedom and satisfy every free equation. */
  lemma FixedNodesAreExact(s: System, n: nat, nodes: seq<nat>, penalty: real, u: Vec)
    requires s.Square(n) && InRange(FixedDofs(nodes), n) && penalty != 0.0 && |u| == n
    ensures Solves(Constrained(s, n, FixedDofs(nodes), penalty), n, u)
            <==> && (forall d: nat | d < n && IsDofOf(nodes, d) :: u[d] == 0.0)
                 && (forall d: nat | d < n && !IsDofOf(nodes, d) :: RowHolds(s, n, u, d))
  {
    var fixed := FixedDofs(nodes);
    MeetsIff(u, fixed);
    EliminationIsExact(s, n, fixed, penalty, u);
    forall d: nat | d < n
      ensures d in Dirichlet.Nodes(fixed) <==> IsDofOf(nodes, d)
      ensures d in Dirichlet.Nodes(fixed) ==> Value(fixed, d) == 0.0
    {
      DofsOfNodes(nodes, d);
      if d in Dirichlet.Nodes(fixed) {
        ValueZero(fixed, d);
      }
    }
  }
}
