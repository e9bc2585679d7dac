/** Prescribing unknowns in a dense system by zeroing rows and columns
  (tpt-vertex-simulation/src/thermal.rs:100-117 with prescribed temperatures,
  tpt-vertex-simulation/src/assembly.rs:92-108 with zero displacements). */
module Dirichlet {
  import opened LinearSystems
  import opened Rotations
  import opened Conduction

  datatype Fix = Fix(node: nat, value: real)

  ghost predicate InRange(fixed: seq<Fix>, n: nat) {
    forall i | 0 <= i < |fixed| :: fixed[i].node < n
  }

  function Nodes(fixed: seq<Fix>): set<nat> {
    set i | 0 <= i < |fixed| :: fixed[i].node
  }

  // ----- The two passes over the fixed list

  /** One step of the load pass: every other load loses the fixed node's known contribution. */
  function ShiftedOnce(k: Matrix, f: Vec, n: nat, x: Fix): (g: Vec)
    requires IsSquare(k, n) && |f| == n && x.node < n
    ensures |g| == n
  {
    seq(n, j requires 0 <= j < n => if j == x.node then f[j] else f[j] - Mul(k[j][x.node], x.value))
  }

  /** The load pass, always with the matrix as it was. */
  function Shifted(k: Matrix, f: Vec, n: nat, fixed: seq<Fix>): (g: Vec)
    requires IsSquare(k, n) && |f| == n && InRange(fixed, n)
    ensures |g| == n
  {
    if fixed == [] then f
    else ShiftedOnce(k, Shifted(k, f, n, fixed[..|fixed| - 1]), n, fixed[|fixed| - 1])
  }

  /** One step of the elimination pass: row and column of the node become those of `diag` times the identity. */
  function PinnedOnce(k: Matrix, n: nat, node: nat, diag: real): (m: Matrix)
    requires IsSquare(k, n) && node < n
    ensures IsSquare(m, n)
    ensures forall a, b | 0 <= a < n && 0 <= b < n ::
              m[a][b] == if a == node && b == node then diag else if a == node || b == node then 0.0 else k[a][b]
  {
    seq(n, a requires 0 <= a < n => seq(n, b requires 0 <= b < n =>
      if a == node && b == node then diag else if a == node || b == node then 0.0 else k[a][b]))
  }

  function PinnedMatrix(k: Matrix, n: nat, fixed: seq<Fix>, diag: real): (m: Matrix)
    requires IsSquare(k, n) && InRange(fixed, n)
    ensures IsSquare(m, n)
  {
    if fixed == [] then k
    else PinnedOnce(PinnedMatrix(k, n, fixed[..|fixed| - 1], diag), n, fixed[|fixed| - 1].node, diag)
  }

  function PinnedLoad(f: Vec, n: nat, fixed: seq<Fix>, diag: real): (g: Vec)
    requires |f| == n && InRange(fixed, n)
    ensures |g| == n
  {
    if fixed == [] then f
    else PinnedLoad(f, n, fixed[..|fixed| - 1], diag)[fixed[|fixed| - 1].node := Mul(diag, fixed[|fixed| - 1].value)]
  }

  /** The reduced system. */
  function Constrained(s: System, n: nat, fixed: seq<Fix>, diag: real): (t: System)
    requires s.Square(n) && InRange(fixed, n)
    ensures t.Square(n)
  {
    System(PinnedMatrix(s.a, n, fixed, diag), PinnedLoad(Shifted(s.a, s.b, n, fixed), n, fixed, diag))
  }

  // ----- Closed forms of the passes

  /** The last value prescribed for a node. */
  function Value(fixed: seq<Fix>, node: nat): real
    requires node in Nodes(fixed)
  {
    var last := fixed[|fixed| - 1];
    if last.node == node then last.value
    else
      NodesOfPrefix(fixed);
      Value(fixed[..|fixed| - 1], node)
  }

  /** Prescription `i` is the last one for its node. */
  ghost predicate LastFor(fixed: seq<Fix>, i: nat) {
    i < |fixed| && forall j | i < j < |fixed| :: fixed[j].node != fixed[i].node
  }

  /** `Value` is the value of the last prescription. */
  lemma {:induction false} ValueIsLast(fixed: seq<Fix>, i: nat)
    requires LastFor(fixed, i)
    ensures fixed[i].node in Nodes(fixed) && Value(fixed, fixed[i].node) == fixed[i].value
  {
    var rest := fixed[..|fixed| - 1];
    if i < |rest| {
      assert rest[i] == fixed[i];
      ValueIsLast(rest, i);
      NodesOfPrefix(fixed);
    }
  }

  lemma {:induction false} HasLast(fixed: seq<Fix>, node: nat) returns (i: nat)
    requires node in Nodes(fixed)
    ensures LastFor(fixed, i) && fixed[i].node == node
  {
    var rest, last := fixed[..|fixed| - 1], fixed[|fixed| - 1];
    if last.node == node {
      i := |fixed| - 1;
    } else {
      NodesOfPrefix(fixed);
      i := HasLast(rest, node);
      assert rest[i] == fixed[i];
    }
  }

  lemma NodesOfPrefix(fixed: seq<Fix>)
    requires fixed != []
    ensures Nodes(fixed) == Nodes(fixed[..|fixed| - 1]) + {fixed[|fixed| - 1].node}
  {
    var rest, last := fixed[..|fixed| - 1], fixed[|fixed| - 1];
    forall node
      ensures node in Nodes(fixed) <==> node in Nodes(rest) || node == last.node
    {
      if node in Nodes(fixed) {
        var i :| 0 <= i < |fixed| && fixed[i].node == node;
        assert i < |rest| ==> rest[i].node == node;
      }
      if node in Nodes(rest) {
        var i :| 0 <= i < |rest| && rest[i].node == node;
        assert fixed[i].node == node;
      }
      if node == last.node {
        assert fixed[|fixed| - 1].node == node;
      }
    }
  }

  ghost predicate Pinned(nodes: set<nat>, a: nat, b: nat) {
    a in nodes || b in nodes
  }

  /** `m` is `k` with the rows and columns of `nodes` replaced by those of `diag` times the identity. */
  ghost predicate IsPinned(m: Matrix, k: Matrix, n: nat, nodes: set<nat>, diag: real)
    requires IsSquare(k, n) && IsSquare(m, n)
  {
    forall a: nat, b: nat | a < n && b < n ::
      m[a][b] == if Pinned(nodes, a, b) then (if a == b then diag else 0.0) else k[a][b]
  }

  lemma {:induction false} PinnedEntries(k: Matrix, n: nat, fixed: seq<Fix>, diag: real)
    requires IsSquare(k, n) && InRange(fixed, n)
    ensures IsPinned(PinnedMatrix(k, n, fixed, diag), k, n, Nodes(fixed), diag)
  {
    if fixed != [] {
      var rest, last := fixed[..|fixed| - 1], fixed[|fixed| - 1];
      PinnedEntries(k, n, rest, diag);
      NodesOfPrefix(fixed);
      var was := PinnedMatrix(k, n, rest, diag);
      assert PinnedMatrix(k, n, fixed, diag) == PinnedOnce(was, n, last.node, diag);
      PinnedOneMore(was, k, n, Nodes(rest), last.node, diag);
    }
  }

  lemma PinnedOneMore(was: Matrix, k: Matrix, n: nat, nodes: set<nat>, node: nat, diag: real)
    requires IsSquare(k, n) && IsSquare(was, n) && node < n && IsPinned(was, k, n, nodes, diag)
    ensures IsPinned(PinnedOnce(was, n, node, diag), k, n, nodes + {node}, diag)
  {
    forall a: nat, b: nat | a < n && b < n
      ensures PinnedOnce(was, n, node, diag)[a][b]
              == if Pinned(nodes + {node}, a, b) then (if a == b then diag else 0.0) else k[a][b]
    {
      assert Pinned(nodes + {node}, a, b) <==> Pinned(nodes, a, b) || a == node || b == node;
    }
  }

  lemma {:induction false} PinnedLoads(f: Vec, n: nat, fixed: seq<Fix>, diag: real)
    requires |f| == n && InRange(fixed, n)
    ensures var g, nodes := PinnedLoad(f, n, fixed, diag), Nodes(fixed);
            forall a | 0 <= a < n :: g[a] == if a in nodes then Mul(diag, Value(fixed, a)) else f[a]
  {
    if fixed != [] {
      PinnedLoads(f, n, fixed[..|fixed| - 1], diag);
      NodesOfPrefix(fixed);
    }
  }

  /** What the load pass takes from the load of a free node. */
  function Taken(row: Vec, fixed: seq<Fix>): real
    requires InRange(fixed, |row|)
  {
    if fixed == [] then 0.0
    else Taken(row, fixed[..|fixed| - 1]) + Mul(row[fixed[|fixed| - 1].node], fixed[|fixed| - 1].value)
  }

  lemma {:induction false} ShiftedLoad(k: Matrix, f: Vec, n: nat, fixed: seq<Fix>, a: nat)
    requires IsSquare(k, n) && |f| == n && InRange(fixed, n) && a < n && a !in Nodes(fixed)
    ensures Shifted(k, f, n, fixed)[a] == f[a] - Taken(k[a], fixed)
  {
    if fixed != [] {
      NodesOfPrefix(fixed);
      ShiftedLoad(k, f, n, fixed[..|fixed| - 1], a);
    }
  }

  // ----- The reduced equations

  /** The vector of prescribed values, zero at free nodes. */
  function Prescribed(n: nat, fixed: seq<Fix>): (v: Vec)
    ensures |v| == n
  {
    seq(n, i requires 0 <= i < n => if i in Nodes(fixed) then Value(fixed, i) else 0.0)
  }

  /** The entries of a row in the fixed columns only. */
  function FixedPart(row: Vec, nodes: set<nat>): (r: Vec)
    ensures |r| == |row|
  {
    seq(|row|, i requires 0 <= i < |row| => if i in nodes then row[i] else 0.0)
  }

  /** What the prescribed values contribute to an equation. */
  function Contribution(row: Vec, fixed: seq<Fix>): real {
    Dot(FixedPart(row, Nodes(fixed)), Prescribed(|row|, fixed), 0)
  }

  /** `u` takes the prescribed values, the last one where a node is prescribed repeatedly. */
  ghost predicate Meets(u: Vec, fixed: seq<Fix>) {
    forall i: nat | LastFor(fixed, i) && fixed[i].node < |u| :: u[fixed[i].node] == fixed[i].value
  }

  lemma MeetsIff(u: Vec, fixed: seq<Fix>)
    ensures Meets(u, fixed) <==> forall a | a in Nodes(fixed) && a < |u| :: u[a] == Value(fixed, a)
  {
    forall i: nat | LastFor(fixed, i)
      ensures fixed[i].node in Nodes(fixed) && Value(fixed, fixed[i].node) == fixed[i].value
    {
      ValueIsLast(fixed, i);
    }
    if Meets(u, fixed) {
      forall a | a in Nodes(fixed) && a < |u|
        ensures u[a] == Value(fixed, a)
      {
        var i := HasLast(fixed, a);
      }
    }
  }

  lemma {:induction false} DotSplit(row: Vec, free: Vec, part: Vec, u: Vec, v: Vec, nodes: set<nat>, k: nat)
    requires |row| == |free| == |part| == |u| == |v| && k <= |row|
    requires part == FixedPart(row, nodes)
    requires forall i | 0 <= i < |row| :: free[i] == if i in nodes then 0.0 else row[i]
    requires forall i | 0 <= i < |row| && i in nodes :: u[i] == v[i]
    ensures Dot(row, u, k) == Dot(free, u, k) + Dot(part, v, k)
    decreases |row| - k
  {
    if k < |row| {
      DotSplit(row, free, part, u, v, nodes, k + 1);
      SplitTerm(row[k], free[k], part[k], u[k], v[k]);
    }
  }

  lemma SplitTerm(r: real, f: real, p: real, u: real, v: real)
    requires (f == 0.0 && p == r && u == v) || (f == r && p == 0.0)
    ensures r * u == f * u + p * v
  {
  }

  lemma {:induction false} DotDiagonal(row: Vec, u: Vec, a: nat, diag: real, k: nat)
    requires |row| == |u| && a < |row| && k <= |row|
    requires forall i | 0 <= i < |row| :: row[i] == if i == a then diag else 0.0
    ensures Dot(row, u, k) == if k <= a then diag * u[a] else 0.0
    decreases |row| - k
  {
    if k < |row| {
      DotDiagonal(row, u, a, diag, k + 1);
    }
  }

  lemma DiagonalRow(m: Matrix, k: Matrix, n: nat, nodes: set<nat>, diag: real, u: Vec, a: nat)
    requires IsSquare(k, n) && IsSquare(m, n) && IsPinned(m, k, n, nodes, diag) && |u| == n && a < n && a in nodes
    ensures Dot(m[a], u, 0) == Mul(diag, u[a])
  {
    forall i: nat | i < n
      ensures m[a][i] == if i == a then diag else 0.0
    {
      assert Pinned(nodes, a, i);
    }
    DotDiagonal(m[a], u, a, diag, 0);
  }

  lemma FixedRow(s: System, n: nat, fixed: seq<Fix>, diag: real, u: Vec, a: nat)
    requires s.Square(n) && InRange(fixed, n) && diag != 0.0 && |u| == n && a < n && a in Nodes(fixed)
    ensures RowHolds(Constrained(s, n, fixed, diag), n, u, a) <==> u[a] == Value(fixed, a)
  {
    PinnedEntries(s.a, n, fixed, diag);
    PinnedLoads(Shifted(s.a, s.b, n, fixed), n, fixed, diag);
    DiagonalRow(PinnedMatrix(s.a, n, fixed, diag), s.a, n, Nodes(fixed), diag, u, a);
    CancelDiagonal(diag, u[a], Value(fixed, a));
  }

  lemma CancelDiagonal(d: real, x: real, y: real)
    requires d != 0.0
    ensures Mul(d, x) == Mul(d, y) <==> x == y
  {
    if d * x == d * y {
      assert d * (x - y) == 0.0;
    }
  }

  // ----- Values prescribed twice

  /** What the values that a later prescription replaces would contribute to an equation. */
  function Superseded(row: Vec, fixed: seq<Fix>): real
    requires InRange(fixed, |row|)
    decreases |fixed|
  {
    if fixed == [] then 0.0
    else
      (if fixed[0].node in Nodes(fixed[1..]) then Mul(row[fixed[0].node], fixed[0].value) else 0.0)
      + Superseded(row, fixed[1..])
  }

  lemma NodesOfRest(fixed: seq<Fix>)
    requires fixed != []
    ensures Nodes(fixed) == {fixed[0].node} + Nodes(fixed[1..])
  {
    forall node
      ensures node in Nodes(fixed) <==> node == fixed[0].node || node in Nodes(fixed[1..])
    {
      if node in Nodes(fixed) {
        var i :| 0 <= i < |fixed| && fixed[i].node == node;
        assert i > 0 ==> fixed[1..][i - 1].node == node;
      }
      if node in Nodes(fixed[1..]) {
        var i :| 0 <= i < |fixed| - 1 && fixed[1..][i].node == node;
        assert fixed[i + 1].node == node;
      }
    }
  }

  lemma {:induction false} TakenFromFront(row: Vec, fixed: seq<Fix>)
    requires InRange(fixed, |row|) && fixed != []
    ensures Taken(row, fixed) == Mul(row[fixed[0].node], fixed[0].value) + Taken(row, fixed[1..])
  {
    if |fixed| == 1 {
      assert fixed[..0] == [] && fixed[1..] == [];
    } else {
      TakenFromFront(row, fixed[..|fixed| - 1]);
      assert fixed[..|fixed| - 1][1..] == fixed[1..][..|fixed| - 2];
    }
  }

  lemma {:induction false} ValueFromFront(fixed: seq<Fix>, node: nat)
    requires fixed != [] && node in Nodes(fixed)
    ensures node in Nodes(fixed[1..]) || node == fixed[0].node
    ensures Value(fixed, node) == if node in Nodes(fixed[1..]) then Value(fixed[1..], node) else fixed[0].value
  {
    NodesOfRest(fixed);
    var rest, last := fixed[..|fixed| - 1], fixed[|fixed| - 1];
    if |fixed| == 1 {
      assert fixed[1..] == [];
    } else if last.node == node {
      assert fixed[1..][|fixed| - 2] == last;
    } else {
      NodesOfPrefix(fixed);
      NodesOfPrefix(fixed[1..]);
      assert rest[1..] == fixed[1..][..|fixed| - 2];
      ValueFromFront(rest, node);
    }
  }

  lemma {:induction false} OneMoreNode(p: Vec, q: Vec, v: Vec, w: Vec, node: nat, entry: real, value: real, k: nat)
    requires |p| == |q| == |v| == |w| && node < |p| && k <= |p|
    requires p[node] == 0.0 && q[node] == entry && w[node] == value
    requires forall i | 0 <= i < |p| && i != node :: q[i] == p[i] && w[i] == v[i]
    ensures Dot(q, w, k) == Dot(p, v, k) + (if k <= node then Mul(entry, value) else 0.0)
    decreases |p| - k
  {
    if k < |p| {
      OneMoreNode(p, q, v, w, node, entry, value, k + 1);
    }
  }

  /** A prescription in front contributes unless a later one replaces it. */
  lemma ContributionFromFront(row: Vec, fixed: seq<Fix>)
    requires InRange(fixed, |row|) && fixed != []
    ensures Contribution(row, fixed) == Contribution(row, fixed[1..])
              + if fixed[0].node in Nodes(fixed[1..]) then 0.0 else Mul(row[fixed[0].node], fixed[0].value)
  {
    var rest, first := fixed[1..], fixed[0];
    NodesOfRest(fixed);
    var p, q := FixedPart(row, Nodes(rest)), FixedPart(row, Nodes(fixed));
    var v, w := Prescribed(|row|, rest), Prescribed(|row|, fixed);
    forall i | 0 <= i < |row|
      ensures i == first.node && i !in Nodes(rest) ==> p[i] == 0.0 && q[i] == row[i] && w[i] == first.value
      ensures i != first.node || i in Nodes(rest) ==> q[i] == p[i] && w[i] == v[i]
    {
      if i in Nodes(fixed) {
        ValueFromFront(fixed, i);
      }
    }
    if first.node in Nodes(rest) {
      assert p == q && v == w;
    } else {
      OneMoreNode(p, q, v, w, first.node, row[first.node], first.value, 0);
    }
  }

  /** The load pass takes the contribution of the values that hold in the end, and that of every superseded one besides. */
  lemma {:induction false} TakenIsContributionAndMore(row: Vec, fixed: seq<Fix>)
    requires InRange(fixed, |row|)
    ensures Taken(row, fixed) == Contribution(row, fixed) + Superseded(row, fixed)
    decreases |fixed|
  {
    if fixed == [] {
      ZeroContribution(row, fixed);
    } else {
      TakenFromFront(row, fixed);
      ContributionFromFront(row, fixed);
      TakenIsContributionAndMore(row, fixed[1..]);
    }
  }

  /** A reduced free equation is the original one, less what superseded values contribute. */
  lemma FreeRow(s: System, n: nat, fixed: seq<Fix>, diag: real, u: Vec, a: nat)
    requires s.Square(n) && InRange(fixed, n) && |u| == n && a < n && a !in Nodes(fixed) && Meets(u, fixed)
    ensures RowHolds(Constrained(s, n, fixed, diag), n, u, a) <==> FreeEquation(s, n, fixed, u, a)
  {
    var t := Constrained(s, n, fixed, diag);
    MeetsIff(u, fixed);
    PinnedEntries(s.a, n, fixed, diag);
    PinnedLoads(Shifted(s.a, s.b, n, fixed), n, fixed, diag);
    ShiftedLoad(s.a, s.b, n, fixed, a);
    DotSplit(s.a[a], t.a[a], FixedPart(s.a[a], Nodes(fixed)), u, Prescribed(n, fixed), Nodes(fixed), 0);
    TakenIsContributionAndMore(s.a[a], fixed);
  }

  /** The original equation of a free node, its load lowered by what superseded values contribute. */
  ghost predicate FreeEquation(s: System, n: nat, fixed: seq<Fix>, u: Vec, a: nat)
    requires s.Square(n) && InRange(fixed, n) && |u| == n && a < n
  {
    Dot(s.a[a], u, 0) == s.b[a] - Superseded(s.a[a], fixed)
  }

  /** For every list of prescriptions, repeated nodes included: the reduced system is solved exactly by the vectors that
    take the last prescribed values and satisfy the free equations with loads lowered for the superseded values. */
  lemma ReducedSystemMeans(s: System, n: nat, fixed: seq<Fix>, diag: real, u: Vec)
    requires s.Square(n) && InRange(fixed, n) && diag != 0.0 && |u| == n
    ensures Solves(Constrained(s, n, fixed, diag), n, u)
            <==> Meets(u, fixed) && forall a | 0 <= a < n && a !in Nodes(fixed) :: FreeEquation(s, n, fixed, u, a)
  {
    var t := Constrained(s, n, fixed, diag);
    MeetsIff(u, fixed);
    forall a | 0 <= a < n && a in Nodes(fixed)
      ensures RowHolds(t, n, u, a) <==> u[a] == Value(fixed, a)
    {
      FixedRow(s, n, fixed, diag, u, a);
    }
    if Meets(u, fixed) {
      forall a | 0 <= a < n && a !in Nodes(fixed)
        ensures RowHolds(t, n, u, a) <==> FreeEquation(s, n, fixed, u, a)
      {
        FreeRow(s, n, fixed, diag, u, a);
      }
    }
  }

  // ----- When the discrepancy vanishes

  ghost predicate DistinctNodes(fixed: seq<Fix>) {
    forall i, j | 0 <= i < j < |fixed| :: fixed[i].node != fixed[j].node
  }

  ghost predicate AllZero(fixed: seq<Fix>) {
    forall i | 0 <= i < |fixed| :: fixed[i].value == 0.0
  }

  lemma {:induction false} NothingSuperseded(row: Vec, fixed: seq<Fix>)
    requires InRange(fixed, |row|) && (DistinctNodes(fixed) || AllZero(fixed))
    ensures Superseded(row, fixed) == 0.0
    decreases |fixed|
  {
    if fixed != [] {
      NothingSuperseded(row, fixed[1..]);
    }
  }

  lemma {:induction false} ValueZero(fixed: seq<Fix>, node: nat)
    requires AllZero(fixed) && node in Nodes(fixed)
    ensures Value(fixed, node) == 0.0
  {
    if fixed[|fixed| - 1].node != node {
      NodesOfPrefix(fixed);
      ValueZero(fixed[..|fixed| - 1], node);
    }
  }

  lemma ZeroContribution(row: Vec, fixed: seq<Fix>)
    requires AllZero(fixed)
    ensures Contribution(row, fixed) == 0.0
  {
    var v := Prescribed(|row|, fixed);
    forall i | 0 <= i < |v|
      ensures v[i] == 0.0
    {
      if i in Nodes(fixed) {
        ValueZero(fixed, i);
      }
    }
    DotZeroVector(FixedPart(row, Nodes(fixed)), v, 0);
  }

  /** Exact Dirichlet elimination, for distinct nodes or for zero values: the reduced system is solved exactly by the
    vectors that take the prescribed values and satisfy the original equation of every free node. */
  lemma EliminationIsExact(s: System, n: nat, fixed: seq<Fix>, diag: real, u: Vec)
    requires s.Square(n) && InRange(fixed, n) && diag != 0.0 && |u| == n && (DistinctNodes(fixed) || AllZero(fixed))
    ensures Solves(Constrained(s, n, fixed, diag), n, u)
            <==> Meets(u, fixed) && forall a | 0 <= a < n && a !in Nodes(fixed) :: RowHolds(s, n, u, a)
  {
    ReducedSystemMeans(s, n, fixed, diag, u);
    forall a | 0 <= a < n && a !in Nodes(fixed)
      ensures FreeEquation(s, n, fixed, u, a) <==> RowHolds(s, n, u, a)
    {
      NothingSuperseded(s.a[a], fixed);
    }
  }

  /** A node prescribed twice breaks this: its first value is taken from the loads and never given back. So a solution of
    the reduced system satisfies a free original equation iff the superseded values, times the row's entries, sum to zero. */
  lemma RepeatedNodeIff(s: System, n: nat, fixed: seq<Fix>, diag: real, u: Vec, a: nat)
    requires s.Square(n) && InRange(fixed, n) && diag != 0.0 && a < n && a !in Nodes(fixed)
    requires Solves(Constrained(s, n, fixed, diag), n, u)
    ensures RowHolds(s, n, u, a) <==> Superseded(s.a[a], fixed) == 0.0
  {
    ReducedSystemMeans(s, n, fixed, diag, u);
    assert FreeEquation(s, n, fixed, u, a);
  }

  /** The failing case: two nodes, the first prescribed as 1 and then as 0. The reduced system makes the second -1/2, where
    the original equation wants 0. */
  lemma RepeatedNodeBreaks()
    ensures var s, fixed := System([[2.0, -1.0], [1.0, 2.0]], [0.0, 0.0]), [Fix(0, 1.0), Fix(0, 0.0)];
            && InRange(fixed, 2) && Solves(Constrained(s, 2, fixed, 1.0), 2, [0.0, -0.5])
            && !RowHolds(s, 2, [0.0, -0.5], 1) && RowHolds(s, 2, [0.0, 0.0], 1)
  {
    var s, fixed := System([[2.0, -1.0], [1.0, 2.0]], [0.0, 0.0]), [Fix(0, 1.0), Fix(0, 0.0)];
    var u := [0.0, -0.5];
    NodesOfPrefix(fixed);
    assert fixed[..1] == [Fix(0, 1.0)] && fixed[1..] == [Fix(0, 0.0)] && [Fix(0, 0.0)][1..] == [];
    NodesOfRest(fixed);
    NodesOfRest([Fix(0, 0.0)]);
    assert Nodes(fixed) == {0} && Value(fixed, 0) == 0.0;
    assert Superseded([1.0, 2.0], [Fix(0, 0.0)]) == 0.0;
    assert Superseded([1.0, 2.0], fixed) == 1.0;
    forall x, y
      ensures Dot([1.0, 2.0], [x, y], 0) == x + 2.0 * y
    {
      assert Dot([1.0, 2.0], [x, y], 1) == 2.0 * y + Dot([1.0, 2.0], [x, y], 2);
    }
    assert FreeEquation(s, 2, fixed, u, 1);
    MeetsIff(u, fixed);
    ReducedSystemMeans(s, 2, fixed, 1.0, u);
  }

  /** Symmetry survives the elimination. */
  lemma EliminationKeepsSymmetry(k: Matrix, n: nat, fixed: seq<Fix>, diag: real)
    requires IsSquare(k, n) && InRange(fixed, n) && Symmetric(k, n)
    ensures Symmetric(PinnedMatrix(k, n, fixed, diag), n)
  {
    PinnedEntries(k, n, fixed, diag);
  }
}
