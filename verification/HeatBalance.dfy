/** What the solved temperatures mean: the heat put into a free node is conducted away from it, and all of it leaves through
  the nodes held at a temperature (tpt-vertex-simulation/src/thermal.rs:66-129). */
module HeatBalance {
  import opened LinearSystems
  import opened Rotations
  import opened MatrixArrays
  import opened Elimination
  import opened Conduction
  import opened Dirichlet
  import opened DenseSolver
  import opened ThermalAssembler

  // ----- Heat put in

  /** The sources at some nodes. */
  function SourcesAt(sources: seq<Source>, nodes: set<nat>): (r: seq<Source>)
    ensures forall s :: s in r <==> s in sources && s.node in nodes
  {
    if sources == [] then []
    else (if sources[0].node in nodes then [sources[0]] else []) + SourcesAt(sources[1..], nodes)
  }

  function SumOfHeat(sources: seq<Source>): real {
    if sources == [] then 0.0 else sources[0].heat + SumOfHeat(sources[1..])
  }

  /** The heat put into some nodes: the sum over the sources there. */
  function HeatAt(sources: seq<Source>, nodes: set<nat>): real {
    SumOfHeat(SourcesAt(sources, nodes))
  }

  lemma {:induction false} SourcesAppended(sources: seq<Source>, last: Source, nodes: set<nat>)
    ensures SourcesAt(sources + [last], nodes) == SourcesAt(sources, nodes) + if last.node in nodes then [last] else []
  {
    if sources != [] {
      SourcesAppended(sources[1..], last, nodes);
      assert (sources + [last])[1..] == sources[1..] + [last];
    } else {
      assert (sources + [last])[1..] == [];
    }
  }

  lemma {:induction false} SumAppended(sources: seq<Source>, last: Source)
    ensures SumOfHeat(sources + [last]) == SumOfHeat(sources) + last.heat
  {
    if sources != [] {
      SumAppended(sources[1..], last);
      assert (sources + [last])[1..] == sources[1..] + [last];
    } else {
      assert (sources + [last])[1..] == [];
    }
  }

  lemma HeatOneMore(sources: seq<Source>, nodes: set<nat>)
    requires sources != []
    ensures var rest, last := sources[..|sources| - 1], sources[|sources| - 1];
            HeatAt(sources, nodes) == HeatAt(rest, nodes) + if last.node in nodes then last.heat else 0.0
  {
    var rest, last := sources[..|sources| - 1], sources[|sources| - 1];
    assert sources == rest + [last];
    SourcesAppended(rest, last, nodes);
    SumAppended(SourcesAt(rest, nodes), last);
    assert SourcesAt(rest, nodes) + [] == SourcesAt(rest, nodes);
  }

  /** The assembled load is the heat put in. */
  lemma {:induction false} LoadIsHeat(n: nat, sources: seq<Source>, node: nat)
    requires SourcesInRange(sources, n) && node < n
    ensures Heated(n, sources)[node] == HeatAt(sources, {node})
  {
    if sources != [] {
      LoadIsHeat(n, sources[..|sources| - 1], node);
      HeatOneMore(sources, {node});
    }
  }

  // ----- The steady state

  /** The conductivity matrix before any temperature is prescribed. */
  function ConductivityOf(mesh: VolMesh, conductivity: real): (k: Matrix)
    requires mesh.Valid()
    ensures IsSquare(k, |mesh.nodes|)
  {
    Assembled(ElementsOf(mesh, conductivity), |mesh.nodes|)
  }

  /** Every fixed node has its temperature, and at every free node the heat conducted away is the heat put in. */
  ghost predicate SteadyState(mesh: VolMesh, conductivity: real, sources: seq<Source>, fixed: seq<Fix>, t: Vec)
    requires mesh.Valid()
  {
    && |t| == |mesh.nodes|
    && (forall i | 0 <= i < |fixed| && fixed[i].node < |t| :: t[fixed[i].node] == fixed[i].value)
    && forall a | 0 <= a < |t| && a !in Dirichlet.Nodes(fixed) ::
         Dot(ConductivityOf(mesh, conductivity)[a], t, 0) == HeatAt(sources, {a})
  }

  lemma EachIsLast(fixed: seq<Fix>)
    requires DistinctNodes(fixed)
    ensures forall i: nat :: LastFor(fixed, i) <==> i < |fixed|
  {
  }

  lemma SteadyIff(mesh: VolMesh, conductivity: real, sources: seq<Source>, fixed: seq<Fix>, t: Vec)
    requires mesh.Valid() && SourcesInRange(sources, |mesh.nodes|) && DistinctNodes(fixed) && |t| == |mesh.nodes|
    ensures SteadyState(mesh, conductivity, sources, fixed, t)
            <==> Meets(t, fixed) && forall a | 0 <= a < |t| && a !in Dirichlet.Nodes(fixed) ::
                   RowHolds(Balance(mesh, conductivity, sources), |t|, t, a)
  {
    EachIsLast(fixed);
    hide HeatAt, Assembled, Heated, LastFor, Dot;
    forall a | 0 <= a < |t|
      ensures RowHolds(Balance(mesh, conductivity, sources), |t|, t, a)
              <==> Dot(ConductivityOf(mesh, conductivity)[a], t, 0) == HeatAt(sources, {a})
    {
      LoadIsHeat(|t|, sources, a);
    }
  }

  /** From mesh to temperatures: with distinct fixed nodes and good pivots everywhere but at unused nodes the result is a
    steady state, zero at the unused nodes, and the only one that is. */
  lemma SolvedIsSteady(mesh: VolMesh, conductivity: real, sources: seq<Source>, fixed: seq<Fix>)
    requires mesh.Valid() && SourcesInRange(sources, |mesh.nodes|) && InRange(fixed, |mesh.nodes|)
    requires DistinctNodes(fixed)
    requires GoodPivots(Constrained(Balance(mesh, conductivity, sources), |mesh.nodes|, fixed, 1.0), |mesh.nodes|,
                        Unused(mesh, sources, fixed))
    ensures var t := Solution(Constrained(Balance(mesh, conductivity, sources), |mesh.nodes|, fixed, 1.0), |mesh.nodes|);
            && SteadyState(mesh, conductivity, sources, fixed, t) && VanishesOn(t, Unused(mesh, sources, fixed))
            && forall v: Vec | SteadyState(mesh, conductivity, sources, fixed, v) && VanishesOn(v, Unused(mesh, sources, fixed)) ::
                 v == t
  {
    var n, s, unused := |mesh.nodes|, Balance(mesh, conductivity, sources), Unused(mesh, sources, fixed);
    var c := Constrained(s, n, fixed, 1.0);
    UnusedAreDead(mesh, conductivity, sources, fixed);
    hide Unused, GoodPivots, AllDead, Constrained, Balance, HeatAt, ConductivityOf, Meets, RowHolds;
    SolutionIsTheSolution(c, n, unused);
    EliminationIsExact(s, n, fixed, 1.0, Solution(c, n));
    SteadyIff(mesh, conductivity, sources, fixed, Solution(c, n));
    forall v: Vec | SteadyState(mesh, conductivity, sources, fixed, v) && VanishesOn(v, unused)
      ensures v == Solution(c, n)
    {
      SteadyIff(mesh, conductivity, sources, fixed, v);
      EliminationIsExact(s, n, fixed, 1.0, v);
      assert Solves(c, n, v);
    }
  }

  method SolveSteadyState(mesh: VolMesh, conductivity: real, sources: seq<Source>, fixed: seq<Fix>)
    returns (t: array<real>)
    requires mesh.Valid() && SourcesInRange(sources, |mesh.nodes|) && InRange(fixed, |mesh.nodes|)
    ensures t[..] == Solution(Constrained(Balance(mesh, conductivity, sources), |mesh.nodes|, fixed, 1.0), |mesh.nodes|)
    ensures DistinctNodes(fixed)
            && GoodPivots(Constrained(Balance(mesh, conductivity, sources), |mesh.nodes|, fixed, 1.0), |mesh.nodes|,
                          Unused(mesh, sources, fixed))
            ==> SteadyState(mesh, conductivity, sources, fixed, t[..])
  {
    var n := |mesh.nodes|;
    var k, f := AssembleSystem(ElementsOf(mesh, conductivity), n, sources, fixed);
    t := SolveDense(k, f, n);
    ghost var c := Constrained(Balance(mesh, conductivity, sources), n, fixed, 1.0);
    if DistinctNodes(fixed) && GoodPivots(c, n, Unused(mesh, sources, fixed)) {
      SolvedIsSteady(mesh, conductivity, sources, fixed);
    }
  }

  // ----- Conservation of heat

  /** The heat conducted away from those of the first `m` nodes that are in a set. */
  function ConductedAt(k: Matrix, n: nat, t: Vec, nodes: set<nat>, m: nat): real
    requires IsSquare(k, n) && |t| == n && m <= n
  {
    if m == 0 then 0.0 else ConductedAt(k, n, t, nodes, m - 1) + if m - 1 in nodes then Dot(k[m - 1], t, 0) else 0.0
  }

  function UpTo(n: nat): (nodes: set<nat>)
    ensures forall i: nat :: i in nodes <==> i < n
  {
    if n == 0 then {} else UpTo(n - 1) + {n - 1}
  }

  lemma {:induction false} EveryNodeOnce(k: Matrix, n: nat, t: Vec, nodes: set<nat>, m: nat)
    requires IsSquare(k, n) && |t| == n && m <= n
    ensures ConductedAt(k, n, t, nodes, m) + ConductedAt(k, n, t, UpTo(n) - nodes, m) == ConductedAt(k, n, t, UpTo(n), m)
  {
    if m > 0 {
      EveryNodeOnce(k, n, t, nodes, m - 1);
    }
  }

  lemma {:induction false} ConductedIsDot(k: Matrix, n: nat, t: Vec, m: nat)
    requires IsSquare(k, n) && |t| == n && m <= n
    ensures ConductedAt(k, n, t, UpTo(n), m) + Dot(Ones(n), Times(k, n, t), m) == Form(k, n, Ones(n), t)
  {
    if m > 0 {
      ConductedIsDot(k, n, t, m - 1);
    }
  }

  /** Whatever the temperatures, what is conducted away from some nodes arrives at the others. */
  lemma NothingIsLost(mesh: VolMesh, conductivity: real, t: Vec)
    requires mesh.Valid() && |t| == |mesh.nodes|
    ensures ConductedAt(ConductivityOf(mesh, conductivity), |t|, t, UpTo(|t|), |t|) == 0.0
  {
    var es, n := ElementsOf(mesh, conductivity), |mesh.nodes|;
    MeshConducts(mesh, conductivity);
    hide Form, Assembled, ElementsOf, AllConduct, TotalForm, ConductedAt, Times;
    ConductedIsDot(Assembled(es, n), n, t, n);
    assert Dot(Ones(n), Times(Assembled(es, n), n, t), n) == 0.0;
    AssembledIsTotal(es, n, Ones(n), t);
    TotalSymmetric(es, Ones(n), t);
    UniformConductsNothing(es, t, Ones(n), 1.0);
  }

  lemma MeshConducts(mesh: VolMesh, conductivity: real)
    requires mesh.Valid()
    ensures AllConduct(ElementsOf(mesh, conductivity), false)
  {
    var es := ElementsOf(mesh, conductivity);
    forall e | 0 <= e < |es|
      ensures Conducts(es[e], conductivity >= 0.0)
    {
      MeshElementConducts(mesh, conductivity, e);
    }
    hide Conducts, ElementsOf;
    AllConductWeakly(es, conductivity >= 0.0);
  }

  /** The heat put into the nodes of a set, node by node. */
  function HeatOver(sources: seq<Source>, nodes: set<nat>, m: nat): real {
    if m == 0 then 0.0 else HeatOver(sources, nodes, m - 1) + if m - 1 in nodes then HeatAt(sources, {m - 1}) else 0.0
  }

  lemma {:induction false} HeatOverMore(sources: seq<Source>, nodes: set<nat>, m: nat)
    requires sources != []
    ensures var rest, last := sources[..|sources| - 1], sources[|sources| - 1];
            HeatOver(sources, nodes, m)
            == HeatOver(rest, nodes, m) + if last.node in nodes && last.node < m then last.heat else 0.0
  {
    hide HeatAt;
    if m > 0 {
      HeatOverMore(sources, nodes, m - 1);
      HeatOneMore(sources, {m - 1});
    }
  }

  lemma {:induction false} NoHeatOver(nodes: set<nat>, m: nat)
    ensures HeatOver([], nodes, m) == 0.0
  {
    if m > 0 {
      NoHeatOver(nodes, m - 1);
    }
  }

  /** Adding up node by node or source by source is the same. */
  lemma {:induction false} HeatByNodes(sources: seq<Source>, nodes: set<nat>, n: nat)
    requires SourcesInRange(sources, n)
    ensures HeatOver(sources, nodes, n) == HeatAt(sources, nodes)
  {
    hide HeatAt, HeatOver;
    if sources == [] {
      NoHeatOver(nodes, n);
      NoHeat(nodes);
    } else {
      HeatByNodes(sources[..|sources| - 1], nodes, n);
      HeatOverMore(sources, nodes, n);
      HeatOneMore(sources, nodes);
    }
  }

  lemma NoHeat(nodes: set<nat>)
    ensures HeatAt([], nodes) == 0.0
  {
  }

  lemma {:induction false} FreeHeatConducted(k: Matrix, n: nat, t: Vec, sources: seq<Source>, nodes: set<nat>, m: nat)
    requires IsSquare(k, n) && |t| == n && m <= n
    requires forall a | 0 <= a < n && a in nodes :: Dot(k[a], t, 0) == HeatAt(sources, {a})
    ensures ConductedAt(k, n, t, nodes, m) == HeatOver(sources, nodes, m)
  {
    hide HeatAt, Dot;
    if m > 0 {
      FreeHeatConducted(k, n, t, sources, nodes, m - 1);
    }
  }

  /** Conservation: in a steady state all heat put into free nodes leaves through the fixed ones. */
  lemma HeatIsConserved(mesh: VolMesh, conductivity: real, sources: seq<Source>, fixed: seq<Fix>, t: Vec)
    requires mesh.Valid() && SourcesInRange(sources, |mesh.nodes|)
    requires SteadyState(mesh, conductivity, sources, fixed, t)
    ensures ConductedAt(ConductivityOf(mesh, conductivity), |t|, t, Dirichlet.Nodes(fixed), |t|)
            == -HeatAt(sources, UpTo(|t|) - Dirichlet.Nodes(fixed))
  {
    var k, n, free := ConductivityOf(mesh, conductivity), |t|, UpTo(|t|) - Dirichlet.Nodes(fixed);
    hide ConductivityOf, HeatAt, Dot, ConductedAt, HeatOver;
    NothingIsLost(mesh, conductivity, t);
    EveryNodeOnce(k, n, t, Dirichlet.Nodes(fixed), n);
    FreeHeatConducted(k, n, t, sources, free, n);
    HeatByNodes(sources, free, n);
  }
}
