/** The parent graph of a parametric model and the meaning of its features
  (tpt-vertex-kernel/src/feature_tree.rs). */
module FeatureGraphs {

  type FeatureId = nat
  type Vector = (real, real, real)

  datatype BooleanOp = Union | Subtract | Intersect

  /** `K` is the kernel's sketch type, whose content does not matter here. */
  datatype Feature<K> =
    | Extrude(sketch: K, height: real)
    | Revolve(sketch: K, angle: real, segments: nat)
    | Sweep(sketch: K, path: seq<Vector>)
    | Loft(sketch0: K, sketch1: K, height: real)
    | Boolean(op: BooleanOp, a: FeatureId, b: FeatureId)
    | Fillet(parent: FeatureId, radius: real)
    | Chamfer(parent: FeatureId, distance: real)
    | Transform(parent: FeatureId, translation: Vector, rotation: Vector)
  {
    function Parents(): seq<FeatureId> {
      match this
      case Boolean(_, a, b) => [a, b]
      case Fillet(parent, _) => [parent]
      case Chamfer(parent, _) => [parent]
      case Transform(parent, _, _) => [parent]
      case _ => []
    }
  }

  /** The geometry operations, as arbitrary functions over an arbitrary type of solids. */
  datatype Kernel<!K, !S> = Kernel(
    extrude: (K, real) -> S,
    revolve: (K, real, nat) -> S,
    sweep: (K, seq<Vector>) -> S,
    loft: (K, K, real) -> S,
    union: (S, S) -> S,
    subtract: (S, S) -> S,
    intersect: (S, S) -> S,
    fillet: (S, real) -> S,
    chamfer: (S, real) -> S,
    place: (S, Vector, Vector) -> S,
    emptySolid: S
  )
  {
    function Combine(op: BooleanOp, a: S, b: S): S {
      match op
      case Union => union(a, b)
      case Subtract => subtract(a, b)
      case Intersect => intersect(a, b)
    }

    function Input(inputs: map<FeatureId, S>, id: FeatureId): S {
      if id in inputs then inputs[id] else emptySolid
    }

    /** What the program computes for a feature: a missing input is silently the default solid. */
    function Evaluated(f: Feature<K>, inputs: map<FeatureId, S>): S {
      match f
      case Extrude(sketch, height) => extrude(sketch, height)
      case Revolve(sketch, angle, segments) => revolve(sketch, angle, segments)
      case Sweep(sketch, path) => sweep(sketch, path)
      case Loft(sketch0, sketch1, height) => loft(sketch0, sketch1, height)
      case Boolean(op, a, b) => Combine(op, Input(inputs, a), Input(inputs, b))
      case Fillet(parent, radius) => fillet(Input(inputs, parent), radius)
      case Chamfer(parent, distance) => chamfer(Input(inputs, parent), distance)
      case Transform(parent, translation, rotation) => place(Input(inputs, parent), translation, rotation)
    }
  }

  type Graph<K> = map<FeatureId, Feature<K>>

  // ----- Paths, cycles, dangling references

  predicate Edge<K>(g: Graph<K>, child: FeatureId, parent: FeatureId) {
    child in g && parent in g[child].Parents()
  }

  /** Each feature of the path names the next one as a parent. */
  ghost predicate IsPath<K>(g: Graph<K>, path: seq<FeatureId>) {
    path != [] && forall i | 0 <= i < |path| - 1 :: Edge(g, path[i], path[i + 1])
  }

  ghost predicate HasCycle<K>(g: Graph<K>) {
    exists path :: IsCycle(g, path)
  }

  ghost predicate IsCycle<K>(g: Graph<K>, path: seq<FeatureId>) {
    IsPath(g, path) && |path| >= 2 && path[0] == path[|path| - 1]
  }

  ghost predicate Dangling<K>(g: Graph<K>, parent: FeatureId) {
    parent !in g && exists child :: Edge(g, child, parent)
  }

  /** The feature depends on `ancestor`, directly or not, or is it. */
  ghost predicate DependsOn<K>(g: Graph<K>, id: FeatureId, ancestor: FeatureId) {
    exists path :: IsPath(g, path) && path[0] == id && path[|path| - 1] == ancestor
  }

  function Members(order: seq<FeatureId>): set<FeatureId> {
    set id | id in order
  }

  predicate NoRepeats(order: seq<FeatureId>) {
    forall i, j | 0 <= i < j < |order| :: order[i] != order[j]
  }

  /** Each feature comes after all its parents. */
  ghost predicate ParentsFirst<K>(g: Graph<K>, order: seq<FeatureId>) {
    forall i | 0 <= i < |order| :: order[i] in g && forall p | p in g[order[i]].Parents() :: p in order[..i]
  }

  /** A duplicate-free list of exactly the features, parents first. */
  ghost predicate TopologicalOrder<K>(g: Graph<K>, order: seq<FeatureId>) {
    NoRepeats(order) && Members(order) == g.Keys && ParentsFirst(g, order)
  }

  lemma {:induction false} PathDescends<K>(g: Graph<K>, order: seq<FeatureId>, path: seq<FeatureId>, i: nat)
    requires TopologicalOrder(g, order) && IsPath(g, path) && i < |order| && path[0] == order[i] && |path| >= 2
    ensures path[|path| - 1] in order[..i]
    decreases |path|
  {
    assert Edge(g, path[0], path[1]);
    var j :| 0 <= j < i && order[j] == path[1];
    if |path| > 2 {
      var tail := path[1..];
      assert forall k | 0 <= k < |tail| - 1 :: Edge(g, tail[k], tail[k + 1]) by {
        forall k | 0 <= k < |tail| - 1
          ensures Edge(g, tail[k], tail[k + 1])
        {
          assert Edge(g, path[k + 1], path[k + 2]);
        }
      }
      PathDescends(g, order, tail, j);
    }
  }

  /** A graph that has a topological order has neither a cycle nor a dangling reference. */
  lemma OrderExcludesDefects<K>(g: Graph<K>, order: seq<FeatureId>)
    requires TopologicalOrder(g, order)
    ensures !HasCycle(g) && forall p :: !Dangling(g, p)
  {
    if path :| IsCycle(g, path) {
      assert Edge(g, path[0], path[1]);
      assert path[0] in Members(order);
      var i :| 0 <= i < |order| && order[i] == path[0];
      PathDescends(g, order, path, i);
    }
    forall p
      ensures !Dangling(g, p)
    {
      if child :| Edge(g, child, p) {
        assert child in Members(order);
        var i :| 0 <= i < |order| && order[i] == child;
        assert p in order[..i];
        assert p in Members(order);
      }
    }
  }

  // ----- The meaning of a model

  /** Each solid is its feature's operation applied to its parents' solids, all of which are present. */
  ghost predicate Partial<K, S>(k: Kernel<K, S>, g: Graph<K>, solids: map<FeatureId, S>) {
    forall id | id in solids :: id in g && Explained(k, g, solids, id)
  }

  ghost predicate Explained<K, S>(k: Kernel<K, S>, g: Graph<K>, solids: map<FeatureId, S>, id: FeatureId)
    requires id in g && id in solids
  {
    (forall p | p in g[id].Parents() :: p in solids) && solids[id] == k.Evaluated(g[id], solids)
  }

  ghost predicate Solves<K, S>(k: Kernel<K, S>, g: Graph<K>, solids: map<FeatureId, S>) {
    solids.Keys == g.Keys && Partial(k, g, solids)
  }

  /** Evaluation looks only at the parents. */
  lemma EvaluatedLocal<K, S>(k: Kernel<K, S>, f: Feature<K>, a: map<FeatureId, S>, b: map<FeatureId, S>)
    requires forall p | p in f.Parents() :: p in a && p in b && a[p] == b[p]
    ensures k.Evaluated(f, a) == k.Evaluated(f, b)
  {
    match f {
      case Boolean(_, p, q) => assert f.Parents()[0] == p && f.Parents()[1] == q;
      case Fillet(p, _) => assert f.Parents()[0] == p;
      case Chamfer(p, _) => assert f.Parents()[0] == p;
      case Transform(p, _, _) => assert f.Parents()[0] == p;
      case _ =>
    }
  }

  /** Evaluating one more feature, once its parents are done, explains it and disturbs nothing. */
  lemma OneMore<K, S>(k: Kernel<K, S>, g: Graph<K>, solids: map<FeatureId, S>, id: FeatureId)
    requires Partial(k, g, solids) && id in g && id !in solids
    requires forall p | p in g[id].Parents() :: p in solids
    ensures Partial(k, g, solids[id := k.Evaluated(g[id], solids)])
  {
    var more := solids[id := k.Evaluated(g[id], solids)];
    forall x | x in more
      ensures x in g && Explained(k, g, more, x)
    {
      assert x != id ==> Explained(k, g, solids, x);
      EvaluatedLocal(k, g[x], solids, more);
    }
  }

  /** Two models that differ only in features `x` does not depend on give `x` the same solid. */
  lemma {:induction false} SameAncestrySameSolid<K, S>(
      k: Kernel<K, S>, g: Graph<K>, h: Graph<K>, order: seq<FeatureId>,
      a: map<FeatureId, S>, b: map<FeatureId, S>, i: nat)
    requires TopologicalOrder(g, order) && Solves(k, g, a) && Solves(k, h, b) && i < |order|
    requires forall y | DependsOn(g, order[i], y) && y in g :: y in h && h[y] == g[y]
    ensures order[i] in a && order[i] in b && a[order[i]] == b[order[i]]
    decreases i, 1
  {
    var x := order[i];
    assert x in Members(order);
    assert IsPath(g, [x]) && [x][|[x]| - 1] == x;
    assert DependsOn(g, x, x);
    forall p | p in g[x].Parents()
      ensures p in a && p in b && a[p] == b[p]
    {
      SameParent(k, g, h, order, a, b, i, p);
    }
    assert Explained(k, g, a, x) && Explained(k, h, b, x);
    EvaluatedLocal(k, g[x], a, b);
  }

  lemma {:induction false} SameParent<K, S>(
      k: Kernel<K, S>, g: Graph<K>, h: Graph<K>, order: seq<FeatureId>,
      a: map<FeatureId, S>, b: map<FeatureId, S>, i: nat, p: FeatureId)
    requires TopologicalOrder(g, order) && Solves(k, g, a) && Solves(k, h, b) && i < |order| && Edge(g, order[i], p)
    requires forall y | DependsOn(g, order[i], y) && y in g :: y in h && h[y] == g[y]
    ensures p in a && p in b && a[p] == b[p]
    decreases i, 0
  {
    assert p in order[..i];
    var j :| 0 <= j < i && order[j] == p;
    forall y | DependsOn(g, p, y) && y in g
      ensures y in h && h[y] == g[y]
    {
      DependsVia(g, order[i], p, y);
    }
    SameAncestrySameSolid(k, g, h, order, a, b, j);
  }

  lemma DependsVia<K>(g: Graph<K>, x: FeatureId, p: FeatureId, y: FeatureId)
    requires Edge(g, x, p) && DependsOn(g, p, y)
    ensures DependsOn(g, x, y)
  {
    var path :| IsPath(g, path) && path[0] == p && path[|path| - 1] == y;
    var longer := [x] + path;
    forall i | 0 <= i < |longer| - 1
      ensures Edge(g, longer[i], longer[i + 1])
    {
      assert i > 0 ==> Edge(g, path[i - 1], path[i]);
    }
    assert IsPath(g, longer) && longer[|longer| - 1] == y;
  }

  /** A model has at most one meaning, so it cannot depend on the order in which features were added or visited. */
  lemma MeaningUnique<K, S>(k: Kernel<K, S>, g: Graph<K>, order: seq<FeatureId>, a: map<FeatureId, S>, b: map<FeatureId, S>)
    requires TopologicalOrder(g, order) && Solves(k, g, a) && Solves(k, g, b)
    ensures a == b
  {
    forall id | id in g
      ensures a[id] == b[id]
    {
      assert id in Members(order);
      var i :| 0 <= i < |order| && order[i] == id;
      SameAncestrySameSolid(k, g, g, order, a, b, i);
    }
  }

  /** Replacing one feature leaves the solid of everything that does not depend on it unchanged. */
  lemma UpdateIsLocal<K, S>(k: Kernel<K, S>, g: Graph<K>, changed: FeatureId, f: Feature<K>, order: seq<FeatureId>,
                            a: map<FeatureId, S>, b: map<FeatureId, S>, id: FeatureId)
    requires TopologicalOrder(g, order) && Solves(k, g, a) && Solves(k, g[changed := f], b)
    requires id in g && !DependsOn(g, id, changed)
    ensures a[id] == b[id]
  {
    assert id in Members(order);
    var i :| 0 <= i < |order| && order[i] == id;
    SameAncestrySameSolid(k, g, g[changed := f], order, a, b, i);
  }

  // ----- What the solids are

  /** The solid is what the feature says, with the parents' solids in the feature's own order. */
  ghost predicate Built<K, S>(k: Kernel<K, S>, g: Graph<K>, solids: map<FeatureId, S>, id: FeatureId)
    requires id in g && id in solids
  {
    match g[id]
    case Extrude(sketch, height) => solids[id] == k.extrude(sketch, height)
    case Revolve(sketch, angle, segments) => solids[id] == k.revolve(sketch, angle, segments)
    case Sweep(sketch, path) => solids[id] == k.sweep(sketch, path)
    case Loft(sketch0, sketch1, height) => solids[id] == k.loft(sketch0, sketch1, height)
    case Boolean(op, a, b) =>
      && a in solids && b in solids
      && (op == Union ==> solids[id] == k.union(solids[a], solids[b]))
      && (op == Subtract ==> solids[id] == k.subtract(solids[a], solids[b]))
      && (op == Intersect ==> solids[id] == k.intersect(solids[a], solids[b]))
    case Fillet(parent, radius) => parent in solids && solids[id] == k.fillet(solids[parent], radius)
    case Chamfer(parent, distance) => parent in solids && solids[id] == k.chamfer(solids[parent], distance)
    case Transform(parent, translation, rotation) =>
      parent in solids && solids[id] == k.place(solids[parent], translation, rotation)
  }

  /** In an evaluation every feature is built from its parents' solids; the default solid is never used. */
  lemma SolvedIsBuilt<K, S>(k: Kernel<K, S>, g: Graph<K>, solids: map<FeatureId, S>, id: FeatureId)
    requires Solves(k, g, solids) && id in g
    ensures Built(k, g, solids, id)
  {
    assert Explained(k, g, solids, id);
    var ps := g[id].Parents();
    match g[id] {
      case Boolean(_, a, b) => assert ps[0] == a && ps[1] == b;
      case Fillet(p, _) => assert ps[0] == p;
      case Chamfer(p, _) => assert ps[0] == p;
      case Transform(p, _, _) => assert ps[0] == p;
      case _ =>
    }
  }

  /** The kernel's booleans are those of point sets. */
  ghost predicate SetLaws<K, S(!new), P(!new)>(k: Kernel<K, S>, member: (S, P) -> bool)
  {
    && (forall a, b, p :: member(k.union(a, b), p) <==> member(a, p) || member(b, p))
    && (forall a, b, p :: member(k.subtract(a, b), p) <==> member(a, p) && !member(b, p))
    && (forall a, b, p :: member(k.intersect(a, b), p) <==> member(a, p) && member(b, p))
  }

  /** Which points a boolean feature has: those of `a` or `b`, of `a` but not `b`, or of both. */
  lemma BooleanMembership<K, S(!new), P(!new)>(k: Kernel<K, S>, g: Graph<K>, solids: map<FeatureId, S>, id: FeatureId,
                                   member: (S, P) -> bool, p: P)
    requires Solves(k, g, solids) && id in g && g[id].Boolean? && SetLaws(k, member)
    ensures g[id].a in solids && g[id].b in solids
    ensures var inA, inB := member(solids[g[id].a], p), member(solids[g[id].b], p);
            member(solids[id], p) <==> match g[id].op
                                       case Union => inA || inB
                                       case Subtract => inA && !inB
                                       case Intersect => inA && inB
  {
    SolvedIsBuilt(k, g, solids, id);
  }
}
