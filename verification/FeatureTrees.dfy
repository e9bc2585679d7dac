/** The feature tree with its in-place edits, depth-first sort and rebuild
  (tpt-vertex-kernel/src/feature_tree.rs). */
module FeatureTrees {
  import opened Options
  import opened FeatureGraphs

  datatype EvalError = MissingParent(id: FeatureId) | Cycle

  datatype Sorted = Ok(order: seq<FeatureId>) | Err(error: EvalError)

  datatype Evaluation<S> =
    | Rebuilt(finalSolid: S, solids: map<FeatureId, S>, order: seq<FeatureId>)
    | Failed(error: EvalError)

  /** The error names a real defect of the graph. */
  ghost predicate Justified<K>(g: Graph<K>, e: EvalError) {
    match e
    case MissingParent(p) => Dangling(g, p)
    case Cycle => HasCycle(g)
  }

  function IndexOf(order: seq<FeatureId>, id: FeatureId): Option<nat> {
    if order == [] then None
    else if order[0] == id then Some(0)
    else match IndexOf(order[1..], id)
      case None => None
      case Some(i) => Some(i + 1)
  }

  lemma {:induction false} IndexOfFirst(order: seq<FeatureId>, id: FeatureId)
    ensures IndexOf(order, id).None? <==> id !in order
    ensures IndexOf(order, id).Some? ==> IndexOf(order, id).value < |order| && order[IndexOf(order, id).value] == id
  {
    if order != [] {
      IndexOfFirst(order[1..], id);
    }
  }

  /** What a depth-first walk has done so far: a set of finished features, listed parents first. */
  ghost predicate Progress<K>(g: Graph<K>, visited: set<FeatureId>, result: seq<FeatureId>) {
    NoRepeats(result) && Members(result) == visited && ParentsFirst(g, result)
  }

  /** In a history already in order, the next feature is new and its parents have all been seen. */
  lemma NextInOrder<K>(g: Graph<K>, order: seq<FeatureId>, i: nat)
    requires i < |order| && NoRepeats(order) && ParentsFirst(g, order)
    ensures order[i] in g && order[i] !in Members(order[..i])
    ensures forall p | p in g[order[i]].Parents() :: p in Members(order[..i])
  {
  }

  lemma NextMember(order: seq<FeatureId>, i: nat)
    requires i < |order|
    ensures order[i] in Members(order) && Members(order[..i + 1]) == Members(order[..i]) + {order[i]}
    ensures order[..i + 1] == order[..i] + [order[i]]
  {
  }

  lemma NoProgress<K>(g: Graph<K>)
    ensures Progress(g, {}, []) && Members([]) == {}
  {
  }

  class FeatureTree<K(0)> {
    var features: Graph<K>
    var order: seq<FeatureId>
    var nextId: nat

    /** The history list names each feature once, and ids are never reused. */
    ghost predicate Valid()
      reads this
    {
      NoRepeats(order) && Members(order) == features.Keys && forall id | id in features :: id < nextId
    }

    constructor ()
      ensures Valid() && features == map[] && order == []
    {
      features, order, nextId := map[], [], 0;
    }

    method Add(feature: Feature<K>, after: Option<FeatureId>) returns (id: FeatureId)
      requires Valid()
      modifies this
      ensures Valid() && id == old(nextId) && id !in old(features) && nextId == old(nextId) + 1
      ensures features == old(features)[id := feature]
      ensures after.Some? && after.value in old(order) ==>
                exists i | 0 <= i < |old(order)| :: old(order)[i] == after.value
                    && order == old(order)[..i + 1] + [id] + old(order)[i + 1..]
      ensures !(after.Some? && after.value in old(order)) ==> order == old(order) + [id]
    {
      id := nextId;
      assert id !in Members(order);
      nextId := nextId + 1;
      features := features[id := feature];
      var at := |order|;
      if after.Some? {
        IndexOfFirst(order, after.value);
        var found := IndexOf(order, after.value);
        if found.Some? {
          at := found.value + 1;
        }
      }
      ghost var before := order;
      order := order[..at] + [id] + order[at..];
      InsertedOnce(before, at, id, order);
    }

    method Update(id: FeatureId, feature: Feature<K>)
      requires Valid()
      modifies `features
      ensures Valid()
      ensures features == if id in old(features) then old(features)[id := feature] else old(features)
    {
      if id in features {
        features := features[id := feature];
      }
    }

    method Remove(id: FeatureId)
      requires Valid()
      modifies `features, `order
      ensures Valid()
      ensures features == old(features) - {id} && order == Without(old(order), id)
    {
      features := features - {id};
      WithoutKeepsOrder(order, id);
      order := Without(order, id);
    }

    /** Depth-first visit of one feature; `stack` is the chain of unfinished features that led here. */
    method Visit(id: FeatureId, visited: set<FeatureId>, inProgress: set<FeatureId>, result: seq<FeatureId>,
                 ghost stack: seq<FeatureId>)
      returns (error: Option<EvalError>, visited': set<FeatureId>, result': seq<FeatureId>)
      requires id in features && inProgress == Members(stack) && inProgress <= features.Keys
      requires IsPath(features, stack + [id])
      requires Progress(features, visited, result) && visited !! inProgress
      ensures error.Some? ==> Justified(features, error.value)
      ensures error.None? ==> Progress(features, visited', result') && result <= result'
      ensures error.None? ==> visited + {id} <= visited' && visited' !! inProgress
      ensures id in visited ==> error.None? && visited' == visited && result' == result
      ensures id !in visited && id !in inProgress && (forall p | p in features[id].Parents() :: p in visited) ==>
                error.None? && visited' == visited + {id} && result' == result + [id]
      decreases features.Keys - inProgress
    {
      visited', result' := visited, result;
      if id in visited {
        return None, visited, result;
      }
      if id in inProgress {
        ClosingEdge(features, stack, id);
        return Some(Cycle), visited, result;
      }
      var parents := features[id].Parents();
      var i := 0;
      while i < |parents|
        invariant 0 <= i <= |parents|
        invariant Progress(features, visited', result') && result <= result'
        invariant visited <= visited' && visited' !! inProgress + {id}
        invariant forall j | 0 <= j < i :: parents[j] in visited'
        invariant (forall p | p in parents :: p in visited) ==> visited' == visited && result' == result
      {
        var p := parents[i];
        assert Edge(features, id, p);
        if p !in features {
          assert Members(result') <= features.Keys;
          return Some(MissingParent(p)), visited', result';
        }
        ghost var deeper := stack + [id];
        StackGrows(features, stack, id, p);
        error, visited', result' := Visit(p, visited', inProgress + {id}, result', deeper);
        if error.Some? {
          return;
        }
        i := i + 1;
      }
      FinishFeature(features, visited', result', id);
      error, visited', result' := None, visited' + {id}, result' + [id];
    }

    /** Topological sort: it succeeds exactly on defect-free graphs, and a history already in order is kept. */
    method TopoOrder() returns (r: Sorted)
      requires Valid()
      ensures r.Ok? ==> TopologicalOrder(features, r.order)
      ensures r.Err? ==> Justified(features, r.error)
      ensures r.Ok? <==> !HasCycle(features) && forall p :: !Dangling(features, p)
      ensures ParentsFirst(features, order) ==> r == Ok(order)
    {
      var visited: set<FeatureId>, result: seq<FeatureId> := {}, [];
      ghost var g, history := features, order;
      ghost var kept := ParentsFirst(g, history);
      hide ParentsFirst, Members, NoRepeats;
      NoProgress(g);
      var i := 0;
      while i < |order|
        invariant 0 <= i <= |order|
        invariant Progress(g, visited, result)
        invariant Members(history[..i]) <= visited <= g.Keys
        invariant kept ==> result == history[..i]
      {
        var id := order[i];
        NextMember(history, i);
        if kept {
          NextInOrder(g, history, i);
          assert visited == Members(history[..i]);
        }
        if id !in visited {
          assert IsPath(g, [] + [id]);
          assert kept ==> forall p | p in g[id].Parents() :: p in visited;
          var error;
          error, visited, result := Visit(id, visited, {}, result, []);
          if error.Some? {
            return Err(error.value);
          }
          assert kept ==> result == history[..i] + [id];
        } else {
          assert !kept;
        }
        VisitedAreFeatures(g, visited, result);
        i := i + 1;
      }
      assert history[..i] == history;
      OrderExcludesDefects(g, result);
      r := Ok(result);
    }

    /** Rebuild the model: the solids are its one meaning, and the final solid is the last feature's. */
    method Evaluate<S>(k: Kernel<K, S>) returns (r: Evaluation<S>)
      requires Valid()
      ensures r.Failed? <==> HasCycle(features) || exists p :: Dangling(features, p)
      ensures r.Failed? ==> Justified(features, r.error)
      ensures r.Rebuilt? ==> TopologicalOrder(features, r.order) && Solves(k, features, r.solids)
      ensures r.Rebuilt? ==> forall id | id in features :: Built(k, features, r.solids, id)
      ensures r.Rebuilt? ==> r.finalSolid == if r.order == [] then k.emptySolid else r.solids[r.order[|r.order| - 1]]
    {
      var sorted := TopoOrder();
      if sorted.Err? {
        return Failed(sorted.error);
      }
      var todo := sorted.order;
      var solids := Rebuild(k, todo);
      forall id | id in features
        ensures Built(k, features, solids, id)
      {
        SolvedIsBuilt(k, features, solids, id);
      }
      var final := k.emptySolid;
      if |todo| > 0 {
        assert todo[|todo| - 1] in Members(todo);
        final := solids[todo[|todo| - 1]];
      }
      r := Rebuilt(final, solids, todo);
    }

    /** The evaluation loop of `Evaluate`. */
    method Rebuild<S>(k: Kernel<K, S>, todo: seq<FeatureId>) returns (solids: map<FeatureId, S>)
      requires TopologicalOrder(features, todo)
      ensures Solves(k, features, solids)
    {
      solids := map[];
      var i := 0;
      while i < |todo|
        invariant 0 <= i <= |todo|
        invariant solids.Keys == Members(todo[..i])
        invariant Partial(k, features, solids)
      {
        var id := todo[i];
        NextIsReady(features, todo, i);
        OneMore(k, features, solids, id);
        solids := solids[id := k.Evaluated(features[id], solids)];
        i := i + 1;
      }
      assert todo[..i] == todo;
    }
  }

  // ----- Helpers of the methods above

  function Without(order: seq<FeatureId>, id: FeatureId): (r: seq<FeatureId>)
    ensures forall x :: x in r <==> x in order && x != id
  {
    if order == [] then []
    else (if order[0] == id then [] else [order[0]]) + Without(order[1..], id)
  }

  ghost predicate Precedes(order: seq<FeatureId>, x: FeatureId, y: FeatureId) {
    exists i, j :: 0 <= i < j < |order| && order[i] == x && order[j] == y
  }

  lemma PrecedesCons(order: seq<FeatureId>, x: FeatureId, y: FeatureId)
    requires order != []
    ensures Precedes(order, x, y) <==> (order[0] == x && y in order[1..]) || Precedes(order[1..], x, y)
  {
    var tail := order[1..];
    if Precedes(order, x, y) {
      var i, j :| 0 <= i < j < |order| && order[i] == x && order[j] == y;
      assert tail[j - 1] == y;
      if i > 0 {
        assert tail[i - 1] == x;
      }
    }
    if order[0] == x && y in tail {
      var j :| 0 <= j < |tail| && tail[j] == y;
      assert order[j + 1] == y;
    }
    if Precedes(tail, x, y) {
      var i, j :| 0 <= i < j < |tail| && tail[i] == x && tail[j] == y;
      assert order[i + 1] == x && order[j + 1] == y;
    }
  }

  /** Removing an id keeps the others, each once, in the order they had. */
  lemma {:induction false} WithoutKeepsOrder(order: seq<FeatureId>, id: FeatureId)
    ensures forall x, y | x != id && y != id :: Precedes(order, x, y) <==> Precedes(Without(order, id), x, y)
    ensures NoRepeats(order) ==> NoRepeats(Without(order, id))
  {
    if order != [] {
      WithoutKeepsOrder(order[1..], id);
      var r, rest := Without(order, id), Without(order[1..], id);
      assert r == (if order[0] == id then [] else [order[0]]) + rest;
      assert order[0] == id ==> r == rest;
      assert order[0] != id ==> r[1..] == rest;
      if NoRepeats(order) {
        assert forall i | 0 <= i < |order[1..]| :: order[1..][i] == order[i + 1];
        assert NoRepeats(order[1..]) && order[0] !in order[1..];
        assert order[0] !in rest;
      }
      forall x, y | x != id && y != id
        ensures Precedes(order, x, y) <==> Precedes(r, x, y)
      {
        PrecedesCons(order, x, y);
        if order[0] != id {
          PrecedesCons(r, x, y);
        }
      }
    }
  }

  lemma InsertedOnce(before: seq<FeatureId>, at: nat, id: FeatureId, after: seq<FeatureId>)
    requires NoRepeats(before) && id !in before && at <= |before| && after == before[..at] + [id] + before[at..]
    ensures NoRepeats(after) && Members(after) == Members(before) + {id}
  {
    assert before == before[..at] + before[at..];
    forall i, j | 0 <= i < j < |after|
      ensures after[i] != after[j]
    {
      assert after[i] == if i < at then before[i] else if i == at then id else before[i - 1];
      assert after[j] == if j < at then before[j] else if j == at then id else before[j - 1];
    }
  }

  /** Meeting an unfinished feature again closes a cycle. */
  lemma ClosingEdge<K>(g: Graph<K>, stack: seq<FeatureId>, id: FeatureId)
    requires IsPath(g, stack + [id]) && id in stack
    ensures HasCycle(g)
  {
    var chain := stack + [id];
    var j :| 0 <= j < |stack| && stack[j] == id;
    var cycle := chain[j..];
    forall i | 0 <= i < |cycle| - 1
      ensures Edge(g, cycle[i], cycle[i + 1])
    {
      assert Edge(g, chain[j + i], chain[j + i + 1]);
    }
    assert IsCycle(g, cycle);
  }

  lemma StackGrows<K>(g: Graph<K>, stack: seq<FeatureId>, id: FeatureId, p: FeatureId)
    requires IsPath(g, stack + [id]) && Edge(g, id, p)
    ensures IsPath(g, stack + [id] + [p]) && Members(stack + [id]) == Members(stack) + {id}
  {
    var chain, longer := stack + [id], stack + [id] + [p];
    forall i | 0 <= i < |longer| - 1
      ensures Edge(g, longer[i], longer[i + 1])
    {
      assert i < |stack| ==> Edge(g, chain[i], chain[i + 1]);
    }
  }

  lemma FinishFeature<K>(g: Graph<K>, visited: set<FeatureId>, result: seq<FeatureId>, id: FeatureId)
    requires Progress(g, visited, result) && id in g && id !in visited
    requires forall p | p in g[id].Parents() :: p in visited
    ensures Progress(g, visited + {id}, result + [id])
  {
    var r := result + [id];
    assert forall x | x in result :: x in Members(result);
    forall i | 0 <= i < |r|
      ensures r[i] in g && forall p | p in g[r[i]].Parents() :: p in r[..i]
    {
      if i < |result| {
        assert r[..i] == result[..i];
      } else {
        assert r[..i] == result;
      }
    }
  }

  /** In a topological order the next feature is new and its parents are done. */
  lemma NextIsReady<K>(g: Graph<K>, todo: seq<FeatureId>, i: nat)
    requires TopologicalOrder(g, todo) && i < |todo|
    ensures todo[i] in g && todo[i] !in Members(todo[..i])
    ensures forall p | p in g[todo[i]].Parents() :: p in Members(todo[..i])
    ensures Members(todo[..i + 1]) == Members(todo[..i]) + {todo[i]}
  {
    assert todo[..i + 1] == todo[..i] + [todo[i]];
  }

  lemma VisitedAreFeatures<K>(g: Graph<K>, visited: set<FeatureId>, result: seq<FeatureId>)
    requires Progress(g, visited, result)
    ensures visited <= g.Keys
  {
    forall id | id in visited
      ensures id in g
    {
      assert id in Members(result);
      var i :| 0 <= i < |result| && result[i] == id;
    }
  }
}
