/** Ordering the extrusion paths of a layer by nearest neighbour
  (tpt-vertex-slicer/src/path.rs). */
module Toolpaths {
  import opened Options
  import opened Planar
  import opened Magnitudes

  datatype ExtrusionPath = ExtrusionPath(points: seq<P2>, closed: bool, width: Option<real>, bridge: bool, tool: nat)

  datatype InfillLine = InfillLine(a: P2, b: P2, bridge: bool, tool: nat)

  datatype Move =
    | Travel(to: P2, z: real, retract: bool, hop: bool)
    | Extrude(path: ExtrusionPath, z: real)

  datatype LayerPlan = LayerPlan(z: real, moves: seq<Move>)

  function PathOfLine(line: InfillLine): ExtrusionPath {
    ExtrusionPath([line.a, line.b], false, None, line.bridge, line.tool)
  }

  /** The perimeters, then the infill lines as paths. */
  function AllPaths(perimeters: seq<ExtrusionPath>, infill: seq<InfillLine>): (paths: seq<ExtrusionPath>)
    ensures |paths| == |perimeters| + |infill| && paths[..|perimeters|] == perimeters
    ensures forall i | 0 <= i < |infill| ::
              && paths[|perimeters| + i].points == [infill[i].a, infill[i].b]
              && paths[|perimeters| + i].bridge == infill[i].bridge && paths[|perimeters| + i].tool == infill[i].tool
              && !paths[|perimeters| + i].closed && paths[|perimeters| + i].width == None
  {
    perimeters + seq(|infill|, i requires 0 <= i < |infill| => PathOfLine(infill[i]))
  }

  ghost predicate NonEmpty(paths: seq<ExtrusionPath>) {
    forall i | 0 <= i < |paths| :: paths[i].points != []
  }

  function Start(path: ExtrusionPath): P2
    requires path.points != []
  {
    path.points[0]
  }

  function End(path: ExtrusionPath): P2
    requires path.points != []
  {
    path.points[|path.points| - 1]
  }

  // ----- The order

  predicate NoRepeats(order: seq<nat>) {
    forall i, j | 0 <= i < j < |order| :: order[i] != order[j]
  }

  predicate Indexes(order: seq<nat>, n: nat) {
    forall k | 0 <= k < |order| :: order[k] < n
  }

  /** Of the paths not in `done`, `next` has the start nearest to `from`, and is the earliest of those equally near. */
  ghost predicate Nearest(paths: seq<ExtrusionPath>, done: seq<nat>, from: P2, next: nat)
    requires NonEmpty(paths)
  {
    && next < |paths| && next !in done
    && forall i: nat | i < |paths| && i !in done ::
         && Gap(from, Start(paths[next])) <= Gap(from, Start(paths[i]))
         && (i < next ==> Gap(from, Start(paths[next])) < Gap(from, Start(paths[i])))
  }

  /** The order starts with the first path and always goes on with the nearest one left. */
  ghost predicate Greedy(paths: seq<ExtrusionPath>, order: seq<nat>)
    requires NonEmpty(paths)
  {
    && NoRepeats(order) && Indexes(order, |paths|)
    && (order != [] ==> order[0] == 0)
    && forall k | 1 <= k < |order| :: Nearest(paths, order[..k], End(paths[order[k - 1]]), order[k])
  }

  /** Travel is needed when the start is further than 1e-6 away. */
  predicate Apart(p: P2, q: P2) {
    Gap(p, q) > 0.000000000001
  }

  const STEP: real := 0.000001

  /** Points are apart when they differ by more than 1e-6 along an axis, and not when they differ by less in all. */
  lemma ApartAlongAxes(p: P2, q: P2)
    ensures Size(p.x - q.x) > STEP || Size(p.y - q.y) > STEP ==> Apart(p, q)
    ensures Size(p.x - q.x) + Size(p.y - q.y) < STEP ==> !Apart(p, q)
  {
    var u, v := Size(p.x - q.x), Size(p.y - q.y);
    assert STEP * STEP == 0.000000000001 && Gap(p, q) == u * u + v * v;
    SquareNotNegative(u);
    SquareNotNegative(v);
    if u > STEP {
      GrowsStrictly(STEP, u);
    }
    if v > STEP {
      GrowsStrictly(STEP, v);
    }
    SquaresBelow(u, v, 0.0, STEP);
  }

  /** The position after printing along an order. */
  function EndOf(paths: seq<ExtrusionPath>, order: seq<nat>): Option<P2>
    requires NonEmpty(paths) && Indexes(order, |paths|)
  {
    if order == [] then None else Some(End(paths[order[|order| - 1]]))
  }

  /** The travel to a start, unless printing goes straight on from there. */
  function Approach(from: Option<P2>, start: P2, z: real): seq<Move> {
    if from.Some? && Apart(from.value, start) then [Travel(start, z, true, true)] else []
  }

  /** The moves along an order: each path once, after a travel to its start unless printing goes straight on. */
  function MovesOf(paths: seq<ExtrusionPath>, order: seq<nat>, z: real): seq<Move>
    requires NonEmpty(paths) && Indexes(order, |paths|)
  {
    if order == [] then []
    else
      var n := |order| - 1;
      var path := paths[order[n]];
      MovesOf(paths, order[..n], z) + Approach(EndOf(paths, order[..n]), Start(path), z) + [Extrude(path, z)]
  }

  // ----- The planner

  ghost predicate Ascending(s: seq<nat>) {
    forall i, j | 0 <= i < j < |s| :: s[i] < s[j]
  }

  /** `remaining` lists, in order, exactly the paths that are not in `order`. */
  ghost predicate Complement(remaining: seq<nat>, order: seq<nat>, n: nat) {
    && Ascending(remaining) && Indexes(remaining, n) && Indexes(order, n) && NoRepeats(order)
    && |remaining| + |order| == n
    && forall i: nat | i < n :: i in remaining <==> i !in order
  }

  method NearestOf(paths: seq<ExtrusionPath>, remaining: seq<nat>, cur: P2) returns (best: nat)
    requires NonEmpty(paths) && remaining != [] && Indexes(remaining, |paths|)
    ensures best < |remaining|
    ensures forall k | 0 <= k < |remaining| :: Gap(cur, Start(paths[remaining[best]])) <= Gap(cur, Start(paths[remaining[k]]))
    ensures forall k | 0 <= k < best :: Gap(cur, Start(paths[remaining[best]])) < Gap(cur, Start(paths[remaining[k]]))
  {
    hide Gap;
    best := 0;
    var bestGap := Gap(cur, Start(paths[remaining[0]]));
    var k := 1;
    while k < |remaining|
      invariant 1 <= k <= |remaining| && best < k && bestGap == Gap(cur, Start(paths[remaining[best]]))
      invariant forall j | 0 <= j < k :: bestGap <= Gap(cur, Start(paths[remaining[j]]))
      invariant forall j | 0 <= j < best :: bestGap < Gap(cur, Start(paths[remaining[j]]))
    {
      var gap := Gap(cur, Start(paths[remaining[k]]));
      if gap < bestGap {
        bestGap := gap;
        best := k;
      }
      k := k + 1;
    }
  }

  function Without(s: seq<nat>, k: nat): seq<nat>
    requires k < |s|
  {
    s[..k] + s[k + 1..]
  }

  lemma ChoiceIsNearest(paths: seq<ExtrusionPath>, remaining: seq<nat>, order: seq<nat>, cur: P2, best: nat)
    requires NonEmpty(paths) && Complement(remaining, order, |paths|) && best < |remaining|
    requires forall k | 0 <= k < |remaining| :: Gap(cur, Start(paths[remaining[best]])) <= Gap(cur, Start(paths[remaining[k]]))
    requires forall k | 0 <= k < best :: Gap(cur, Start(paths[remaining[best]])) < Gap(cur, Start(paths[remaining[k]]))
    ensures Nearest(paths, order, cur, remaining[best])
  {
    hide Gap;
    forall i: nat | i < |paths| && i !in order
      ensures Gap(cur, Start(paths[remaining[best]])) <= Gap(cur, Start(paths[i]))
      ensures i < remaining[best] ==> Gap(cur, Start(paths[remaining[best]])) < Gap(cur, Start(paths[i]))
    {
      assert i in remaining;
      var k :| 0 <= k < |remaining| && remaining[k] == i;
      assert k > best ==> remaining[best] < remaining[k];
    }
  }

  lemma ComplementMore(remaining: seq<nat>, order: seq<nat>, n: nat, best: nat)
    requires Complement(remaining, order, n) && best < |remaining|
    ensures Complement(Without(remaining, best), order + [remaining[best]], n)
  {
    var rest, chosen := Without(remaining, best), remaining[best];
    assert chosen in remaining && chosen !in order;
    forall i: nat | i < n
      ensures i in rest <==> i !in order + [chosen]
    {
      if i in remaining && i != chosen {
        var k :| 0 <= k < |remaining| && remaining[k] == i;
        assert rest[if k < best then k else k - 1] == i;
      }
      if i in rest {
        var k :| 0 <= k < |rest| && rest[k] == i;
        assert remaining[if k < best then k else k + 1] == i;
      }
    }
  }

  lemma GreedyMore(paths: seq<ExtrusionPath>, order: seq<nat>, chosen: nat)
    requires NonEmpty(paths) && Greedy(paths, order) && chosen < |paths| && chosen !in order
    requires if order == [] then chosen == 0 else Nearest(paths, order, End(paths[order[|order| - 1]]), chosen)
    ensures Greedy(paths, order + [chosen])
  {
    hide Nearest;
    var more := order + [chosen];
    forall k | 1 <= k < |more|
      ensures Nearest(paths, more[..k], End(paths[more[k - 1]]), more[k])
    {
      assert more[..k] == order[..k];
      assert k == |order| ==> order[..k] == order;
    }
  }

  /** From the first path's own start the first path is nearest. */
  lemma FirstIsNearest(p: P2, q: P2)
    ensures Gap(p, p) == 0.0 <= Gap(p, q)
  {
    SquareNonnegative(p.x - q.x);
    SquareNonnegative(p.y - q.y);
  }

  lemma SquareNonnegative(x: real)
    ensures x * x >= 0.0
  {
  }

  function All(n: nat): (s: seq<nat>)
    ensures |s| == n && forall i | 0 <= i < n :: s[i] == i
  {
    seq(n, i requires 0 <= i < n => i)
  }

  lemma NothingPlanned(paths: seq<ExtrusionPath>, z: real)
    requires NonEmpty(paths)
    ensures Complement(All(|paths|), [], |paths|) && Greedy(paths, []) && MovesOf(paths, [], z) == []
  {
    forall i: nat | i < |paths|
      ensures i in All(|paths|)
    {
      assert All(|paths|)[i] == i;
    }
  }

  lemma PathPlanned(paths: seq<ExtrusionPath>, remaining: seq<nat>, order: seq<nat>, best: nat)
    requires NonEmpty(paths) && Complement(remaining, order, |paths|) && Greedy(paths, order) && best < |remaining|
    requires var cur := if order == [] then Start(paths[remaining[0]]) else End(paths[order[|order| - 1]]);
             && (forall k | 0 <= k < |remaining| ::
                   Gap(cur, Start(paths[remaining[best]])) <= Gap(cur, Start(paths[remaining[k]])))
             && (forall k | 0 <= k < best ::
                   Gap(cur, Start(paths[remaining[best]])) < Gap(cur, Start(paths[remaining[k]])))
    ensures Complement(Without(remaining, best), order + [remaining[best]], |paths|)
    ensures Greedy(paths, order + [remaining[best]])
  {
    hide Gap, Nearest, Greedy;
    ComplementMore(remaining, order, |paths|, best);
    if order == [] {
      FirstChosen(paths, remaining, best);
    } else {
      ChoiceIsNearest(paths, remaining, order, End(paths[order[|order| - 1]]), best);
    }
    GreedyMore(paths, order, remaining[best]);
  }

  lemma MoveAdded(paths: seq<ExtrusionPath>, order: seq<nat>, chosen: nat, z: real)
    requires NonEmpty(paths) && Indexes(order, |paths|) && chosen < |paths|
    ensures var from, path := EndOf(paths, order), paths[chosen];
            MovesOf(paths, order + [chosen], z) == MovesOf(paths, order, z) + Approach(from, Start(path), z) + [Extrude(path, z)]
  {
    assert (order + [chosen])[..|order|] == order;
  }

  /** Every path is printed exactly once, each time the nearest one left, and reached by printing on or by a travel. */
  method PlanLayer(z: real, perimeters: seq<ExtrusionPath>, infill: seq<InfillLine>)
    returns (plan: LayerPlan, ghost order: seq<nat>)
    requires NonEmpty(perimeters)
    ensures NonEmpty(AllPaths(perimeters, infill)) && Greedy(AllPaths(perimeters, infill), order)
    ensures |order| == |AllPaths(perimeters, infill)|
    ensures plan == LayerPlan(z, MovesOf(AllPaths(perimeters, infill), order, z))
  {
    var paths := AllPaths(perimeters, infill);
    plan, order := PlanPaths(z, paths);
  }

  method PlanPaths(z: real, paths: seq<ExtrusionPath>) returns (plan: LayerPlan, ghost order: seq<nat>)
    requires NonEmpty(paths)
    ensures Greedy(paths, order) && |order| == |paths| && plan == LayerPlan(z, MovesOf(paths, order, z))
  {
    var moves: seq<Move> := [];
    var pos: Option<P2> := None;
    var remaining := All(|paths|);
    order := [];
    NothingPlanned(paths, z);
    hide Gap, Greedy, MovesOf, Ascending, NoRepeats, Apart, Without, All, Start, End;
    while remaining != []
      invariant Complement(remaining, order, |paths|) && Greedy(paths, order)
      invariant moves == MovesOf(paths, order, z) && pos == EndOf(paths, order)
      decreases |remaining|
    {
      var best := ChooseNext(paths, remaining, pos, order);
      var chosen := remaining[best];
      MoveAdded(paths, order, chosen, z);
      remaining := Without(remaining, best);
      var path := paths[chosen];
      if pos.Some? && Apart(pos.value, Start(path)) {
        moves := moves + [Travel(Start(path), z, true, true)];
      }
      moves := moves + [Extrude(path, z)];
      pos := Some(End(path));
      order := order + [chosen];
    }
    plan := LayerPlan(z, moves);
  }

  /** The nearest path left, from the nozzle's position or, at the beginning, from the first path's own start. */
  method ChooseNext(paths: seq<ExtrusionPath>, remaining: seq<nat>, pos: Option<P2>, ghost order: seq<nat>) returns (best: nat)
    requires NonEmpty(paths) && Complement(remaining, order, |paths|) && Greedy(paths, order) && remaining != []
    requires pos == EndOf(paths, order)
    ensures best < |remaining| && Complement(Without(remaining, best), order + [remaining[best]], |paths|)
    ensures Greedy(paths, order + [remaining[best]])
  {
    hide Gap, Greedy, Ascending, NoRepeats, Without;
    var cur := if pos.Some? then pos.value else Start(paths[remaining[0]]);
    best := NearestOf(paths, remaining, cur);
    PathPlanned(paths, remaining, order, best);
  }

  lemma FirstChosen(paths: seq<ExtrusionPath>, remaining: seq<nat>, best: nat)
    requires NonEmpty(paths) && Complement(remaining, [], |paths|) && best < |remaining|
    requires forall k | 0 <= k < best ::
               Gap(Start(paths[remaining[0]]), Start(paths[remaining[best]])) < Gap(Start(paths[remaining[0]]), Start(paths[remaining[k]]))
    ensures remaining[best] == 0
  {
    FirstIsNearest(Start(paths[remaining[0]]), Start(paths[remaining[best]]));
    assert 0 in remaining;
  }

  // ----- What a plan prints

  /** The paths of the extrusion moves, in order. */
  function Printed(moves: seq<Move>): seq<ExtrusionPath> {
    if moves == [] then []
    else
      var last := moves[|moves| - 1];
      Printed(moves[..|moves| - 1]) + if last.Extrude? then [last.path] else []
  }

  lemma {:induction false} PrintedConcat(x: seq<Move>, y: seq<Move>)
    ensures Printed(x + y) == Printed(x) + Printed(y)
  {
    if y == [] {
      assert x + y == x;
    } else {
      PrintedConcat(x, y[..|y| - 1]);
      assert (x + y)[..|x + y| - 1] == x + y[..|y| - 1];
    }
  }

  function Chosen(paths: seq<ExtrusionPath>, order: seq<nat>): seq<ExtrusionPath>
    requires Indexes(order, |paths|)
  {
    seq(|order|, k requires 0 <= k < |order| => paths[order[k]])
  }

  lemma ChosenMore(paths: seq<ExtrusionPath>, order: seq<nat>)
    requires Indexes(order, |paths|) && order != []
    ensures Chosen(paths, order) == Chosen(paths, order[..|order| - 1]) + [paths[order[|order| - 1]]]
  {
  }

  lemma PrintedStep(head: seq<Move>, hop: seq<Move>, path: ExtrusionPath, z: real)
    requires Printed(hop) == []
    ensures Printed(head + hop + [Extrude(path, z)]) == Printed(head) + [path]
  {
    PrintedConcat(head, hop);
    assert (head + hop + [Extrude(path, z)])[..|head + hop|] == head + hop;
  }

  lemma {:induction false} MovesPrintOrder(paths: seq<ExtrusionPath>, order: seq<nat>, z: real)
    requires NonEmpty(paths) && Indexes(order, |paths|)
    ensures Printed(MovesOf(paths, order, z)) == Chosen(paths, order)
  {
    hide Approach, EndOf, Apart;
    if order != [] {
      var n := |order| - 1;
      var path := paths[order[n]];
      var head, hop := MovesOf(paths, order[..n], z), Approach(EndOf(paths, order[..n]), Start(path), z);
      assert MovesOf(paths, order, z) == head + hop + [Extrude(path, z)];
      hide MovesOf, Printed, Chosen;
      MovesPrintOrder(paths, order[..n], z);
      PrintedSingles(path, z, EndOf(paths, order[..n]));
      PrintedStep(head, hop, path, z);
      ChosenMore(paths, order);
    }
  }

  lemma PrintedSingles(path: ExtrusionPath, z: real, from: Option<P2>)
    requires path.points != []
    ensures Printed([Extrude(path, z)]) == [path] && Printed(Approach(from, Start(path), z)) == []
  {
  }

  /** A repetition-free list of all indexes chooses every path exactly as often as it is given. */
  lemma {:induction false} ChosenIsAll(paths: seq<ExtrusionPath>, order: seq<nat>)
    requires NoRepeats(order) && Indexes(order, |paths|) && |order| == |paths|
    ensures multiset(Chosen(paths, order)) == multiset(paths)
  {
    if paths != [] {
      var n := |paths| - 1;
      var k := PositionOf(order, n);
      var rest := Without(order, k);
      WithoutLargest(order, n, k);
      ChosenIsAll(paths[..n], rest);
      assert paths == paths[..n] + [paths[n]];
      assert Chosen(paths, order) == Chosen(paths, order)[..k] + [paths[n]] + Chosen(paths, order)[k + 1..];
      assert Chosen(paths[..n], rest) == Chosen(paths, order)[..k] + Chosen(paths, order)[k + 1..];
    }
  }

  /** A repetition-free list of n+1 indexes up to n contains n. */
  lemma PositionOf(order: seq<nat>, n: nat) returns (k: nat)
    requires NoRepeats(order) && Indexes(order, n + 1) && |order| == n + 1
    ensures k < |order| && order[k] == n
  {
    if n !in order {
      TooMany(order, n);
    }
    k :| 0 <= k < |order| && order[k] == n;
  }

  lemma {:induction false} TooMany(order: seq<nat>, n: nat)
    requires NoRepeats(order) && Indexes(order, n)
    ensures |order| <= n
  {
    if order != [] {
      assert order[0] < n;
      if n - 1 in order {
        var k :| 0 <= k < |order| && order[k] == n - 1;
        WithoutLargest(order, n - 1, k);
        TooMany(Without(order, k), n - 1);
      } else {
        TooMany(order, n - 1);
      }
    }
  }

  lemma WithoutLargest(order: seq<nat>, n: nat, k: nat)
    requires NoRepeats(order) && Indexes(order, n + 1) && k < |order| && order[k] == n
    ensures NoRepeats(Without(order, k)) && Indexes(Without(order, k), n)
  {
  }

  /** The plan prints the given paths, each exactly as often as given. */
  lemma PlanPrintsEverything(paths: seq<ExtrusionPath>, order: seq<nat>, z: real)
    requires NonEmpty(paths) && Greedy(paths, order) && |order| == |paths|
    ensures multiset(Printed(MovesOf(paths, order, z))) == multiset(paths)
  {
    MovesPrintOrder(paths, order, z);
    ChosenIsAll(paths, order);
  }

  /** Every travel retracts, hops and leads to the start of the path printed next. */
  ghost predicate TravelsLead(moves: seq<Move>, z: real) {
    forall k | 0 <= k < |moves| && moves[k].Travel? ::
      && k + 1 < |moves| && moves[k + 1].Extrude? && moves[k + 1].path.points != []
      && moves[k] == Travel(Start(moves[k + 1].path), z, true, true)
  }

  lemma {:induction false} PlannedTravelsLead(paths: seq<ExtrusionPath>, order: seq<nat>, z: real)
    requires NonEmpty(paths) && Indexes(order, |paths|)
    ensures TravelsLead(MovesOf(paths, order, z), z)
  {
    if order != [] {
      var n := |order| - 1;
      var path := paths[order[n]];
      var head, hop := MovesOf(paths, order[..n], z), Approach(EndOf(paths, order[..n]), Start(path), z);
      PlannedTravelsLead(paths, order[..n], z);
      assert MovesOf(paths, order, z) == head + hop + [Extrude(path, z)];
      hide MovesOf, EndOf, TravelsLead, Approach;
      LeadMore(head, EndOf(paths, order[..n]), path, z);
    }
  }

  lemma LeadMore(head: seq<Move>, from: Option<P2>, path: ExtrusionPath, z: real)
    requires TravelsLead(head, z) && path.points != []
    ensures TravelsLead(head + Approach(from, Start(path), z) + [Extrude(path, z)], z)
  {
    hide Apart, Start;
    var hop := Approach(from, Start(path), z);
    var moves := head + hop + [Extrude(path, z)];
    forall k | 0 <= k < |moves| && moves[k].Travel?
      ensures && k + 1 < |moves| && moves[k + 1].Extrude? && moves[k + 1].path.points != []
              && moves[k] == Travel(Start(moves[k + 1].path), z, true, true)
    {
      if k < |head| {
        assert moves[k] == head[k] && moves[k + 1] == head[k + 1];
      } else {
        assert k == |head| && moves[k + 1] == Extrude(path, z);
      }
    }
  }

  /** The nozzle's position after some moves. */
  function PositionAfter(moves: seq<Move>): Option<P2>
    requires forall m | m in moves :: m.Extrude? ==> m.path.points != []
  {
    if moves == [] then None
    else
      var last := moves[|moves| - 1];
      Some(if last.Travel? then last.to else End(last.path))
  }

  ghost predicate Printable(moves: seq<Move>) {
    forall m | m in moves :: m.Extrude? ==> m.path.points != []
  }

  /** Every path is printed from where the nozzle is, up to 1e-6; the first one from wherever it starts. */
  ghost predicate Continuous(moves: seq<Move>)
    requires Printable(moves)
  {
    forall k | 0 < k < |moves| && moves[k].Extrude? ::
      var p := PositionAfter(moves[..k]); p.Some? && !Apart(p.value, Start(moves[k].path))
  }

  lemma {:induction false} PlanIsContinuous(paths: seq<ExtrusionPath>, order: seq<nat>, z: real)
    requires NonEmpty(paths) && Indexes(order, |paths|)
    ensures Printable(MovesOf(paths, order, z)) && Continuous(MovesOf(paths, order, z))
    ensures PositionAfter(MovesOf(paths, order, z)) == EndOf(paths, order)
    ensures order != [] ==> MovesOf(paths, order, z)[0] == Extrude(paths[order[0]], z)
  {
    if order != [] {
      var n := |order| - 1;
      var path := paths[order[n]];
      var head := MovesOf(paths, order[..n], z);
      PlanIsContinuous(paths, order[..n], z);
      assert MovesOf(paths, order, z) == head + Approach(EndOf(paths, order[..n]), Start(path), z) + [Extrude(path, z)];
      hide MovesOf, Printable, EndOf;
      ContinuousMore(head, path, z);
    }
  }

  lemma ContinuousMore(head: seq<Move>, path: ExtrusionPath, z: real)
    requires Printable(head) && Continuous(head) && path.points != []
    ensures var moves := head + Approach(PositionAfter(head), Start(path), z) + [Extrude(path, z)];
            Printable(moves) && Continuous(moves) && PositionAfter(moves) == Some(End(path)) && (head != [] ==> moves[0] == head[0])
    ensures head == [] ==> head + Approach(PositionAfter(head), Start(path), z) + [Extrude(path, z)] == [Extrude(path, z)]
  {
    var hop := Approach(PositionAfter(head), Start(path), z);
    var moves := head + hop + [Extrude(path, z)];
    FirstIsNearest(Start(path), Start(path));
    hide Gap, Start, End;
    forall k | 0 < k < |moves| && moves[k].Extrude?
      ensures var p := PositionAfter(moves[..k]); p.Some? && !Apart(p.value, Start(moves[k].path))
    {
      if k < |head| {
        assert moves[..k] == head[..k];
      } else {
        assert moves[..k] == head + hop;
        assert hop == [] ==> moves[..k] == head;
      }
    }
  }
}
