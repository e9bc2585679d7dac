/** What the emitted program draws: for planned layers exactly the stretches of their paths, and when exactly a path is drawn
  from point to point (tpt-vertex-slicer/src/gcode.rs:135-255, path.rs:105-152). */
module HeadDrawings {
  import opened Options
  import opened Planar
  import opened Toolpaths
  import opened GcodeChecks
  import opened GcodeEmission
  import opened GcodeVerdicts
  import opened HeadReader
  import opened HeadPaths

  // ----- What is drawn

  /** The motions that extrude. */
  function Drawing(ms: seq<Motion>): seq<Motion> {
    if ms == [] then []
    else Drawing(ms[..|ms| - 1]) + if ms[|ms| - 1].e.Some? then [ms[|ms| - 1]] else []
  }

  lemma {:induction false} DrawingConcat(x: seq<Motion>, y: seq<Motion>)
    ensures Drawing(x + y) == Drawing(x) + Drawing(y)
  {
    if y == [] {
      assert x + y == x;
    } else {
      DrawingConcat(x, y[..|y| - 1]);
      assert (x + y)[..|x + y| - 1] == x + y[..|y| - 1];
    }
  }

  /** A point in space. */
  datatype Spot = Spot(at: P2, z: Option<real>)

  function Ends(ms: seq<Motion>): (spots: seq<Spot>)
    ensures |spots| == |ms|
  {
    seq(|ms|, i requires 0 <= i < |ms| => Spot(ms[i].to, ms[i].z))
  }

  /** Where the stretches of a path end that are not degenerate. */
  function StretchEnds(job: Job, path: ExtrusionPath, z: real, n: nat): seq<Spot>
    requires 1 <= n <= |path.points|
  {
    if n == 1 then []
    else
      StretchEnds(job, path, z, n - 1)
      + if job.dist(path.points[n - 2], path.points[n - 1]) < TOUCHING then []
        else [Spot(With(job, path.tool, path.points[n - 1]), Some(z))]
  }

  /** What one move of a layer draws. */
  function MoveDraws(job: Job, move: Move, z: real): seq<Spot>
    requires move.Extrude? ==> move.path.points != []
  {
    if move.Extrude? then StretchEnds(job, move.path, z, |move.path.points|) else []
  }

  /** Those of the first `n` moves of a layer, at the layer's height. */
  function MoveEnds(job: Job, plan: LayerPlan, n: nat): seq<Spot>
    requires Printable(plan.moves) && n <= |plan.moves|
  {
    if n == 0 then []
    else
      MoveEnds(job, plan, n - 1) + MoveDraws(job, plan.moves[n - 1], plan.z)
  }

  function PlanEnds(job: Job, plans: seq<LayerPlan>): seq<Spot>
    requires PlansPrintable(plans)
  {
    if plans == [] then []
    else PlanEnds(job, plans[..|plans| - 1]) + MoveEnds(job, plans[|plans| - 1], |plans[|plans| - 1].moves|)
  }

  /** All moves of a layer are at its height, as the planner makes them. */
  ghost predicate Level(plan: LayerPlan) {
    forall k | 0 <= k < |plan.moves| :: plan.moves[k].z == plan.z
  }

  lemma {:induction false} StrokesAre(job: Job, path: ExtrusionPath, at: Option<P2>, z: real, e: real, height: real, n: nat)
    requires job.Valid() && 1 <= n <= |path.points|
    ensures var drawn := Strokes(job, path, at, Some(z), e, height, n);
            Drawing(drawn) == drawn && Ends(drawn) == StretchEnds(job, path, z, n)
  {
    hide PathAmount, FanValue;
    if n > 1 {
      StrokesAre(job, path, at, z, e, height, n - 1);
      var drawn := Strokes(job, path, at, Some(z), e, height, n - 1);
      var more := Strokes(job, path, at, Some(z), e, height, n);
      if more != drawn {
        assert more[..|drawn|] == drawn;
      }
    }
  }

  /** One more step of a layer. */
  lemma StepDraws(job: Job, steps: seq<Step>, step: Step, at: Option<P2>, z: real)
    requires job.Valid() && AllPrintable(steps) && step.Printable() && HeightAfter(steps) == Some(z)
    ensures Ends(Drawing(StepMotions(job, steps, step, at)))
            == if step.Do? && step.move.Extrude? then StretchEnds(job, step.move.path, z, |step.move.path.points|) else []
  {
    hide Total, LastZ, LayerHeight, With, FanValue, FanAfter, LastPoint;
    if step.Do? && step.move.Extrude? {
      var path := step.move.path;
      var start := ToStart(job, path, LastPoint(steps), at, Some(z));
      var drawn := Strokes(job, path, GoesOnFrom(start, at), Some(z), Total(job, steps), LayerHeight(step.planZ, LastZ(steps)),
                           |path.points|);
      StrokesAre(job, path, GoesOnFrom(start, at), z, Total(job, steps), LayerHeight(step.planZ, LastZ(steps)), |path.points|);
      DrawingConcat(start, drawn);
      assert Drawing(start) == [] by {
        assert start == [] || start[..|start| - 1] == [];
      }
    } else if step.Do? {
      assert StepMotions(job, steps, step, at)[..0] == [];
    }
  }

  lemma EndsConcat(x: seq<Motion>, y: seq<Motion>)
    ensures Ends(x + y) == Ends(x) + Ends(y)
  {
  }

  /** The steps of a layer up to its `k`-th move, after those of the layers before. */
  function UpToMove(before: seq<Step>, plan: LayerPlan, k: nat): (steps: seq<Step>)
    requires k <= |plan.moves|
  {
    before + StepsOf(plan)[..k + 1]
  }

  lemma UpToMoreMoves(before: seq<Step>, plan: LayerPlan, k: nat)
    requires k <= |plan.moves|
    ensures UpToMove(before, plan, k) != []
    ensures Rest(UpToMove(before, plan, k)) == if k == 0 then before else UpToMove(before, plan, k - 1)
    ensures Last(UpToMove(before, plan, k)) == if k == 0 then Begin(plan.z) else Do(plan.z, plan.moves[k - 1], NextOf(plan.moves, k - 1))
  {
    var all := UpToMove(before, plan, k);
    if k == 0 {
      assert StepsOf(plan)[..1] == [Begin(plan.z)];
      assert Rest(all) == before;
    } else {
      assert StepsOf(plan)[..k + 1] == StepsOf(plan)[..k] + [StepsOf(plan)[k]];
      assert Rest(all) == UpToMove(before, plan, k - 1);
    }
  }

  /** The head is at the layer's height after its first moves, and has drawn their paths. */
  ghost predicate LayerSoFar(job: Job, before: seq<Step>, plan: LayerPlan, k: nat)
    requires job.Valid() && AllPrintable(before) && Printable(plan.moves) && k <= |plan.moves|
  {
    && AllPrintable(UpToMove(before, plan, k)) && HeightAfter(UpToMove(before, plan, k)) == Some(plan.z)
    && Ends(Drawing(AllMotions(job, UpToMove(before, plan, k))))
       == Ends(Drawing(AllMotions(job, before))) + MoveEnds(job, plan, k)
  }

  lemma LayerBegins(job: Job, before: seq<Step>, plan: LayerPlan)
    requires job.Valid() && AllPrintable(before) && Printable(plan.moves)
    ensures LayerSoFar(job, before, plan, 0)
  {
    var all := UpToMove(before, plan, 0);
    UpToMoreMoves(before, plan, 0);
    PrintableMore(all);
    LayerStep(job, all);
    hide UpToMove, Rest, Last, AllMotions, StepMotions, Drawing, Ends, Arrival;
    assert MoveEnds(job, plan, 0) == [];
  }

  lemma MoveGoesOn(job: Job, all: seq<Step>, z: real)
    requires job.Valid() && all != [] && AllPrintable(all) && Last(all).Do? && Last(all).move.z == z
    requires HeightAfter(Rest(all)) == Some(z)
    ensures AllPrintable(Rest(all)) && Last(all).Printable() && HeightAfter(all) == Some(z)
    ensures Ends(Drawing(AllMotions(job, all)))
            == Ends(Drawing(AllMotions(job, Rest(all)))) + MoveDraws(job, Last(all).move, z)
  {
    hide Rest, AllMotions, StepMotions, Drawing, Ends, StretchEnds, Arrival;
    LayerStep(job, all);
    StepDraws(job, Rest(all), Last(all), Arrival(AllMotions(job, Rest(all))), z);
  }

  lemma MoveEndsMore(job: Job, plan: LayerPlan, k: nat)
    requires Printable(plan.moves) && 1 <= k <= |plan.moves|
    ensures plan.moves[k - 1].Extrude? ==> plan.moves[k - 1].path.points != []
    ensures MoveEnds(job, plan, k) == MoveEnds(job, plan, k - 1) + MoveDraws(job, plan.moves[k - 1], plan.z)
  {
    hide StretchEnds;
    assert plan.moves[k - 1] in plan.moves;
  }

  lemma LayerGoesOn(job: Job, before: seq<Step>, plan: LayerPlan, k: nat)
    requires job.Valid() && AllPrintable(before) && Printable(plan.moves) && Level(plan) && 1 <= k <= |plan.moves|
    requires LayerSoFar(job, before, plan, k - 1)
    ensures LayerSoFar(job, before, plan, k)
  {
    hide UpToMove, Rest, Last, AllMotions, StepMotions, Drawing, Ends, StretchEnds, MoveEnds, MoveDraws, NextOf, HeightAfter,
      AllPrintable;
    UpToMoreMoves(before, plan, k);
    MoveEndsMore(job, plan, k);
    PrintableMore(UpToMove(before, plan, k));
    MoveGoesOn(job, UpToMove(before, plan, k), plan.z);
  }

  /** Within a layer the head stays at the layer's height, and draws one path after the other. */
  lemma {:induction false} LayerDraws(job: Job, before: seq<Step>, plan: LayerPlan, k: nat)
    requires job.Valid() && AllPrintable(before) && Printable(plan.moves) && Level(plan) && k <= |plan.moves|
    ensures LayerSoFar(job, before, plan, k)
  {
    hide LayerSoFar;
    if k == 0 {
      LayerBegins(job, before, plan);
    } else {
      LayerDraws(job, before, plan, k - 1);
      LayerGoesOn(job, before, plan, k);
    }
  }

  lemma PrintableMore(all: seq<Step>)
    requires all != [] && AllPrintable(Rest(all)) && Last(all).Printable()
    ensures AllPrintable(all)
  {
  }

  /** One step of a layer: what it draws comes after the rest, and the height is the layer's. */
  lemma LayerStep(job: Job, all: seq<Step>)
    requires job.Valid() && all != [] && AllPrintable(all)
    ensures AllPrintable(Rest(all)) && Last(all).Printable()
    ensures Ends(Drawing(AllMotions(job, all)))
            == Ends(Drawing(AllMotions(job, Rest(all))))
               + Ends(Drawing(StepMotions(job, Rest(all), Last(all), Arrival(AllMotions(job, Rest(all))))))
    ensures HeightAfter(all) == match Last(all)
                                case Begin(z) => Some(z)
                                case Do(_, Travel(_, z, _, hop), _) => if hop then Some(z) else HeightAfter(Rest(all))
                                case Do(_, Extrude(_, _), _) => HeightAfter(Rest(all))
    ensures Last(all).Begin? ==> Ends(Drawing(AllMotions(job, all))) == Ends(Drawing(AllMotions(job, Rest(all))))
  {
    MotionsMore(job, all);
    var ms := AllMotions(job, Rest(all));
    var now := StepMotions(job, Rest(all), Last(all), Arrival(ms));
    DrawingConcat(ms, now);
    EndsConcat(Drawing(ms), Drawing(now));
    if Last(all).Begin? {
      assert now == [] && ms + [] == ms;
    }
  }

  /** For every list of level layers: the extruding motions end, in order, exactly where the stretches of the printed paths
    that are not degenerate end, at their layer's height, each shifted by the offset of its path's tool. */
  lemma {:induction false} DrawnAsPlanned(job: Job, plans: seq<LayerPlan>)
    requires job.Valid() && PlansPrintable(plans) && forall i | 0 <= i < |plans| :: Level(plans[i])
    ensures AllPrintable(AllSteps(plans))
    ensures Ends(Drawing(AllMotions(job, AllSteps(plans)))) == PlanEnds(job, plans)
  {
    if plans != [] {
      var last, before := plans[|plans| - 1], AllSteps(plans[..|plans| - 1]);
      DrawnAsPlanned(job, plans[..|plans| - 1]);
      LayerDraws(job, before, last, |last.moves|);
      assert StepsOf(last)[..|last.moves| + 1] == StepsOf(last);
      assert UpToMove(before, last, |last.moves|) == AllSteps(plans);
    }
  }

  /** The same of the program's text, for planned layers. */
  lemma ProgramDrawsPaths(job: Job, plans: seq<LayerPlan>)
    requires job.Valid() && forall i | 0 <= i < |plans| :: Planned(plans[i])
    ensures PlansPrintable(plans) && AllPrintable(AllSteps(plans))
    ensures Ends(Drawing(Motions(Program(job, plans)))) == PlanEnds(job, plans)
  {
    PlannedPrintable(plans);
    forall i | 0 <= i < |plans|
      ensures Level(plans[i])
    {
      var paths, order :| PlannedFrom(plans[i], paths, order);
      MovesLevel(paths, order, plans[i].z);
    }
    DrawnAsPlanned(job, plans);
    ProgramMotions(job, plans);
  }

  lemma {:induction false} MovesLevel(paths: seq<ExtrusionPath>, order: seq<nat>, z: real)
    requires NonEmpty(paths) && Indexes(order, |paths|)
    ensures forall k | 0 <= k < |MovesOf(paths, order, z)| :: MovesOf(paths, order, z)[k].z == z
  {
    hide Apart;
    if order != [] {
      MovesLevel(paths, order[..|order| - 1], z);
    }
  }

  // ----- Where the stretches begin

  /** No two consecutive points of the path coincide. */
  ghost predicate Stretched(job: Job, path: ExtrusionPath) {
    forall k | 1 <= k < |path.points| :: job.dist(path.points[k - 1], path.points[k]) >= TOUCHING
  }

  /** The strokes run, one by one, from each point of the path to the next. */
  ghost predicate PointToPoint(job: Job, path: ExtrusionPath, drawn: seq<Motion>, n: nat)
    requires n <= |path.points|
  {
    |drawn| == n - 1 && forall k | 0 <= k < n - 1 ::
      && drawn[k].from == Some(With(job, path.tool, path.points[k])) && drawn[k].to == With(job, path.tool, path.points[k + 1])
  }

  lemma {:induction false} StrokesPointToPoint(job: Job, path: ExtrusionPath, at: Option<P2>, z: Option<real>, e: real, height: real, n: nat)
    requires job.Valid() && 1 <= n <= |path.points| && Stretched(job, path) && at == Some(With(job, path.tool, path.points[0]))
    ensures PointToPoint(job, path, Strokes(job, path, at, z, e, height, n), n)
  {
    hide PathAmount, FanValue;
    if n > 1 {
      StrokesPointToPoint(job, path, at, z, e, height, n - 1);
    }
  }

  lemma {:induction false} StrokeCount(job: Job, path: ExtrusionPath, at: Option<P2>, z: Option<real>, e: real, height: real, n: nat)
    requires job.Valid() && 1 <= n <= |path.points|
    ensures |Strokes(job, path, at, z, e, height, n)| <= n - 1
    ensures |Strokes(job, path, at, z, e, height, n)| == n - 1 ==>
              forall k | 1 <= k < n :: job.dist(path.points[k - 1], path.points[k]) >= TOUCHING
    ensures Strokes(job, path, at, z, e, height, n) != [] ==> Strokes(job, path, at, z, e, height, n)[0].from == at
  {
    hide PathAmount, FanValue, With;
    if n > 1 {
      StrokeCount(job, path, at, z, e, height, n - 1);
    }
  }

  /** A path is drawn from point to point exactly when no two consecutive points of it coincide and the head is at its start;
    a degenerate stretch is passed over and the next one begins where the last one drawn ended. */
  lemma DrawnPointToPointIff(job: Job, path: ExtrusionPath, at: Option<P2>, z: Option<real>, e: real, height: real)
    requires job.Valid() && |path.points| >= 2
    ensures PointToPoint(job, path, Strokes(job, path, at, z, e, height, |path.points|), |path.points|)
            <==> Stretched(job, path) && at == Some(With(job, path.tool, path.points[0]))
  {
    StrokeCount(job, path, at, z, e, height, |path.points|);
    if Stretched(job, path) && at == Some(With(job, path.tool, path.points[0])) {
      StrokesPointToPoint(job, path, at, z, e, height, |path.points|);
    }
  }

  /** The head is at a path's start when the plans are not there yet, or when the step before travels to it. */
  lemma BeginsAtStart(job: Job, steps: seq<Step>, step: Step)
    requires job.Valid() && AllPrintable(steps) && step.Printable() && step.Do? && step.move.Extrude?
    requires var path := step.move.path;
             || LastPoint(steps).None? || Apart(LastPoint(steps).value, path.points[0])
             || (steps != [] && var last := steps[|steps| - 1];
                 last.Do? && last.move.Travel? && last.move.to == path.points[0] && last.next == Some(step.move))
    ensures var path, at := step.move.path, Arrival(AllMotions(job, steps));
            GoesOnFrom(ToStart(job, path, LastPoint(steps), at, HeightAfter(steps)), at)
            == Some(With(job, path.tool, path.points[0]))
  {
    var path := step.move.path;
    if LastPoint(steps).Some? && !Apart(LastPoint(steps).value, path.points[0]) {
      MotionsMore(job, steps);
      hide Apart, With, FanValue;
      var last := steps[|steps| - 1];
      assert StepMotions(job, Rest(steps), last, Arrival(AllMotions(job, Rest(steps))))[0].to == With(job, path.tool, last.move.to);
    }
  }

  /** In a planned layer every travel is made with the tool of the path it leads to, so that the path begins at its start
    with that tool's offset. */
  lemma TravelLeadsToStart(job: Job, before: seq<Step>, plan: LayerPlan, k: nat)
    requires job.Valid() && AllPrintable(before) && Planned(plan) && k + 1 < |plan.moves| && plan.moves[k].Travel?
    ensures var steps := UpToMove(before, plan, k + 1);
            && plan.moves[k + 1].Extrude? && plan.moves[k + 1].path.points != [] && AllPrintable(steps)
            && var path, at := plan.moves[k + 1].path, Arrival(AllMotions(job, steps));
               GoesOnFrom(ToStart(job, path, LastPoint(steps), at, HeightAfter(steps)), at)
               == Some(With(job, path.tool, path.points[0]))
  {
    var paths, order :| PlannedFrom(plan, paths, order);
    PlannedTravelsLead(paths, order, plan.z);
    PlanIsContinuous(paths, order, plan.z);
    var steps, path := UpToMove(before, plan, k + 1), plan.moves[k + 1].path;
    MovesPrintable(before, plan, k + 1);
    UpToMoreMoves(before, plan, k + 1);
    hide UpToMove, AllMotions, With, HeightAfter, FanAfter, TravelsLead, Continuous, MovesOf, Greedy, Apart, GoesOnFrom, ToStart,
      AllPrintable, Printable;
    BeginsAtStart(job, steps, Do(plan.z, plan.moves[k + 1], NextOf(plan.moves, k + 1)));
  }

  lemma {:induction false} MovesPrintable(before: seq<Step>, plan: LayerPlan, k: nat)
    requires AllPrintable(before) && Printable(plan.moves) && k <= |plan.moves|
    ensures AllPrintable(UpToMove(before, plan, k))
  {
    if k > 0 {
      MovesPrintable(before, plan, k - 1);
      assert plan.moves[k - 1] in plan.moves;
    }
    UpToMoreMoves(before, plan, k);
    PrintableMore(UpToMove(before, plan, k));
  }

  // ----- A change of tool without a travel

  function Stretch(tool: nat, from: P2, to: P2): ExtrusionPath {
    ExtrusionPath([from, to], false, None, false, tool)
  }

  /** Two paths that meet in a point, the second one with another tool. */
  function Handover(p: P2, q: P2, r: P2): seq<Step> {
    var second := Extrude(Stretch(1, q, r), 0.0);
    [Do(0.0, Extrude(Stretch(0, p, q), 0.0), Some(second)), Do(0.0, second, None)]
  }

  /** The failing case: printing goes straight on with another tool, so the head is not moved over by the difference of the
    offsets, and the second path begins where the first tool was. */
  lemma SecondToolStartsOff(job: Job, p: P2, q: P2, r: P2)
    requires job.Valid() && job.dist(p, q) >= TOUCHING && job.dist(q, r) >= TOUCHING
    requires job.printer.offset(0) == P2(0.0, 0.0) && job.printer.offset(1) == P2(5.0, 0.0)
    ensures AllPrintable(Handover(p, q, r))
    ensures var ms := AllMotions(job, Handover(p, q, r));
            && |ms| == 3 && ms[1].to == q
            && ms[2].from == Some(q) && ms[2].to == P2(r.x + 5.0, r.y) && With(job, 1, q) == P2(q.x + 5.0, q.y)
  {
    var steps := Handover(p, q, r);
    FirstIsNearest(q, q);
    MotionsMore(job, steps);
    MotionsMore(job, steps[..1]);
    assert steps[..1][..0] == [] && Rest(steps) == steps[..1] && Rest(steps[..1]) == [];
    hide PathAmount, FanValue, Total, LastZ, LayerHeight;
    StraightStretch(job, Stretch(0, p, q), Some(With(job, 0, p)), HeightAfter([]), Total(job, []), LayerHeight(0.0, LastZ([])));
    assert |AllMotions(job, steps[..1])| == 2 && Arrival(AllMotions(job, steps[..1])) == Some(q);
    StraightStretch(job, Stretch(1, q, r), Some(q), HeightAfter(steps[..1]), Total(job, steps[..1]), LayerHeight(0.0, LastZ(steps[..1])));
  }

  lemma StraightStretch(job: Job, path: ExtrusionPath, at: Option<P2>, z: Option<real>, e: real, height: real)
    requires job.Valid() && |path.points| == 2 && job.dist(path.points[0], path.points[1]) >= TOUCHING
    ensures var drawn := Strokes(job, path, at, z, e, height, 2);
            |drawn| == 1 && drawn[0].from == at && drawn[0].to == With(job, path.tool, path.points[1])
  {
    assert Strokes(job, path, at, z, e, height, 1) == [];
  }
}
