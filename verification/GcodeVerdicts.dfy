/** What the emitted program amounts to: the extrusion balance, and when the static
  validator accepts it (tpt-vertex-slicer/src/gcode.rs against gcode_validate.rs). */
module GcodeVerdicts {
  import opened Options
  import opened Planar
  import opened Toolpaths
  import opened GcodeChecks
  import opened GcodeEmission

  // ----- The extrusion balance

  /** Filament of the first `n` points of a path: the sum over its stretches that are not degenerate. */
  function PathAmount(job: Job, path: ExtrusionPath, layerHeight: real, n: nat): real
    requires job.Valid() && 1 <= n <= |path.points|
  {
    if n == 1 then 0.0
    else
      var d := job.dist(path.points[n - 2], path.points[n - 1]);
      PathAmount(job, path, layerHeight, n - 1) + if d < TOUCHING then 0.0 else Amount(job, path, layerHeight, d)
  }

  /** The Z of the last move. */
  function LastZ(steps: seq<Step>): real {
    if steps == [] then 0.0
    else
      var step := steps[|steps| - 1];
      if step.Begin? then LastZ(steps[..|steps| - 1]) else step.move.z
  }

  /** Filament of one step, given the Z before it. Travels take none. */
  function StepAmount(job: Job, step: Step, lastZ: real): real
    requires job.Valid() && step.Printable()
  {
    if step.Do? && step.move.Extrude? then
      PathAmount(job, step.move.path, LayerHeight(step.planZ, lastZ), |step.move.path.points|)
    else 0.0
  }

  function Total(job: Job, steps: seq<Step>): real
    requires job.Valid() && AllPrintable(steps)
  {
    if steps == [] then 0.0
    else
      var rest := steps[..|steps| - 1];
      Total(job, rest) + StepAmount(job, steps[|steps| - 1], LastZ(rest))
  }

  lemma {:induction false} PointsBalance(job: Job, st: Emitter, path: ExtrusionPath, layerHeight: real, n: nat)
    requires job.Valid() && 1 <= n <= |path.points|
    ensures var st' := PointsPrinted(job, st, path, layerHeight, n);
            st'.e == st.e + PathAmount(job, path, layerHeight, n) && st'.lastZ == st.lastZ && st'.last == st.last
  {
    hide Amount;
    if n > 1 {
      PointsBalance(job, st, path, layerHeight, n - 1);
    }
  }

  lemma BeginningIsFree(job: Job, st: Emitter, path: ExtrusionPath)
    requires path.points != []
    ensures PathBegun(job, st, path).e == st.e && PathBegun(job, st, path).lastZ == st.lastZ
  {
  }

  /** Retracting and unretracting cancel, so a travel leaves the extruder where it was. */
  lemma TravelIsFree(job: Job, st: Emitter, to: P2, z: real, retract: bool, hop: bool, next: Option<Move>)
    ensures Travelled(job, st, to, z, retract, hop, next).e == st.e
    ensures Travelled(job, st, to, z, retract, hop, next).lastZ == z
  {
  }

  lemma StepBalance(job: Job, st: Emitter, step: Step)
    requires job.Valid() && step.Printable()
    ensures var st' := StepPrinted(job, st, step);
            && st'.e == st.e + StepAmount(job, step, st.lastZ) && st'.lastZ == if step.Begin? then st.lastZ else step.move.z
  {
    hide PathBegun, PointsPrinted, Travelled, PathAmount, LayerHeight;
    if step.Do? {
      match step.move {
        case Travel(to, z, retract, hop) => TravelIsFree(job, st, to, z, retract, hop, step.next);
        case Extrude(path, z) =>
          BeginningIsFree(job, st, path);
          PointsBalance(job, PathBegun(job, st, path), path, LayerHeight(step.planZ, st.lastZ), |path.points|);
      }
    }
  }

  /** After any steps the extruder stands at the sum of the stretches printed. */
  lemma {:induction false} RunBalance(job: Job, st: Emitter, steps: seq<Step>)
    requires job.Valid() && AllPrintable(steps) && st.lastZ == 0.0
    ensures var st' := Ran(job, st, steps); st'.e == st.e + Total(job, steps) && st'.lastZ == LastZ(steps)
  {
    hide StepPrinted, StepAmount;
    if steps != [] {
      var rest := steps[..|steps| - 1];
      RunBalance(job, st, rest);
      StepBalance(job, Ran(job, st, rest), steps[|steps| - 1]);
    }
  }

  /** Final E is the sum of the segment extrusions: every retraction has been undone. */
  lemma FinalExtrusion(job: Job, plans: seq<LayerPlan>)
    requires job.Valid() && AllPrintable(AllSteps(plans))
    ensures Ran(job, Started(job), AllSteps(plans)).e == Total(job, AllSteps(plans))
  {
    hide Ran;
    RunBalance(job, Started(job), AllSteps(plans));
  }

  // ----- The extrusion values written

  ghost predicate PathSane(job: Job, path: ExtrusionPath)
    requires job.Valid()
  {
    forall h, d | h >= 0.01 && d >= TOUCHING :: Amount(job, path, h, d) >= 0.0
  }

  /** Extrusion amounts are not negative (as with nonnegative widths, flow ratio and filament area), and printing an E
    value keeps order and zero. */
  ghost predicate Sane(job: Job, steps: seq<Step>)
    requires job.Valid()
  {
    && (forall i | 0 <= i < |steps| && steps[i].Do? && steps[i].move.Extrude? :: PathSane(job, steps[i].move.path))
    && (forall x, y | x <= y :: job.digits(x) <= job.digits(y)) && job.digits(0.0) == 0.0
  }

  lemma NonnegativeAmount(job: Job, path: ExtrusionPath)
    requires job.Valid() && job.printer.filamentArea > 0.0 && job.material.flowRatio >= 0.0
    requires (if path.width.Some? then path.width.value else job.printer.width) >= 0.0
    ensures PathSane(job, path)
  {
    var width := if path.width.Some? then path.width.value else job.printer.width;
    forall h, d | h >= 0.01 && d >= TOUCHING
      ensures Amount(job, path, h, d) >= 0.0
    {
      ProductNonnegative(width, h);
      ProductNonnegative(width * h, d);
      QuotientNonnegative(width * h * d, job.printer.filamentArea);
      ProductNonnegative(width * h * d / job.printer.filamentArea, job.material.flowRatio);
    }
  }

  lemma ProductNonnegative(x: real, y: real)
    requires x >= 0.0 && y >= 0.0
    ensures x * y >= 0.0
  {
  }

  lemma QuotientNonnegative(x: real, y: real)
    requires x >= 0.0 && y > 0.0
    ensures x / y >= 0.0
  {
  }

  /** The second state has written more body lines, with these E values. */
  ghost predicate Adds(st: Emitter, st': Emitter, es: seq<real>) {
    && st.lines <= st'.lines && Body(st'.lines[|st.lines|..])
    && EsOf(st'.lines) == EsOf(st.lines) + es
  }

  lemma AddsNothing(st: Emitter)
    ensures Adds(st, st, [])
  {
  }

  lemma AddsThen(st: Emitter, st1: Emitter, st2: Emitter, es: seq<real>, fs: seq<real>)
    requires Adds(st, st1, es) && Adds(st1, st2, fs)
    ensures Adds(st, st2, es + fs)
  {
    hide EsOf, BodyLine;
    var more, first, second := st2.lines[|st.lines|..], st1.lines[|st.lines|..], st2.lines[|st1.lines|..];
    assert more == first + second;
    forall i | 0 <= i < |more|
      ensures BodyLine(more[i])
    {
      assert i >= |first| ==> more[i] == second[i - |first|];
    }
  }

  /** Two silent stretches in a row are silent. */
  lemma AddsQuietly(st: Emitter, st1: Emitter, st2: Emitter)
    requires Adds(st, st1, []) && Adds(st1, st2, [])
    ensures Adds(st, st2, [])
  {
    AddsThen(st, st1, st2, [], []);
  }

  lemma PutAdds(st: Emitter, line: Line)
    requires BodyLine(line)
    ensures Adds(st, st.Put(line), Es(line))
  {
    assert (st.lines + [line])[..|st.lines|] == st.lines;
    assert (st.lines + [line])[|st.lines|..] == [line];
  }

  ghost predicate Quiet(line: Line) {
    forall k | 0 <= k < |line| :: Supported(line[k]) && line[k] != M(83) && !line[k].E?
  }

  lemma EsWithout(line: Line)
    requires forall k | 0 <= k < |line| :: !line[k].E?
    ensures Es(line) == []
  {
    EsIffHasE(line);
  }

  lemma {:induction false} EsAt(line: Line, k: nat)
    requires k < |line| && line[k].E? && forall j | 0 <= j < |line| && j != k :: !line[j].E?
    ensures Es(line) == [line[k].value]
  {
    var rest := line[..|line| - 1];
    if k == |line| - 1 {
      EsWithout(rest);
    } else {
      EsAt(rest, k);
    }
  }

  lemma QuietPut(st: Emitter, line: Line)
    requires Quiet(line)
    ensures Adds(st, st.Put(line), [])
  {
    PutAdds(st, line);
    EsWithout(line);
  }

  lemma FedAdds(job: Job, st: Emitter, amount: real)
    ensures Adds(st, Fed(job, st, amount), [job.digits(st.e + amount)])
  {
    var line := [G(1), E(job.digits(st.e + amount)), F(job.printer.retractionSpeed)];
    PutAdds(st, line);
    EsAt(line, 1);
  }

  lemma ToolAdds(job: Job, st: Emitter, tool: nat)
    ensures Adds(st, ToolChanged(job, st, tool), []) && ToolChanged(job, st, tool).e == st.e
  {
    if st.tool != tool {
      var line1 := [Word('T', tool as real)];
      var line2 := [M(104), Word('S', job.printer.toolTemperature(tool) + job.material.temperatureOffset)];
      QuietPut(st, line1);
      QuietPut(st.Put(line1), line2);
    }
  }

  lemma LiftAdds(job: Job, st: Emitter, z: real)
    ensures Adds(st, Lifted(job, st, z), []) && Lifted(job, st, z).e == st.e
  {
    QuietPut(st, [G(1), Z(z), F(job.printer.travelSpeed)]);
  }

  /** A travel writes the retracted and the restored value, or nothing. */
  lemma TravelAdds(job: Job, st: Emitter, to: P2, z: real, retract: bool, hop: bool, next: Option<Move>)
    ensures Adds(st, Travelled(job, st, to, z, retract, hop, next),
                 if retract then [job.digits(st.e - job.printer.retraction), job.digits(st.e)] else [])
  {
    hide Adds, ToolChanged, Fed, Lifted;
    var r := job.printer.retraction;
    var st0 := if next.Some? && next.value.Extrude? then ToolChanged(job, st, next.value.path.tool) else st;
    AddsNothing(st);
    if next.Some? && next.value.Extrude? {
      ToolAdds(job, st, next.value.path.tool);
    }
    var off := job.printer.offset(st0.tool);
    var st1 := if retract then Fed(job, st0, -r) else st0;
    FedState(job, st0, -r);
    FedAdds(job, st0, -r);
    var es1 := if retract then [job.digits(st0.e + -r)] else [];
    assert Adds(st, st1, es1) by {
      if retract { AddsThen(st, st0, st1, [], es1); }
      assert [] + es1 == es1;
    }
    var st2 := if hop then Lifted(job, st1, z + job.printer.zHop) else st1;
    LiftAdds(job, st1, z + job.printer.zHop);
    assert Adds(st, st2, es1) by {
      if hop { AddsThen(st, st1, st2, es1, []); }
      assert es1 + [] == es1;
    }
    var line := [G(0), X(to.x + off.x), Y(to.y + off.y), F(job.printer.travelSpeed)];
    var st3 := st2.Put(line);
    QuietPut(st2, line);
    AddsThen(st, st2, st3, es1, []);
    assert es1 + [] == es1;
    var st4 := if hop then Lifted(job, st3, z) else st3;
    LiftAdds(job, st3, z);
    assert Adds(st, st4, es1) by {
      if hop { AddsThen(st, st3, st4, es1, []); }
    }
    var st5 := if retract then Fed(job, st4, r) else st4;
    FedAdds(job, st4, r);
    if retract {
      AddsThen(st, st4, st5, es1, [job.digits(st4.e + r)]);
      assert es1 + [job.digits(st4.e + r)] == [job.digits(st.e - r), job.digits(st.e)];
    }
    SameLines(st, st5, st5.(last := Some(to), lastZ := z), if retract then [job.digits(st.e - r), job.digits(st.e)] else []);
  }

  lemma FedState(job: Job, st: Emitter, amount: real)
    ensures Fed(job, st, amount).e == st.e + amount && Fed(job, st, amount).tool == st.tool
  {
  }

  lemma SameLines(st: Emitter, st1: Emitter, st2: Emitter, es: seq<real>)
    requires Adds(st, st1, es) && st2.lines == st1.lines
    ensures Adds(st, st2, es)
  {
  }

  lemma FanAdds(st: Emitter, pct: nat)
    ensures Adds(st, FanSet(st, pct), []) && FanSet(st, pct).e == st.e
  {
    if st.fan != Some(pct) {
      QuietPut(st, if pct == 0 then [M(107)] else [M(106), Word('S', (pct * 255 / 100) as real)]);
    }
  }

  lemma BeginAdds(job: Job, st: Emitter, path: ExtrusionPath)
    requires path.points != []
    ensures Adds(st, PathBegun(job, st, path), []) && PathBegun(job, st, path).e == st.e
  {
    hide Adds, FanSet, ToolChanged, Apart;
    var st0 := ToolChanged(job, st, path.tool);
    var pct := if path.bridge then 100 else job.material.fan;
    var st1 := FanSet(st0, pct);
    ToolAdds(job, st, path.tool);
    FanAdds(st0, pct);
    var off, first := job.printer.offset(st1.tool), Start(path);
    QuietPut(st1, [G(1), X(first.x + off.x), Y(first.y + off.y), F(job.printer.travelSpeed)]);
    AddsQuietly(st, st0, st1);
    AddsQuietly(st, st1, st1.Put([G(1), X(first.x + off.x), Y(first.y + off.y), F(job.printer.travelSpeed)]));
  }

  /** Two consecutive points among the first `n` are apart, so something is extruded between them. */
  ghost predicate StretchBefore(job: Job, path: ExtrusionPath, n: nat)
    requires n <= |path.points|
  {
    exists k :: 1 <= k < n && job.dist(path.points[k - 1], path.points[k]) >= TOUCHING
  }

  lemma StretchAt(job: Job, path: ExtrusionPath, n: nat)
    requires 1 <= n < |path.points|
    ensures StretchBefore(job, path, n + 1)
            <==> StretchBefore(job, path, n) || job.dist(path.points[n - 1], path.points[n]) >= TOUCHING
  {
    if StretchBefore(job, path, n) {
      var k :| 1 <= k < n && job.dist(path.points[k - 1], path.points[k]) >= TOUCHING;
      assert 1 <= k < n + 1;
    }
  }

  /** Values that are not negative. */
  ghost predicate Nonnegative(es: seq<real>) {
    forall i | 0 <= i < |es| :: es[i] >= 0.0
  }

  lemma PointAdds(job: Job, st: Emitter, path: ExtrusionPath, layerHeight: real, prev: P2, p: P2) returns (es: seq<real>)
    requires job.Valid() && PathSane(job, path) && layerHeight >= 0.01 && st.e >= 0.0
    requires (forall x, y | x <= y :: job.digits(x) <= job.digits(y)) && job.digits(0.0) == 0.0
    ensures var st' := PointPrinted(job, st, path, layerHeight, prev, p);
            Adds(st, st', es) && Nonnegative(es) && st'.e >= st.e && (es == [] <==> job.dist(prev, p) < TOUCHING)
  {
    hide Adds, Amount, Speed;
    var d := job.dist(prev, p);
    if d < TOUCHING {
      es := [];
      AddsNothing(st);
    } else {
      var e, off := st.e + Amount(job, path, layerHeight, d), job.printer.offset(st.tool);
      StrokeAdds(st, e, p.x + off.x, p.y + off.y, job.digits(e), F(Speed(job, path)));
      es := [job.digits(e)];
    }
  }

  lemma StrokeAdds(st: Emitter, e: real, x: real, y: real, v: real, f: Token)
    requires f.Word?
    ensures Adds(st, st.(e := e).Put([G(1), X(x), Y(y), E(v), f]), [v])
  {
    var line := [G(1), X(x), Y(y), E(v), f];
    PutAdds(st.(e := e), line);
    EsAt(line, 3);
    hide Es, EsOf, Body;
  }

  lemma {:induction false} PointsAdd(job: Job, st: Emitter, path: ExtrusionPath, layerHeight: real, n: nat) returns (es: seq<real>)
    requires job.Valid() && PathSane(job, path) && layerHeight >= 0.01 && st.e >= 0.0 && 1 <= n <= |path.points|
    requires (forall x, y | x <= y :: job.digits(x) <= job.digits(y)) && job.digits(0.0) == 0.0
    ensures var st' := PointsPrinted(job, st, path, layerHeight, n);
            Adds(st, st', es) && Nonnegative(es) && st'.e >= st.e && (es == [] <==> !StretchBefore(job, path, n))
  {
    if n == 1 {
      es := [];
      AddsNothing(st);
    } else {
      hide PointPrinted, PathSane, Adds;
      StretchAt(job, path, n - 1);
      hide StretchBefore;
      var st1 := PointsPrinted(job, st, path, layerHeight, n - 1);
      var es1 := PointsAdd(job, st, path, layerHeight, n - 1);
      var es2 := PointAdds(job, st1, path, layerHeight, path.points[n - 2], path.points[n - 1]);
      AddsThen(st, st1, PointsPrinted(job, st, path, layerHeight, n), es1, es2);
      es := es1 + es2;
    }
  }

  /** The step is a travel with retraction. */
  predicate Retracts(step: Step) {
    step.Do? && step.move.Travel? && step.move.retract
  }

  /** The move writes an E value. */
  ghost predicate MoveWrites(job: Job, move: Move) {
    match move
    case Travel(_, _, retract, _) => retract
    case Extrude(path, _) => StretchBefore(job, path, |path.points|)
  }

  ghost predicate StepWrites(job: Job, step: Step) {
    step.Do? && MoveWrites(job, step.move)
  }

  ghost predicate StepsWrite(job: Job, steps: seq<Step>) {
    exists i :: 0 <= i < |steps| && StepWrites(job, steps[i])
  }

  lemma OneMoreWrites(job: Job, steps: seq<Step>)
    requires steps != []
    ensures StepsWrite(job, steps) <==> StepsWrite(job, steps[..|steps| - 1]) || StepWrites(job, steps[|steps| - 1])
  {
    var rest := steps[..|steps| - 1];
    if StepsWrite(job, rest) {
      var i :| 0 <= i < |rest| && StepWrites(job, rest[i]);
      assert StepWrites(job, steps[i]);
    }
    if StepsWrite(job, steps) && !StepWrites(job, steps[|steps| - 1]) {
      var i :| 0 <= i < |steps| && StepWrites(job, steps[i]);
      assert StepWrites(job, rest[i]);
    }
  }

  /** Retracting from `e` is not reported. */
  predicate SafeAt(job: Job, e: real) {
    job.digits(e - job.printer.retraction) >= -SLACK
  }

  lemma StepAdds(job: Job, st: Emitter, step: Step) returns (es: seq<real>)
    requires job.Valid() && step.Printable() && st.e >= 0.0
    requires (forall x, y | x <= y :: job.digits(x) <= job.digits(y)) && job.digits(0.0) == 0.0
    requires step.Do? && step.move.Extrude? ==> PathSane(job, step.move.path)
    ensures var st' := StepPrinted(job, st, step);
            && Adds(st, st', es) && st'.e >= st.e && (Fine(es) <==> (Retracts(step) ==> SafeAt(job, st.e)))
            && (es == [] <==> !StepWrites(job, step))
  {
    hide PathBegun, PointsPrinted, Travelled, Lifted, PathSane, StretchBefore;
    match step {
      case Begin(z) =>
        QuietPut(st, []);
        LiftAdds(job, st.Put([]), z);
        AddsQuietly(st, st.Put([]), Lifted(job, st.Put([]), z));
        es := [];
      case Do(planZ, move, next) =>
        match move {
          case Travel(to, z, retract, hop) =>
            TravelAdds(job, st, to, z, retract, hop, next);
            TravelIsFree(job, st, to, z, retract, hop, next);
            es := if retract then [job.digits(st.e - job.printer.retraction), job.digits(st.e)] else [];
            assert retract ==> es[0] == job.digits(st.e - job.printer.retraction) && es[1] == job.digits(st.e);
          case Extrude(path, z) =>
            var st1 := PathBegun(job, st, path);
            var h := LayerHeight(planZ, st1.lastZ);
            BeginAdds(job, st, path);
            es := PointsAdd(job, st1, path, h, |path.points|);
            var st2 := PointsPrinted(job, st1, path, h, |path.points|);
            AddsThen(st, st1, st2, [], es);
            assert [] + es == es;
            SameLines(st, st2, StepPrinted(job, st, step), es);
        }
    }
  }

  /** The extruder's position before each retraction. */
  function Retractions(job: Job, steps: seq<Step>): seq<real>
    requires job.Valid() && AllPrintable(steps)
  {
    if steps == [] then []
    else
      var rest := steps[..|steps| - 1];
      Retractions(job, rest) + if Retracts(steps[|steps| - 1]) then [Total(job, rest)] else []
  }

  ghost predicate AllSafe(job: Job, es: seq<real>) {
    forall i | 0 <= i < |es| :: SafeAt(job, es[i])
  }

  lemma AllSafeMore(job: Job, xs: seq<real>, ys: seq<real>)
    ensures AllSafe(job, xs + ys) <==> AllSafe(job, xs) && AllSafe(job, ys)
  {
    if AllSafe(job, xs + ys) {
      assert forall i | 0 <= i < |xs| :: (xs + ys)[i] == xs[i];
      assert forall i | 0 <= i < |ys| :: (xs + ys)[|xs| + i] == ys[i];
    }
  }

  /** The E values written along a run are fine exactly when every retraction is safe. */
  lemma {:induction false} RunAdds(job: Job, steps: seq<Step>) returns (es: seq<real>)
    requires job.Valid() && AllPrintable(steps) && Sane(job, steps)
    ensures var st := Ran(job, Started(job), steps);
            && Adds(Started(job), st, es) && st.e == Total(job, steps) >= 0.0
            && (Fine(es) <==> AllSafe(job, Retractions(job, steps)))
            && (es == [] <==> !StepsWrite(job, steps))
  {
    hide StepPrinted, PathSane, Adds, SafeAt, Fine, AllSafe, Started, Total, StepsWrite, StepWrites;
    if steps == [] {
      NothingRun(job);
      es := [];
      NothingWrites(job);
    } else {
      var rest, last := steps[..|steps| - 1], steps[|steps| - 1];
      var es1 := RunAdds(job, rest);
      var st := Ran(job, Started(job), rest);
      var es2 := StepAdds(job, st, last);
      AddsThen(Started(job), st, Ran(job, Started(job), steps), es1, es2);
      es := es1 + es2;
      FineMore(es1, es2);
      OneMoreWrites(job, steps);
      AllSafeMore(job, Retractions(job, rest), if Retracts(last) then [Total(job, rest)] else []);
      OneSafe(job, Total(job, rest));
      StartedState(job);
      RunBalance(job, Started(job), steps);
    }
  }

  lemma NothingRun(job: Job)
    requires job.Valid()
    ensures Adds(Started(job), Started(job), []) && Started(job).e == 0.0 == Total(job, []) && Fine([]) && AllSafe(job, [])
  {
    AddsNothing(Started(job));
  }

  lemma NothingWrites(job: Job)
    ensures !StepsWrite(job, [])
  {
  }

  lemma StartedState(job: Job)
    ensures Started(job).e == 0.0 && Started(job).lastZ == 0.0
  {
  }

  lemma OneSafe(job: Job, e: real)
    ensures AllSafe(job, [e]) <==> SafeAt(job, e)
    ensures AllSafe(job, [])
  {
    assert [e][0] == e;
  }

  // ----- The verdict

  /** Before any extrusion, quiet lines are never reported on; only homing is noted. */
  lemma {:induction false} QuietTokens(c: Check, n: nat, line: Line)
    requires Quiet(line) && c.absolute
    ensures TokensChecked(c, n, line, None) == c.(homed := c.homed || G(28) in line)
  {
    if line != [] {
      QuietTokens(c, n, line[..|line| - 1]);
      assert line == line[..|line| - 1] + [line[|line| - 1]];
    }
  }

  lemma {:induction false} QuietLines(lines: seq<Line>)
    requires forall i | 0 <= i < |lines| :: Quiet(lines[i])
    ensures LinesChecked(lines, None) == FRESH.(homed := Homes(lines))
  {
    if lines != [] {
      var line := lines[|lines| - 1];
      QuietLines(lines[..|lines| - 1]);
      EsIffHasE(line);
      EsWithout(line);
      if line != [] {
        QuietTokens(LinesChecked(lines[..|lines| - 1], None), |lines|, line);
      }
    }
  }

  /** Some line homes. */
  function Homes(lines: seq<Line>): bool {
    if lines == [] then false else Homes(lines[..|lines| - 1]) || G(28) in lines[|lines| - 1]
  }

  lemma {:induction false} HomesAt(lines: seq<Line>, i: nat)
    requires i < |lines| && G(28) in lines[i]
    ensures Homes(lines)
    decreases |lines|
  {
    if i < |lines| - 1 {
      HomesAt(lines[..|lines| - 1], i);
    }
  }

  lemma {:induction false} QuietHasNoEs(lines: seq<Line>)
    requires forall i | 0 <= i < |lines| :: Quiet(lines[i])
    ensures EsOf(lines) == [] && Body(lines)
  {
    if lines != [] {
      QuietHasNoEs(lines[..|lines| - 1]);
      EsWithout(lines[|lines| - 1]);
      forall i | 0 <= i < |lines|
        ensures BodyLine(lines[i])
      {
        EsWithout(lines[i]);
      }
    }
  }

  lemma HeaderQuiet(job: Job)
    ensures forall i | 0 <= i < |Header(job)| :: Quiet(Header(job)[i])
    ensures |Header(job)| == 12 && G(28) in Header(job)[8]
  {
  }

  lemma FooterQuiet()
    ensures forall i | 0 <= i < |Footer()| :: Quiet(Footer()[i])
  {
  }

  /** The header homes and sets absolute extrusion, and nothing in it is reported. */
  lemma HeaderClean(job: Job)
    ensures Clean(LinesChecked(Header(job), None)) && !LinesChecked(Header(job), None).sawExtrusion
  {
    HeaderQuiet(job);
    hide Header;
    QuietLines(Header(job));
    HomesAt(Header(job), 8);
  }

  /** Every path has a point, which the emitter takes for granted. */
  ghost predicate PlansPrintable(plans: seq<LayerPlan>) {
    forall i | 0 <= i < |plans| :: Printable(plans[i].moves)
  }

  lemma {:induction false} PrintableSteps(plans: seq<LayerPlan>)
    requires PlansPrintable(plans)
    ensures AllPrintable(AllSteps(plans))
  {
    if plans != [] {
      var last := plans[|plans| - 1];
      PrintableSteps(plans[..|plans| - 1]);
      forall k | 0 <= k < |StepsOf(last)|
        ensures StepsOf(last)[k].Printable()
      {
        if k > 0 {
          assert last.moves[k - 1] in last.moves;
        }
      }
    }
  }

  /** Some move is a retracting travel, or prints a path with two consecutive points apart. */
  ghost predicate Extrudes(job: Job, plans: seq<LayerPlan>) {
    exists i :: 0 <= i < |plans| && PlanWrites(job, plans[i])
  }

  ghost predicate PlanWrites(job: Job, plan: LayerPlan) {
    exists k :: 0 <= k < |plan.moves| && MoveWrites(job, plan.moves[k])
  }

  lemma StepsOfWrite(job: Job, plan: LayerPlan)
    ensures StepsWrite(job, StepsOf(plan)) <==> PlanWrites(job, plan)
  {
    var steps := StepsOf(plan);
    if PlanWrites(job, plan) {
      var k :| 0 <= k < |plan.moves| && MoveWrites(job, plan.moves[k]);
      assert StepWrites(job, steps[k + 1]);
    }
    if StepsWrite(job, steps) {
      var i :| 0 <= i < |steps| && StepWrites(job, steps[i]);
      assert MoveWrites(job, plan.moves[i - 1]);
    }
  }

  lemma StepsWriteConcat(job: Job, x: seq<Step>, y: seq<Step>)
    ensures StepsWrite(job, x + y) <==> StepsWrite(job, x) || StepsWrite(job, y)
  {
    if StepsWrite(job, x) {
      var i :| 0 <= i < |x| && StepWrites(job, x[i]);
      assert StepWrites(job, (x + y)[i]);
    }
    if StepsWrite(job, y) {
      var i :| 0 <= i < |y| && StepWrites(job, y[i]);
      assert StepWrites(job, (x + y)[|x| + i]);
    }
    if StepsWrite(job, x + y) {
      var i :| 0 <= i < |x + y| && StepWrites(job, (x + y)[i]);
      assert if i < |x| then StepWrites(job, x[i]) else StepWrites(job, y[i - |x|]);
    }
  }

  lemma {:induction false} PlansWrite(job: Job, plans: seq<LayerPlan>)
    ensures StepsWrite(job, AllSteps(plans)) <==> Extrudes(job, plans)
  {
    if plans != [] {
      var rest, last := plans[..|plans| - 1], plans[|plans| - 1];
      PlansWrite(job, rest);
      StepsOfWrite(job, last);
      StepsWriteConcat(job, AllSteps(rest), StepsOf(last));
      assert Extrudes(job, plans) <==> Extrudes(job, rest) || PlanWrites(job, last) by {
        if Extrudes(job, rest) {
          var i :| 0 <= i < |rest| && PlanWrites(job, rest[i]);
          assert PlanWrites(job, plans[i]);
        }
        if Extrudes(job, plans) && !PlanWrites(job, last) {
          var i :| 0 <= i < |plans| && PlanWrites(job, plans[i]);
          assert PlanWrites(job, rest[i]);
        }
      }
    }
  }

  /** The validator, without a build volume, accepts the program exactly when something is extruded and no retraction goes
    below zero. */
  lemma AcceptedIff(job: Job, plans: seq<LayerPlan>)
    requires job.Valid() && PlansPrintable(plans) && Sane(job, AllSteps(plans))
    ensures AllPrintable(AllSteps(plans))
    ensures Verdict(LinesChecked(Program(job, plans), None)) == []
            <==> Extrudes(job, plans) && AllSafe(job, Retractions(job, AllSteps(plans)))
  {
    PrintableSteps(plans);
    hide Sane, Adds, Fine, AllSafe, Verdict, LinesChecked, AllSteps, Extrudes, StepsWrite, Ran, Retractions, Total, AllPrintable;
    var es := RunAdds(job, AllSteps(plans));
    PlansWrite(job, plans);
    ValuesDecide(job, Ran(job, Started(job), AllSteps(plans)), es);
  }

  /** The verdict on header, body and footer depends on the E values only. */
  lemma ValuesDecide(job: Job, st: Emitter, es: seq<real>)
    requires Adds(Started(job), st, es)
    ensures Verdict(LinesChecked(st.lines + Footer(), None)) == [] <==> es != [] && Fine(es)
  {
    BodyOfProgram(job, st, es);
    HeaderClean(job);
    hide Header, Footer, EsOf, Fine, Verdict, LinesChecked, Body, Clean;
    var body := st.lines[|Header(job)|..] + Footer();
    assert st.lines + Footer() == Header(job) + body;
    PassesIff(Header(job), body);
  }

  lemma BodyOfProgram(job: Job, st: Emitter, es: seq<real>)
    requires Adds(Started(job), st, es)
    ensures Header(job) <= st.lines
    ensures var body := st.lines[|Header(job)|..] + Footer(); Body(body) && EsOf(body) == es
  {
    hide Header, Footer, BodyLine, EsOf;
    var head, more := Header(job), st.lines[|Header(job)|..];
    HeaderQuiet(job);
    FooterQuiet();
    QuietHasNoEs(head);
    QuietHasNoEs(Footer());
    EsConcat(head, more);
    assert st.lines == head + more;
    assert EsOf(head) + es == es && EsOf(head) + EsOf(more) == EsOf(more);
    EsConcat(more, Footer());
    assert EsOf(more) + EsOf(Footer()) == EsOf(more);
    var body := more + Footer();
    forall i | 0 <= i < |body|
      ensures BodyLine(body[i])
    {
      assert i >= |more| ==> body[i] == Footer()[i - |more|];
    }
  }

  // ----- Only the first retraction matters

  ghost predicate Rising(es: seq<real>) {
    forall i, j | 0 <= i < j < |es| :: es[i] <= es[j]
  }

  lemma {:induction false} RetractionsRise(job: Job, steps: seq<Step>)
    requires job.Valid() && AllPrintable(steps) && Sane(job, steps)
    ensures Rising(Retractions(job, steps)) && forall i | 0 <= i < |Retractions(job, steps)| :: Retractions(job, steps)[i] <= Total(job, steps)
  {
    hide PathSane, StepAmount;
    if steps != [] {
      RetractionsRise(job, steps[..|steps| - 1]);
      StepTakes(job, steps[..|steps| - 1], steps[|steps| - 1]);
    }
  }

  lemma StepTakes(job: Job, rest: seq<Step>, step: Step)
    requires job.Valid() && step.Printable() && (step.Do? && step.move.Extrude? ==> PathSane(job, step.move.path))
    ensures StepAmount(job, step, LastZ(rest)) >= 0.0
  {
    hide Amount, PathSane;
    if step.Do? && step.move.Extrude? {
      PathTakes(job, step.move.path, LayerHeight(step.planZ, LastZ(rest)), |step.move.path.points|);
    }
  }

  lemma {:induction false} PathTakes(job: Job, path: ExtrusionPath, layerHeight: real, n: nat)
    requires job.Valid() && PathSane(job, path) && layerHeight >= 0.01 && 1 <= n <= |path.points|
    ensures PathAmount(job, path, layerHeight, n) >= 0.0
  {
    hide Amount;
    if n > 1 {
      PathTakes(job, path, layerHeight, n - 1);
    }
  }

  /** If the first retraction is safe, all are. */
  lemma FirstRetractionDecides(job: Job, steps: seq<Step>)
    requires job.Valid() && AllPrintable(steps) && Sane(job, steps)
    ensures var rs := Retractions(job, steps); AllSafe(job, rs) <==> rs == [] || SafeAt(job, rs[0])
  {
    var rs := Retractions(job, steps);
    RetractionsRise(job, steps);
    forall i | 0 <= i < |rs|
      ensures job.digits(rs[0] - job.printer.retraction) <= job.digits(rs[i] - job.printer.retraction)
    {
      assert rs[0] <= rs[i];
    }
  }

  // ----- Programs of planned layers

  /** The plan is one the planner makes. */
  ghost predicate Planned(plan: LayerPlan) {
    exists paths, order :: PlannedFrom(plan, paths, order)
  }

  ghost predicate PlannedFrom(plan: LayerPlan, paths: seq<ExtrusionPath>, order: seq<nat>) {
    && NonEmpty(paths) && Greedy(paths, order) && |order| == |paths|
    && plan.moves == MovesOf(paths, order, plan.z)
  }

  /** A planned layer begins with its first path and moves are printable; it is empty only when no path was given. */
  lemma PlannedBegins(plan: LayerPlan, paths: seq<ExtrusionPath>, order: seq<nat>)
    requires PlannedFrom(plan, paths, order)
    ensures Printable(plan.moves) && (plan.moves == [] <==> paths == [])
    ensures plan.moves != [] ==> plan.moves[0] == Extrude(paths[0], plan.z)
  {
    PlanIsContinuous(paths, order, plan.z);
  }

  lemma PlannedPrintable(plans: seq<LayerPlan>)
    requires forall i | 0 <= i < |plans| :: Planned(plans[i])
    ensures PlansPrintable(plans)
    ensures forall i | 0 <= i < |plans| && plans[i].moves != [] :: plans[i].moves[0].Extrude?
  {
    forall i | 0 <= i < |plans|
      ensures Printable(plans[i].moves) && (plans[i].moves != [] ==> plans[i].moves[0].Extrude?)
    {
      var paths, order :| PlannedFrom(plans[i], paths, order);
      PlannedBegins(plans[i], paths, order);
    }
  }

  /** Layers begin, and nothing else happens, until step `k` prints a path. */
  ghost predicate StartsPrinting(steps: seq<Step>, k: nat) {
    k < |steps| && steps[k].Do? && steps[k].move.Extrude? && forall i | 0 <= i < k :: steps[i].Begin?
  }

  lemma {:induction false} NothingYet(job: Job, steps: seq<Step>)
    requires job.Valid() && forall i | 0 <= i < |steps| :: steps[i].Begin?
    ensures AllPrintable(steps) && Total(job, steps) == 0.0 && LastZ(steps) == 0.0 && Retractions(job, steps) == []
  {
    if steps != [] {
      NothingYet(job, steps[..|steps| - 1]);
    }
  }

  /** After the first path every retraction finds at least that path's filament. */
  lemma {:induction false} RetractionsAfterFirst(job: Job, steps: seq<Step>, k: nat)
    requires job.Valid() && AllPrintable(steps) && Sane(job, steps) && StartsPrinting(steps, k)
    ensures forall i | 0 <= i < |Retractions(job, steps)| :: Retractions(job, steps)[i] >= StepAmount(job, steps[k], 0.0)
    ensures Total(job, steps) >= StepAmount(job, steps[k], 0.0)
    decreases |steps|
  {
    hide PathSane, StepAmount;
    var rest := steps[..|steps| - 1];
    if |steps| == k + 1 {
      NothingYet(job, rest);
    } else {
      RetractionsAfterFirst(job, rest, k);
      StepTakes(job, rest, steps[|steps| - 1]);
    }
  }

  lemma {:induction false} AllStepsConcat(x: seq<LayerPlan>, y: seq<LayerPlan>)
    ensures AllSteps(x + y) == AllSteps(x) + AllSteps(y)
  {
    hide StepsOf;
    if y == [] {
      assert x + y == x;
    } else {
      AllStepsConcat(x, y[..|y| - 1]);
      assert (x + y)[..|x + y| - 1] == x + y[..|y| - 1];
    }
  }

  lemma {:induction false} EmptyLayersBegin(plans: seq<LayerPlan>)
    requires forall i | 0 <= i < |plans| :: plans[i].moves == []
    ensures |AllSteps(plans)| == |plans| && forall i | 0 <= i < |plans| :: AllSteps(plans)[i].Begin?
  {
    if plans != [] {
      EmptyLayersBegin(plans[..|plans| - 1]);
    }
  }

  /** Layer `first` is the first with a path. */
  ghost predicate FirstLayer(plans: seq<LayerPlan>, first: nat) {
    first < |plans| && plans[first].moves != [] && forall i | 0 <= i < first :: plans[i].moves == []
  }

  lemma OneLayer(plan: LayerPlan)
    ensures AllSteps([plan]) == StepsOf(plan)
  {
    assert [plan][..0] == [];
    assert AllSteps([]) == [];
  }

  lemma StepsSplit(plans: seq<LayerPlan>, first: nat)
    requires first < |plans|
    ensures AllSteps(plans) == AllSteps(plans[..first]) + (StepsOf(plans[first]) + AllSteps(plans[first + 1..]))
  {
    hide StepsOf, AllSteps;
    StepsOfParts(plans[..first], plans[first], plans[first + 1..]);
    InParts(plans, first);
  }

  lemma InParts<T>(s: seq<T>, i: nat)
    requires i < |s|
    ensures s == s[..i] + ([s[i]] + s[i + 1..])
  {
  }

  lemma StepsOfParts(before: seq<LayerPlan>, plan: LayerPlan, rest: seq<LayerPlan>)
    ensures AllSteps(before + ([plan] + rest)) == AllSteps(before) + (StepsOf(plan) + AllSteps(rest))
  {
    hide StepsOf, AllSteps;
    AllStepsConcat(before, [plan] + rest);
    AllStepsConcat([plan], rest);
    OneLayer(plan);
  }

  /** The steps of planned layers start printing with the first path of the first layer that has one. */
  lemma PlannedStarts(plans: seq<LayerPlan>, first: nat, paths: seq<ExtrusionPath>, order: seq<nat>)
    requires FirstLayer(plans, first) && PlannedFrom(plans[first], paths, order)
    ensures paths != [] && StartsPrinting(AllSteps(plans), first + 1)
    ensures AllSteps(plans)[first + 1].planZ == plans[first].z && AllSteps(plans)[first + 1].move.path == paths[0]
  {
    var plan := plans[first];
    PlannedBegins(plan, paths, order);
    EmptyLayersBegin(plans[..first]);
    StepsSplit(plans, first);
    var steps := StepsOf(plan);
    assert steps[0] == Begin(plan.z) && steps[1] == Do(plan.z, plan.moves[0], NextOf(plan.moves, 0));
    hide AllSteps, StepsOf, NextOf, PlannedFrom, Greedy, NonEmpty;
    StartsAfter(AllSteps(plans[..first]), steps, AllSteps(plans[first + 1..]));
  }

  lemma StartsAfter(begun: seq<Step>, steps: seq<Step>, more: seq<Step>)
    requires |steps| >= 2 && steps[0].Begin? && steps[1].Do? && steps[1].move.Extrude?
    requires forall i | 0 <= i < |begun| :: begun[i].Begin?
    ensures StartsPrinting(begun + (steps + more), |begun| + 1) && (begun + (steps + more))[|begun| + 1] == steps[1]
  {
  }

  /** Positive filament area, no negative flow or widths, and E values printed so that order and zero are kept. */
  ghost predicate Ordinary(job: Job, plans: seq<LayerPlan>) {
    && job.printer.filamentArea > 0.0 && job.material.flowRatio >= 0.0 && job.printer.width >= 0.0
    && (forall i, k | 0 <= i < |plans| && 0 <= k < |plans[i].moves| :: OrdinaryMove(plans[i].moves[k]))
    && (forall x, y | x <= y :: job.digits(x) <= job.digits(y)) && job.digits(0.0) == 0.0
  }

  predicate OrdinaryMove(move: Move) {
    move.Extrude? && move.path.width.Some? ==> move.path.width.value >= 0.0
  }

  lemma {:induction false} OrdinaryIsSane(job: Job, plans: seq<LayerPlan>)
    requires Ordinary(job, plans)
    ensures Sane(job, AllSteps(plans))
  {
    hide PathSane;
    if plans != [] {
      var rest, last := plans[..|plans| - 1], plans[|plans| - 1];
      OrdinaryIsSane(job, rest);
      forall k | 0 <= k < |StepsOf(last)| && StepsOf(last)[k].Do? && StepsOf(last)[k].move.Extrude?
        ensures PathSane(job, StepsOf(last)[k].move.path)
      {
        assert OrdinaryMove(last.moves[k - 1]);
        NonnegativeAmount(job, last.moves[k - 1].path);
      }
    }
  }

  /** Programs of planned layers, the first path of which takes at least the retraction length of filament: the validator
    accepts them iff anything is extruded at all, so always when retraction is not switched off. Layer `first` is the first
    one with a path, and nothing has moved Z before it. */
  lemma PlannedProgramAccepted(job: Job, plans: seq<LayerPlan>, first: nat, paths: seq<ExtrusionPath>, order: seq<nat>)
    requires Ordinary(job, plans) && forall i | 0 <= i < |plans| :: Planned(plans[i])
    requires FirstLayer(plans, first) && PlannedFrom(plans[first], paths, order)
    requires PathAmount(job, paths[0], LayerHeight(plans[first].z, 0.0), |paths[0].points|) >= job.printer.retraction
    ensures AllPrintable(AllSteps(plans))
    ensures Verdict(LinesChecked(Program(job, plans), None)) == [] <==> Extrudes(job, plans)
    ensures job.printer.retraction > 0.0 ==> Verdict(LinesChecked(Program(job, plans), None)) == []
  {
    var steps := AllSteps(plans);
    PlannedPrintable(plans);
    OrdinaryIsSane(job, plans);
    AcceptedIff(job, plans);
    PlannedStarts(plans, first, paths, order);
    RetractionsAfterFirst(job, steps, first + 1);
    SafeAbove(job, Retractions(job, steps));
    PlannedBegins(plans[first], paths, order);
    if job.printer.retraction > 0.0 {
      NothingWithoutStretch(job, paths[0], LayerHeight(plans[first].z, 0.0), |paths[0].points|);
      assert MoveWrites(job, plans[first].moves[0]);
      assert PlanWrites(job, plans[first]);
    }
  }

  lemma {:induction false} NothingWithoutStretch(job: Job, path: ExtrusionPath, layerHeight: real, n: nat)
    requires job.Valid() && 1 <= n <= |path.points|
    ensures StretchBefore(job, path, n) || PathAmount(job, path, layerHeight, n) == 0.0
  {
    hide Amount;
    if n > 1 {
      StretchAt(job, path, n - 1);
      NothingWithoutStretch(job, path, layerHeight, n - 1);
    }
  }

  lemma SafeAbove(job: Job, es: seq<real>)
    requires forall i | 0 <= i < |es| :: es[i] >= job.printer.retraction
    requires (forall x, y | x <= y :: job.digits(x) <= job.digits(y)) && job.digits(0.0) == 0.0
    ensures AllSafe(job, es)
  {
    forall i | 0 <= i < |es|
      ensures SafeAt(job, es[i])
    {
      assert job.digits(0.0) <= job.digits(es[i] - job.printer.retraction);
    }
  }
}
