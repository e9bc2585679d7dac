/** Where the emitted program takes the print head, said in terms of the plans: every travel ends at its target and every
  path is drawn stretch by stretch, with its own tool, fan, speed and filament (tpt-vertex-slicer/src/gcode.rs:135-255). */
module HeadPaths {
  import opened Options
  import opened Planar
  import opened Toolpaths
  import opened GcodeChecks
  import opened GcodeEmission
  import opened GcodeVerdicts
  import opened HeadReader

  // ----- What the plans ask for

  /** The height after some steps: the last layer begun, or the last travel that hopped. The header leaves it at 0.2. */
  function HeightAfter(steps: seq<Step>): Option<real> {
    if steps == [] then Some(0.2)
    else match steps[|steps| - 1]
      case Begin(z) => Some(z)
      case Do(_, Travel(_, z, _, hop), _) => if hop then Some(z) else HeightAfter(steps[..|steps| - 1])
      case Do(_, Extrude(_, _), _) => HeightAfter(steps[..|steps| - 1])
  }

  /** The tool after some steps: a path's own, which a travel right before it takes already. */
  function ToolAfter(steps: seq<Step>): nat
    decreases |steps|, 0
  {
    if steps == [] then 0
    else match steps[|steps| - 1]
      case Begin(_) => ToolAfter(steps[..|steps| - 1])
      case Do(_, Extrude(path, _), _) => path.tool
      case Do(_, Travel(_, _, _, _), next) => TravelTool(steps[..|steps| - 1], next)
  }

  function TravelTool(before: seq<Step>, next: Option<Move>): nat
    decreases |before|, 1
  {
    if next.Some? && next.value.Extrude? then next.value.path.tool else ToolAfter(before)
  }

  function FanOf(job: Job, path: ExtrusionPath): nat {
    if path.bridge then 100 else job.material.fan
  }

  /** The cooling percentage after some steps. */
  function FanAfter(job: Job, steps: seq<Step>): Option<nat> {
    if steps == [] then None
    else
      var last := steps[|steps| - 1];
      if last.Do? && last.move.Extrude? then Some(FanOf(job, last.move.path)) else FanAfter(job, steps[..|steps| - 1])
  }

  /** Percent as the fan's value from 0 to 255. */
  function FanValue(pct: Option<nat>): Option<real> {
    if pct.None? then None else Some((pct.value * 255 / 100) as real)
  }

  /** The point the plans have reached, without tool offsets. */
  function LastPoint(steps: seq<Step>): Option<P2>
    requires AllPrintable(steps)
  {
    if steps == [] then None
    else match steps[|steps| - 1]
      case Begin(_) => LastPoint(steps[..|steps| - 1])
      case Do(_, Travel(to, _, _, _), _) => Some(to)
      case Do(_, Extrude(path, _), _) => Some(path.points[|path.points| - 1])
  }

  /** A point of the plan as the head is sent there with some tool. */
  function With(job: Job, tool: nat, p: P2): P2 {
    P2(p.x + job.printer.offset(tool).x, p.y + job.printer.offset(tool).y)
  }

  /** Where the last motion ends. */
  function Arrival(ms: seq<Motion>): Option<P2> {
    if ms == [] then None else Some(ms[|ms| - 1].to)
  }

  /** Where drawing goes on from: the end of the stretches drawn so far, or where the path began. */
  function GoesOnFrom(drawn: seq<Motion>, at: Option<P2>): Option<P2> {
    if drawn == [] then at else Arrival(drawn)
  }

  /** The stretches among the first `n` points of a path that are not degenerate: each ends at its second point, with the
    filament of the path up to there. */
  function Strokes(job: Job, path: ExtrusionPath, at: Option<P2>, z: Option<real>, e: real, height: real, n: nat): seq<Motion>
    requires job.Valid() && 1 <= n <= |path.points|
  {
    if n == 1 then []
    else
      var drawn := Strokes(job, path, at, z, e, height, n - 1);
      if job.dist(path.points[n - 2], path.points[n - 1]) < TOUCHING then drawn
      else drawn + [Motion(false, GoesOnFrom(drawn, at), With(job, path.tool, path.points[n - 1]), z,
                           Some(job.digits(e + PathAmount(job, path, height, n))),
                           Some((if path.bridge then job.printer.bridgeSpeed else job.printer.printSpeed) * 60.0),
                           path.tool as real, FanValue(Some(FanOf(job, path))))]
  }

  /** Going to a path's first point, unless the plans are there already, up to 1e-6. */
  function ToStart(job: Job, path: ExtrusionPath, last: Option<P2>, at: Option<P2>, z: Option<real>): seq<Motion>
    requires path.points != []
  {
    if last.Some? && !Apart(last.value, path.points[0]) then []
    else [Motion(false, at, With(job, path.tool, path.points[0]), z, None, Some(job.printer.travelSpeed * 60.0),
                 path.tool as real, FanValue(Some(FanOf(job, path))))]
  }

  /** The motions of one step, after some others. */
  function StepMotions(job: Job, before: seq<Step>, step: Step, at: Option<P2>): seq<Motion>
    requires job.Valid() && AllPrintable(before) && step.Printable()
  {
    match step
    case Begin(_) => []
    case Do(_, Travel(to, z, _, hop), next) =>
      var tool := TravelTool(before, next);
      [Motion(true, at, With(job, tool, to), if hop then Some(z + job.printer.zHop) else HeightAfter(before), None,
              Some(job.printer.travelSpeed * 60.0), tool as real, FanValue(FanAfter(job, before)))]
    case Do(planZ, Extrude(path, _), _) =>
      var start := ToStart(job, path, LastPoint(before), at, HeightAfter(before));
      start + Strokes(job, path, GoesOnFrom(start, at), HeightAfter(before), Total(job, before),
                      LayerHeight(planZ, LastZ(before)), |path.points|)
  }

  function AllMotions(job: Job, steps: seq<Step>): seq<Motion>
    requires job.Valid() && AllPrintable(steps)
  {
    if steps == [] then []
    else
      var before := steps[..|steps| - 1];
      var done := AllMotions(job, before);
      done + StepMotions(job, before, steps[|steps| - 1], Arrival(done))
  }

  // ----- What the emitter's pieces do to the head

  lemma PutHead(st: Emitter, line: Line)
    ensures HeadAfter(st.Put(line).lines) == AfterLine(HeadAfter(st.lines), line)
  {
    HeadAfterMore(st.lines, line);
  }

  lemma LiftedHead(job: Job, st: Emitter, z: real)
    ensures HeadAfter(Lifted(job, st, z).lines) == HeadAfter(st.lines).(z := Some(z))
    ensures Lifted(job, st, z) == st.(lines := Lifted(job, st, z).lines)
  {
    PutHead(st, [G(1), Z(z), F(job.printer.travelSpeed)]);
    HeightMove(HeadAfter(st.lines), z, job.printer.travelSpeed * 60.0);
  }

  lemma FedHead(job: Job, st: Emitter, amount: real)
    ensures HeadAfter(Fed(job, st, amount).lines) == HeadAfter(st.lines)
    ensures Fed(job, st, amount) == st.(e := st.e + amount, lines := Fed(job, st, amount).lines)
  {
    var e := st.e + amount;
    PutHead(st.(e := e), [G(1), E(job.digits(e)), F(job.printer.retractionSpeed)]);
    FeedMove(HeadAfter(st.lines), job.digits(e), job.printer.retractionSpeed * 60.0);
  }

  lemma ToolHead(job: Job, st: Emitter, tool: nat)
    requires HeadAfter(st.lines).tool == st.tool as real
    ensures HeadAfter(ToolChanged(job, st, tool).lines) == HeadAfter(st.lines).(tool := tool as real)
    ensures ToolChanged(job, st, tool) == st.(tool := tool, lines := ToolChanged(job, st, tool).lines)
  {
    if st.tool != tool {
      var line1 := [Word('T', tool as real)];
      var s := job.printer.toolTemperature(tool) + job.material.temperatureOffset;
      PutHead(st, line1);
      ToolLine(HeadAfter(st.lines), tool as real);
      PutHead(st.Put(line1), [M(104), Word('S', s)]);
      MachineLine(HeadAfter(st.Put(line1).lines), 104, s);
    }
  }

  lemma FanHead(st: Emitter, pct: nat)
    requires HeadAfter(st.lines).fan == FanValue(st.fan)
    ensures HeadAfter(FanSet(st, pct).lines) == HeadAfter(st.lines).(fan := FanValue(Some(pct)))
    ensures FanSet(st, pct) == st.(fan := Some(pct), lines := FanSet(st, pct).lines)
  {
    if st.fan != Some(pct) {
      var s := (pct * 255 / 100) as real;
      PutHead(st, if pct == 0 then [M(107)] else [M(106), Word('S', s)]);
      MachineLine(HeadAfter(st.lines), if pct == 0 then 107 else 106, s);
    }
  }

  lemma PlaneHead(st: Emitter, code: nat, x: real, y: real, f: real)
    ensures var h := HeadAfter(st.lines);
            HeadAfter(st.Put([G(code), X(x), Y(y), Word('F', f)]).lines)
            == h.(at := Some(P2(x, y)), motions := h.motions + [Motion(code == 0, h.at, P2(x, y), h.z, None, Some(f), h.tool, h.fan)])
  {
    PutHead(st, [G(code), X(x), Y(y), Word('F', f)]);
    PlaneMove(HeadAfter(st.lines), code, x, y, f);
  }

  lemma DrawHead(st: Emitter, x: real, y: real, e: real, f: real)
    ensures var h := HeadAfter(st.lines);
            HeadAfter(st.Put([G(1), X(x), Y(y), E(e), Word('F', f)]).lines)
            == h.(at := Some(P2(x, y)), motions := h.motions + [Motion(false, h.at, P2(x, y), h.z, Some(e), Some(f), h.tool, h.fan)])
  {
    PutHead(st, [G(1), X(x), Y(y), E(e), Word('F', f)]);
    DrawMove(HeadAfter(st.lines), x, y, e, f);
  }

  // ----- One step

  /** The emitter and the head agree with the plans so far. */
  ghost predicate InStep(job: Job, steps: seq<Step>, st: Emitter)
    requires job.Valid() && AllPrintable(steps)
  {
    var h := HeadAfter(st.lines);
    && h == Head(Arrival(AllMotions(job, steps)), HeightAfter(steps), ToolAfter(steps) as real, FanValue(FanAfter(job, steps)),
                 AllMotions(job, steps))
    && st.e == Total(job, steps) && st.tool == ToolAfter(steps) && st.fan == FanAfter(job, steps)
    && st.last == LastPoint(steps) && st.lastZ == LastZ(steps)
  }

  lemma HeaderHead(job: Job)
    requires job.Valid()
    ensures InStep(job, [], Started(job))
  {
    var nozzle, bed := job.printer.nozzle + job.material.temperatureOffset, job.printer.bed + job.material.bedOffset;
    var lines := Header(job);
    assert lines == [[], [], [], [G(90)], [M(82)], [G(21)], [M(104), Word('S', nozzle)], [M(140), Word('S', bed)], [G(28)],
                     [G(1), Z(0.2), Word('F', 300.0)], [M(109), Word('S', nozzle)], [M(190), Word('S', bed)]];
    hide Header;
    HeaderSoFar(lines, nozzle, bed);
  }

  lemma LineByLine(lines: seq<Line>, n: nat)
    requires n < |lines|
    ensures HeadAfter(lines[..n + 1]) == AfterLine(HeadAfter(lines[..n]), lines[n])
  {
    assert lines[..n + 1] == lines[..n] + [lines[n]];
    HeadAfterMore(lines[..n], lines[n]);
  }

  /** Lines that leave a head as it is. */
  lemma {:induction false} IdleLines(lines: seq<Line>, from: nat, n: nat, h: Head)
    requires from <= n <= |lines| && HeadAfter(lines[..from]) == h
    requires forall i | from <= i < n :: AfterLine(h, lines[i]) == h
    ensures HeadAfter(lines[..n]) == h
  {
    if from < n {
      IdleLines(lines, from, n - 1, h);
      LineByLine(lines, n - 1);
    }
  }

  lemma BeforeHeating(lines: seq<Line>, nozzle: real, bed: real)
    requires |lines| >= 9
    requires lines[..9] == [[], [], [], [G(90)], [M(82)], [G(21)], [M(104), Word('S', nozzle)], [M(140), Word('S', bed)], [G(28)]]
    ensures HeadAfter(lines[..9]) == PARKED
  {
    assert HeadAfter(lines[..0]) == PARKED;
    EmptyLine(PARKED);
    PlainCode(PARKED, 90);
    MachineLine(PARKED, 82, 0.0);
    PlainCode(PARKED, 21);
    MachineLine(PARKED, 104, nozzle);
    MachineLine(PARKED, 140, bed);
    PlainCode(PARKED, 28);
    hide HeadAfter, AfterLine;
    forall i | 0 <= i < 9
      ensures AfterLine(PARKED, lines[i]) == PARKED
    {
      assert lines[i] == lines[..9][i];
    }
    IdleLines(lines, 0, 9, PARKED);
  }

  lemma HeaderSoFar(lines: seq<Line>, nozzle: real, bed: real)
    requires lines == [[], [], [], [G(90)], [M(82)], [G(21)], [M(104), Word('S', nozzle)], [M(140), Word('S', bed)], [G(28)],
                       [G(1), Z(0.2), Word('F', 300.0)], [M(109), Word('S', nozzle)], [M(190), Word('S', bed)]]
    ensures HeadAfter(lines) == PARKED.(z := Some(0.2))
  {
    hide HeadAfter, AfterLine;
    var up := PARKED.(z := Some(0.2));
    BeforeHeating(lines, nozzle, bed);
    HeightMove(PARKED, 0.2, 300.0);
    LineByLine(lines, 9);
    MachineLine(up, 109, nozzle);
    LineByLine(lines, 10);
    MachineLine(up, 190, bed);
    LineByLine(lines, 11);
    assert lines[..12] == lines;
  }

  lemma FedHeadIf(job: Job, st: Emitter, amount: real, yes: bool)
    ensures var r := if yes then Fed(job, st, amount) else st;
            HeadAfter(r.lines) == HeadAfter(st.lines) && r == Emitter(r.lines, if yes then st.e + amount else st.e, st.tool, st.fan, st.last, st.lastZ)
  {
    FedHead(job, st, amount);
    hide HeadAfter, Fed;
  }

  lemma LiftedHeadIf(job: Job, st: Emitter, z: real, yes: bool)
    ensures var r, h := if yes then Lifted(job, st, z) else st, HeadAfter(st.lines);
            && HeadAfter(r.lines) == Head(h.at, if yes then Some(z) else h.z, h.tool, h.fan, h.motions)
            && r == Emitter(r.lines, st.e, st.tool, st.fan, st.last, st.lastZ)
  {
    LiftedHead(job, st, z);
    hide HeadAfter, Lifted;
  }

  lemma ToolHeadIf(job: Job, st: Emitter, tool: nat, yes: bool)
    requires HeadAfter(st.lines).tool == st.tool as real
    ensures var r, h := if yes then ToolChanged(job, st, tool) else st, HeadAfter(st.lines);
            && HeadAfter(r.lines) == Head(h.at, h.z, (if yes then tool else st.tool) as real, h.fan, h.motions)
            && r == Emitter(r.lines, st.e, if yes then tool else st.tool, st.fan, st.last, st.lastZ)
  {
    ToolHead(job, st, tool);
    hide HeadAfter, ToolChanged;
  }

  lemma RapidHead(job: Job, st: Emitter, to: P2)
    ensures var h, p := HeadAfter(st.lines), With(job, st.tool, to);
            var off := job.printer.offset(st.tool);
            HeadAfter(st.Put([G(0), X(to.x + off.x), Y(to.y + off.y), F(job.printer.travelSpeed)]).lines)
            == Head(Some(p), h.z, h.tool, h.fan,
                    h.motions + [Motion(true, h.at, p, h.z, None, Some(job.printer.travelSpeed * 60.0), h.tool, h.fan)])
  {
    var off := job.printer.offset(st.tool);
    PlaneHead(st, 0, to.x + off.x, to.y + off.y, job.printer.travelSpeed * 60.0);
    hide HeadAfter;
  }

  lemma TravelHead(job: Job, st: Emitter, to: P2, z: real, retract: bool, hop: bool, next: Option<Move>)
    requires HeadAfter(st.lines).tool == st.tool as real
    ensures var h := HeadAfter(st.lines);
            var tool := if next.Some? && next.value.Extrude? then next.value.path.tool else st.tool;
            var after := Travelled(job, st, to, z, retract, hop, next);
            && HeadAfter(after.lines)
               == Head(Some(With(job, tool, to)), if hop then Some(z) else h.z, tool as real, h.fan,
                       h.motions + [Motion(true, h.at, With(job, tool, to), if hop then Some(z + job.printer.zHop) else h.z,
                                           None, Some(job.printer.travelSpeed * 60.0), tool as real, h.fan)])
            && after == Emitter(after.lines, st.e, tool, st.fan, Some(to), z)
  {
    hide HeadAfter, ToolChanged, Fed, Lifted, With;
    var yes := next.Some? && next.value.Extrude?;
    var tool := if yes then next.value.path.tool else st.tool;
    var st0 := if yes then ToolChanged(job, st, tool) else st;
    ToolHeadIf(job, st, tool, yes);
    var off := job.printer.offset(st0.tool);
    var st1 := if retract then Fed(job, st0, -job.printer.retraction) else st0;
    FedHeadIf(job, st0, -job.printer.retraction, retract);
    var st2 := if hop then Lifted(job, st1, z + job.printer.zHop) else st1;
    LiftedHeadIf(job, st1, z + job.printer.zHop, hop);
    var st3 := st2.Put([G(0), X(to.x + off.x), Y(to.y + off.y), F(job.printer.travelSpeed)]);
    RapidHead(job, st2, to);
    var st4 := if hop then Lifted(job, st3, z) else st3;
    LiftedHeadIf(job, st3, z, hop);
    var st5 := if retract then Fed(job, st4, job.printer.retraction) else st4;
    FedHeadIf(job, st4, job.printer.retraction, retract);
    assert Travelled(job, st, to, z, retract, hop, next) == st5.(last := Some(to), lastZ := z);
  }

  lemma ApproachHead(job: Job, st: Emitter, path: ExtrusionPath)
    requires path.points != [] && st.tool == path.tool
    ensures var h, p, off := HeadAfter(st.lines), With(job, path.tool, path.points[0]), job.printer.offset(st.tool);
            HeadAfter(st.Put([G(1), X(path.points[0].x + off.x), Y(path.points[0].y + off.y), F(job.printer.travelSpeed)]).lines)
            == Head(Some(p), h.z, h.tool, h.fan,
                    h.motions + [Motion(false, h.at, p, h.z, None, Some(job.printer.travelSpeed * 60.0), h.tool, h.fan)])
  {
    var off, first := job.printer.offset(st.tool), path.points[0];
    PlaneHead(st, 1, first.x + off.x, first.y + off.y, job.printer.travelSpeed * 60.0);
    hide HeadAfter;
  }

  /** Tool and fan are set for the path. */
  lemma ReadyHead(job: Job, st: Emitter, path: ExtrusionPath)
    requires HeadAfter(st.lines).tool == st.tool as real && HeadAfter(st.lines).fan == FanValue(st.fan)
    ensures var h, ready := HeadAfter(st.lines), FanSet(ToolChanged(job, st, path.tool), FanOf(job, path));
            && HeadAfter(ready.lines) == Head(h.at, h.z, path.tool as real, FanValue(Some(FanOf(job, path))), h.motions)
            && ready == Emitter(ready.lines, st.e, path.tool, Some(FanOf(job, path)), st.last, st.lastZ)
  {
    ToolHead(job, st, path.tool);
    FanHead(ToolChanged(job, st, path.tool), FanOf(job, path));
    hide HeadAfter, ToolChanged, FanSet, FanValue, FanOf;
  }

  lemma BegunHead(job: Job, st: Emitter, path: ExtrusionPath)
    requires path.points != [] && HeadAfter(st.lines).tool == st.tool as real && HeadAfter(st.lines).fan == FanValue(st.fan)
    ensures var h, after := HeadAfter(st.lines), PathBegun(job, st, path);
            var start := ToStart(job, path, st.last, h.at, h.z);
            && HeadAfter(after.lines) == Head(GoesOnFrom(start, h.at), h.z, path.tool as real, FanValue(Some(FanOf(job, path))),
                                              h.motions + start)
            && after == Emitter(after.lines, st.e, path.tool, Some(FanOf(job, path)), st.last, st.lastZ)
  {
    var h, ready := HeadAfter(st.lines), FanSet(ToolChanged(job, st, path.tool), FanOf(job, path));
    ReadyHead(job, st, path);
    hide HeadAfter, ToolChanged, FanSet, Apart, With, FanValue;
    ApproachHead(job, ready, path);
    if st.last.Some? && !Apart(st.last.value, path.points[0]) {
      assert PathBegun(job, st, path) == ready;
      assert h.motions + [] == h.motions;
    } else {
      var off := job.printer.offset(ready.tool);
      assert PathBegun(job, st, path)
        == ready.Put([G(1), X(path.points[0].x + off.x), Y(path.points[0].y + off.y), F(job.printer.travelSpeed)]);
    }
  }

  lemma {:induction false} PointsHead(job: Job, st: Emitter, path: ExtrusionPath, height: real, n: nat)
    requires job.Valid() && 1 <= n <= |path.points|
    requires HeadAfter(st.lines).tool == path.tool as real && st.tool == path.tool
    requires HeadAfter(st.lines).fan == FanValue(Some(FanOf(job, path)))
    ensures var h, after := HeadAfter(st.lines), PointsPrinted(job, st, path, height, n);
            var drawn := Strokes(job, path, h.at, h.z, st.e, height, n);
            && HeadAfter(after.lines) == h.(at := GoesOnFrom(drawn, h.at), motions := h.motions + drawn)
            && after == st.(lines := after.lines, e := st.e + PathAmount(job, path, height, n))
  {
    hide HeadAfter, Amount, FanValue;
    if n == 1 {
      assert HeadAfter(st.lines).motions + [] == HeadAfter(st.lines).motions;
    } else {
      PointsHead(job, st, path, height, n - 1);
      var before := PointsPrinted(job, st, path, height, n - 1);
      var p, d := path.points[n - 1], job.dist(path.points[n - 2], path.points[n - 1]);
      if d >= TOUCHING {
        var e, off := before.e + Amount(job, path, height, d), job.printer.offset(before.tool);
        DrawHead(before.(e := e), p.x + off.x, p.y + off.y, job.digits(e), Speed(job, path) * 60.0);
      }
    }
  }

  function Rest(more: seq<Step>): seq<Step>
    requires more != []
  {
    more[..|more| - 1]
  }

  function Last(more: seq<Step>): Step
    requires more != []
  {
    more[|more| - 1]
  }

  lemma RestPrintable(more: seq<Step>)
    requires more != [] && AllPrintable(more)
    ensures AllPrintable(Rest(more)) && Last(more).Printable()
  {
  }

  /** The plan-side values after one more step. */
  lemma MotionsMore(job: Job, more: seq<Step>)
    requires job.Valid() && more != [] && AllPrintable(more)
    ensures AllPrintable(Rest(more)) && Last(more).Printable()
    ensures AllMotions(job, more)
            == AllMotions(job, Rest(more)) + StepMotions(job, Rest(more), Last(more), Arrival(AllMotions(job, Rest(more))))
  {
    hide StepMotions;
  }

  lemma TotalMore(job: Job, more: seq<Step>)
    requires job.Valid() && more != [] && AllPrintable(more)
    ensures AllPrintable(Rest(more)) && Last(more).Printable()
    ensures Total(job, more) == Total(job, Rest(more)) + StepAmount(job, Last(more), LastZ(Rest(more)))
  {
    hide StepAmount, LastZ;
  }

  lemma BeginSide(job: Job, more: seq<Step>)
    requires job.Valid() && more != [] && AllPrintable(more) && Last(more).Begin?
    ensures AllPrintable(Rest(more))
    ensures HeightAfter(more) == Some(Last(more).z) && ToolAfter(more) == ToolAfter(Rest(more))
    ensures FanAfter(job, more) == FanAfter(job, Rest(more)) && LastPoint(more) == LastPoint(Rest(more))
    ensures LastZ(more) == LastZ(Rest(more))
  {
  }

  lemma TravelSide(job: Job, more: seq<Step>)
    requires job.Valid() && more != [] && AllPrintable(more) && Last(more).Do? && Last(more).move.Travel?
    ensures HeightAfter(more) == if Last(more).move.hop then Some(Last(more).move.z) else HeightAfter(Rest(more))
    ensures ToolAfter(more) == TravelTool(Rest(more), Last(more).next) && FanAfter(job, more) == FanAfter(job, Rest(more))
    ensures LastPoint(more) == Some(Last(more).move.to) && LastZ(more) == Last(more).move.z
  {
  }

  lemma PathSide(job: Job, more: seq<Step>)
    requires job.Valid() && more != [] && AllPrintable(more) && Last(more).Do? && Last(more).move.Extrude?
    ensures Last(more).move.path.points != []
    ensures HeightAfter(more) == HeightAfter(Rest(more)) && ToolAfter(more) == Last(more).move.path.tool
    ensures FanAfter(job, more) == Some(FanOf(job, Last(more).move.path))
    ensures LastPoint(more) == Some(End(Last(more).move.path)) && LastZ(more) == Last(more).move.z
  {
  }

  /** The head and the emitter after a whole path. */
  lemma PathHead(job: Job, st: Emitter, path: ExtrusionPath, planZ: real, z: real)
    requires job.Valid() && path.points != []
    requires HeadAfter(st.lines).tool == st.tool as real && HeadAfter(st.lines).fan == FanValue(st.fan)
    ensures var h, after, height := HeadAfter(st.lines), PathPrinted(job, st, path, planZ, z), LayerHeight(planZ, st.lastZ);
            var start := ToStart(job, path, st.last, h.at, h.z);
            var drawn := Strokes(job, path, GoesOnFrom(start, h.at), h.z, st.e, height, |path.points|);
            && HeadAfter(after.lines) == Head(GoesOnFrom(drawn, GoesOnFrom(start, h.at)), h.z, path.tool as real,
                                              FanValue(Some(FanOf(job, path))), h.motions + start + drawn)
            && after == Emitter(after.lines, st.e + PathAmount(job, path, height, |path.points|), path.tool,
                                Some(FanOf(job, path)), Some(End(path)), z)
  {
    BegunHead(job, st, path);
    PointsHead(job, PathBegun(job, st, path), path, LayerHeight(planZ, st.lastZ), |path.points|);
    hide HeadAfter, PathBegun, PointsPrinted, FanValue, PathAmount, Strokes, ToStart, LayerHeight, FanOf;
  }

  /** The emitter and the head agree with plan-side values. */
  ghost predicate Agree(st: Emitter, motions: seq<Motion>, at: Option<P2>, z: Option<real>, tool: nat, fan: Option<nat>,
                        last: Option<P2>, e: real, lastZ: real) {
    && HeadAfter(st.lines) == Head(at, z, tool as real, FanValue(fan), motions)
    && st.e == e && st.tool == tool && st.fan == fan && st.last == last && st.lastZ == lastZ
  }

  lemma InStepIff(job: Job, steps: seq<Step>, st: Emitter)
    requires job.Valid() && AllPrintable(steps)
    ensures InStep(job, steps, st) <==>
            Agree(st, AllMotions(job, steps), Arrival(AllMotions(job, steps)), HeightAfter(steps), ToolAfter(steps),
                  FanAfter(job, steps), LastPoint(steps), Total(job, steps), LastZ(steps))
  {
    hide HeadAfter, AllMotions, HeightAfter, ToolAfter, FanAfter, LastPoint, Total, LastZ, FanValue;
  }

  lemma TravelAgrees(job: Job, st: Emitter, motions: seq<Motion>, at: Option<P2>, z: Option<real>, tool: nat, fan: Option<nat>,
                     last: Option<P2>, e: real, lastZ: real, to: P2, moveZ: real, retract: bool, hop: bool, next: Option<Move>)
    requires Agree(st, motions, at, z, tool, fan, last, e, lastZ)
    ensures var t := if next.Some? && next.value.Extrude? then next.value.path.tool else tool;
            Agree(Travelled(job, st, to, moveZ, retract, hop, next),
                  motions + [Motion(true, at, With(job, t, to), if hop then Some(moveZ + job.printer.zHop) else z, None,
                                    Some(job.printer.travelSpeed * 60.0), t as real, FanValue(fan))],
                  Some(With(job, t, to)), if hop then Some(moveZ) else z, t, fan, Some(to), e, moveZ)
  {
    TravelHead(job, st, to, moveZ, retract, hop, next);
    hide HeadAfter, Travelled, With, FanValue;
  }

  lemma TravelStepIs(job: Job, steps: seq<Step>, step: Step, st: Emitter, at: Option<P2>)
    requires job.Valid() && AllPrintable(steps) && step.Do? && step.move.Travel?
    ensures StepPrinted(job, st, step) == Travelled(job, st, step.move.to, step.move.z, step.move.retract, step.move.hop, step.next)
    ensures StepAmount(job, step, LastZ(steps)) == 0.0
    ensures var tool := TravelTool(steps, step.next);
            StepMotions(job, steps, step, at)
            == [Motion(true, at, With(job, tool, step.move.to),
                       if step.move.hop then Some(step.move.z + job.printer.zHop) else HeightAfter(steps), None,
                       Some(job.printer.travelSpeed * 60.0), tool as real, FanValue(FanAfter(job, steps)))]
  {
  }

  lemma TravelStepHead(job: Job, more: seq<Step>, st: Emitter)
    requires job.Valid() && more != [] && AllPrintable(more) && Last(more).Do? && Last(more).move.Travel?
    requires AllPrintable(Rest(more)) && InStep(job, Rest(more), st)
    ensures InStep(job, more, StepPrinted(job, st, Last(more)))
  {
    hide Rest, Last, InStep, Agree, Travelled, With, FanValue, StepAmount, AllMotions, Total, LastZ, HeightAfter, ToolAfter, FanAfter,
      LastPoint, AllPrintable, StepPrinted, StepMotions;
    var steps, step := Rest(more), Last(more);
    var ms, move := AllMotions(job, steps), step.move;
    MotionsMore(job, more);
    TotalMore(job, more);
    TravelSide(job, more);
    InStepIff(job, steps, st);
    InStepIff(job, more, StepPrinted(job, st, step));
    TravelStepIs(job, steps, step, st, Arrival(ms));
    TravelAgrees(job, st, ms, Arrival(ms), HeightAfter(steps), ToolAfter(steps), FanAfter(job, steps), LastPoint(steps),
                 Total(job, steps), LastZ(steps), move.to, move.z, move.retract, move.hop, step.next);
  }

  lemma PathAgrees(job: Job, st: Emitter, motions: seq<Motion>, at: Option<P2>, z: Option<real>, tool: nat, fan: Option<nat>,
                   last: Option<P2>, e: real, lastZ: real, path: ExtrusionPath, planZ: real, moveZ: real)
    requires job.Valid() && path.points != [] && Agree(st, motions, at, z, tool, fan, last, e, lastZ)
    ensures var height, start := LayerHeight(planZ, lastZ), ToStart(job, path, last, at, z);
            var drawn := Strokes(job, path, GoesOnFrom(start, at), z, e, height, |path.points|);
            Agree(PathPrinted(job, st, path, planZ, moveZ), motions + start + drawn, GoesOnFrom(drawn, GoesOnFrom(start, at)), z,
                  path.tool, Some(FanOf(job, path)), Some(End(path)), e + PathAmount(job, path, height, |path.points|), moveZ)
  {
    PathHead(job, st, path, planZ, moveZ);
    hide HeadAfter, PathPrinted, FanValue, PathAmount, Strokes, ToStart, LayerHeight, FanOf;
  }

  lemma PathStepIs(job: Job, steps: seq<Step>, step: Step, st: Emitter, at: Option<P2>)
    requires job.Valid() && AllPrintable(steps) && step.Printable() && step.Do? && step.move.Extrude?
    ensures StepPrinted(job, st, step) == PathPrinted(job, st, step.move.path, step.planZ, step.move.z)
    ensures var path, height := step.move.path, LayerHeight(step.planZ, LastZ(steps));
            var start := ToStart(job, path, LastPoint(steps), at, HeightAfter(steps));
            && StepAmount(job, step, LastZ(steps)) == PathAmount(job, path, height, |path.points|)
            && StepMotions(job, steps, step, at)
               == start + Strokes(job, path, GoesOnFrom(start, at), HeightAfter(steps), Total(job, steps), height, |path.points|)
  {
  }

  lemma PathStepHead(job: Job, more: seq<Step>, st: Emitter)
    requires job.Valid() && more != [] && AllPrintable(more) && Last(more).Do? && Last(more).move.Extrude?
    requires AllPrintable(Rest(more)) && Last(more).Printable() && InStep(job, Rest(more), st)
    ensures InStep(job, more, StepPrinted(job, st, Last(more)))
  {
    hide Rest, Last, InStep, Agree, PathPrinted, FanValue, FanOf, StepAmount, PathAmount, AllMotions, Total, LastZ, HeightAfter,
      ToolAfter, FanAfter, LastPoint, AllPrintable, StepPrinted, StepMotions, Strokes, ToStart, LayerHeight, Arrival, GoesOnFrom;
    PathSide(job, more);
    MotionsMore(job, more);
    TotalMore(job, more);
    var steps, step := Rest(more), Last(more);
    var ms, path, z := AllMotions(job, steps), step.move.path, HeightAfter(steps);
    InStepIff(job, steps, st);
    InStepIff(job, more, StepPrinted(job, st, step));
    PathStepIs(job, steps, step, st, Arrival(ms));
    PathAgrees(job, st, ms, Arrival(ms), z, ToolAfter(steps), FanAfter(job, steps), LastPoint(steps), Total(job, steps),
               LastZ(steps), path, step.planZ, step.move.z);
    var start := ToStart(job, path, LastPoint(steps), Arrival(ms), z);
    var drawn := Strokes(job, path, GoesOnFrom(start, Arrival(ms)), z, Total(job, steps), LayerHeight(step.planZ, LastZ(steps)),
                         |path.points|);
    ArrivalOfMore(ms, start, drawn);
    assert ms + (start + drawn) == ms + start + drawn;
  }

  lemma ArrivalOfMore(done: seq<Motion>, start: seq<Motion>, drawn: seq<Motion>)
    ensures Arrival(done + start + drawn) == GoesOnFrom(drawn, GoesOnFrom(start, Arrival(done)))
  {
  }

  lemma BeginStepHead(job: Job, more: seq<Step>, st: Emitter)
    requires job.Valid() && more != [] && AllPrintable(more) && Last(more).Begin?
    requires AllPrintable(Rest(more)) && InStep(job, Rest(more), st)
    ensures InStep(job, more, StepPrinted(job, st, Last(more)))
  {
    var steps, step := Rest(more), Last(more);
    BeginSide(job, more);
    MotionsMore(job, more);
    TotalMore(job, more);
    assert StepMotions(job, steps, step, Arrival(AllMotions(job, steps))) == [];
    assert StepAmount(job, step, LastZ(steps)) == 0.0;
    PutHead(st, []);
    EmptyLine(HeadAfter(st.lines));
    LiftedHead(job, st.Put([]), step.z);
    hide Rest, Last, HeadAfter, Lifted, FanValue, StepMotions, StepAmount, AllMotions, Total, LastZ, HeightAfter, ToolAfter, FanAfter,
      LastPoint, AllPrintable;
    assert AllMotions(job, steps) + [] == AllMotions(job, steps);
  }

  /** After any steps the head has done exactly what the plans ask for. */
  lemma {:induction false} RunHead(job: Job, steps: seq<Step>)
    requires job.Valid() && AllPrintable(steps)
    ensures InStep(job, steps, Ran(job, Started(job), steps))
  {
    hide InStep, StepPrinted;
    if steps == [] {
      HeaderHead(job);
    } else {
      RestPrintable(steps);
      RunHead(job, Rest(steps));
      var st := Ran(job, Started(job), Rest(steps));
      match Last(steps) {
        case Begin(_) => BeginStepHead(job, steps, st);
        case Do(_, Travel(_, _, _, _), _) => TravelStepHead(job, steps, st);
        case Do(_, Extrude(_, _), _) => PathStepHead(job, steps, st);
      }
    }
  }

  // ----- The whole program

  lemma FooterHead(lines: seq<Line>)
    ensures HeadAfter(lines + Footer()).motions == HeadAfter(lines).motions
  {
    var all := lines + Footer();
    var n := |lines|;
    assert all[..n] == lines && all[..n + 5] == all;
    LineByLine(all, n);
    LineByLine(all, n + 1);
    LineByLine(all, n + 2);
    LineByLine(all, n + 3);
    LineByLine(all, n + 4);
    MachineLine(HeadAfter(all[..n]), 107, 0.0);
    MachineLine(HeadAfter(all[..n + 1]), 104, 0.0);
    MachineLine(HeadAfter(all[..n + 2]), 140, 0.0);
    HeightMove(HeadAfter(all[..n + 3]), 300.0, 300.0);
    MachineLine(HeadAfter(all[..n + 4]), 84, 0.0);
    hide HeadAfter, AfterLine;
  }

  /** Reading the emitted program back, the head makes exactly the motions the plans ask for: travels to their targets,
    approaches to starts, and the stretches of the paths, each shifted by the offset of its tool. */
  lemma ProgramMotions(job: Job, plans: seq<LayerPlan>)
    requires job.Valid() && AllPrintable(AllSteps(plans))
    ensures Motions(Program(job, plans)) == AllMotions(job, AllSteps(plans))
  {
    RunHead(job, AllSteps(plans));
    FooterHead(Ran(job, Started(job), AllSteps(plans)).lines);
    hide HeadAfter, AllMotions, AllSteps, Footer, Ran;
  }

  /** The filament fed for a stretch has the volume of its bead, times the flow ratio. */
  lemma VolumeOfStretch(job: Job, path: ExtrusionPath, height: real, d: real)
    requires job.Valid()
    ensures Amount(job, path, height, d) * job.printer.filamentArea
            == (if path.width.Some? then path.width.value else job.printer.width) * height * d * job.material.flowRatio
  {
    var bead := (if path.width.Some? then path.width.value else job.printer.width) * height * d;
    ShareTimes(bead, job.printer.filamentArea, job.material.flowRatio);
  }

  lemma ShareTimes(x: real, y: real, r: real)
    requires y != 0.0
    ensures x / y * r * y == x * r
  {
    assert x / y * y == x;
    assert x / y * r * y == x / y * y * r;
  }
}
