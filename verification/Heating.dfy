/** What the emitted program heats: a reader of the lines that set temperatures, and what it reads
  (tpt-vertex-slicer/src/gcode.rs:92-133, :258-262, profile.rs:100-105). */
module Heating {
  import opened Options
  import opened Planar
  import opened Toolpaths
  import opened GcodeChecks
  import opened GcodeEmission
  import opened GcodeVerdicts
  import opened HeadReader
  import opened HeadPaths

  datatype Heaters = Heaters(nozzle: Option<real>, bed: Option<real>)

  function AfterHeating(h: Heaters, line: Line): Heaters {
    Heaters(if M(104) in line || M(109) in line then WordOf(line, 'S') else h.nozzle,
            if M(140) in line || M(190) in line then WordOf(line, 'S') else h.bed)
  }

  /** The temperatures last asked for. */
  function HeatersAfter(lines: seq<Line>): Heaters {
    if lines == [] then Heaters(None, None) else AfterHeating(HeatersAfter(lines[..|lines| - 1]), lines[|lines| - 1])
  }

  predicate Quiet(line: Line) {
    M(104) !in line && M(109) !in line && M(140) !in line && M(190) !in line
  }

  lemma PutHeats(st: Emitter, line: Line)
    ensures HeatersAfter(st.Put(line).lines) == AfterHeating(HeatersAfter(st.lines), line)
    ensures Quiet(line) ==> HeatersAfter(st.Put(line).lines) == HeatersAfter(st.lines)
  {
    assert (st.lines + [line])[..|st.lines|] == st.lines;
  }

  lemma SetLine(h: Heaters, code: nat, s: real)
    ensures AfterHeating(h, [M(code), Word('S', s)])
            == Heaters(if code == 104 || code == 109 then Some(s) else h.nozzle, if code == 140 || code == 190 then Some(s) else h.bed)
  {
    TwoWords(M(code), Word('S', s), 'S');
    hide WordOf;
  }

  /** The same heaters as before, and the same tool. */
  ghost predicate Same(st: Emitter, st': Emitter) {
    HeatersAfter(st'.lines) == HeatersAfter(st.lines) && st'.tool == st.tool
  }

  lemma PutSame(st: Emitter, line: Line)
    requires Quiet(line)
    ensures Same(st, st.Put(line))
  {
    PutHeats(st, line);
  }

  /** A change of tool asks for that tool's temperature; nothing else asks for any. */
  ghost predicate Follows(job: Job, st: Emitter, st': Emitter) {
    HeatersAfter(st'.lines)
    == if st'.tool == st.tool then HeatersAfter(st.lines)
       else HeatersAfter(st.lines).(nozzle := Some(job.printer.toolTemperature(st'.tool) + job.material.temperatureOffset))
  }

  lemma ToolFollows(job: Job, st: Emitter, tool: nat)
    ensures Follows(job, st, ToolChanged(job, st, tool)) && ToolChanged(job, st, tool).tool == tool
  {
    if st.tool != tool {
      var s := job.printer.toolTemperature(tool) + job.material.temperatureOffset;
      PutHeats(st, [Word('T', tool as real)]);
      PutHeats(st.Put([Word('T', tool as real)]), [M(104), Word('S', s)]);
      SetLine(HeatersAfter(st.lines), 104, s);
    }
  }

  lemma FedSame(job: Job, st: Emitter, amount: real)
    ensures Same(st, Fed(job, st, amount))
  {
    var e := st.e + amount;
    PutSame(st.(e := e), [G(1), E(job.digits(e)), F(job.printer.retractionSpeed)]);
  }

  lemma LiftedSame(job: Job, st: Emitter, z: real)
    ensures Same(st, Lifted(job, st, z))
  {
    PutSame(st, [G(1), Z(z), F(job.printer.travelSpeed)]);
  }

  lemma FanSame(st: Emitter, pct: nat)
    ensures Same(st, FanSet(st, pct))
  {
    PutSame(st, if pct == 0 then [M(107)] else [M(106), Word('S', (pct * 255 / 100) as real)]);
  }

  lemma TravelFollows(job: Job, st: Emitter, to: P2, z: real, retract: bool, hop: bool, next: Option<Move>)
    ensures Follows(job, st, Travelled(job, st, to, z, retract, hop, next))
  {
    hide ToolChanged, Fed, Lifted, HeatersAfter;
    var yes := next.Some? && next.value.Extrude?;
    var st0 := if yes then ToolChanged(job, st, next.value.path.tool) else st;
    if yes {
      ToolFollows(job, st, next.value.path.tool);
    }
    var off := job.printer.offset(st0.tool);
    var st1 := if retract then Fed(job, st0, -job.printer.retraction) else st0;
    FedSame(job, st0, -job.printer.retraction);
    var st2 := if hop then Lifted(job, st1, z + job.printer.zHop) else st1;
    LiftedSame(job, st1, z + job.printer.zHop);
    var st3 := st2.Put([G(0), X(to.x + off.x), Y(to.y + off.y), F(job.printer.travelSpeed)]);
    PutSame(st2, [G(0), X(to.x + off.x), Y(to.y + off.y), F(job.printer.travelSpeed)]);
    var st4 := if hop then Lifted(job, st3, z) else st3;
    LiftedSame(job, st3, z);
    FedSame(job, st4, job.printer.retraction);
  }

  lemma BegunFollows(job: Job, st: Emitter, path: ExtrusionPath)
    requires path.points != []
    ensures Follows(job, st, PathBegun(job, st, path))
  {
    hide ToolChanged, FanSet, HeatersAfter, Apart;
    ToolFollows(job, st, path.tool);
    FanSame(ToolChanged(job, st, path.tool), if path.bridge then 100 else job.material.fan);
    var st1 := FanSet(ToolChanged(job, st, path.tool), if path.bridge then 100 else job.material.fan);
    var off, first := job.printer.offset(st1.tool), Start(path);
    PutSame(st1, [G(1), X(first.x + off.x), Y(first.y + off.y), F(job.printer.travelSpeed)]);
  }

  lemma {:induction false} PointsSame(job: Job, st: Emitter, path: ExtrusionPath, height: real, n: nat)
    requires job.Valid() && 1 <= n <= |path.points|
    ensures Same(st, PointsPrinted(job, st, path, height, n))
  {
    hide HeatersAfter, Amount;
    if n > 1 {
      PointsSame(job, st, path, height, n - 1);
      var st1 := PointsPrinted(job, st, path, height, n - 1);
      var p, off := path.points[n - 1], job.printer.offset(st1.tool);
      var e := st1.e + Amount(job, path, height, job.dist(path.points[n - 2], p));
      PutSame(st1.(e := e), [G(1), X(p.x + off.x), Y(p.y + off.y), E(job.digits(e)), F(Speed(job, path))]);
    }
  }

  lemma StepFollows(job: Job, st: Emitter, step: Step)
    requires job.Valid() && step.Printable()
    ensures Follows(job, st, StepPrinted(job, st, step))
  {
    hide HeatersAfter, Travelled, PathBegun, PointsPrinted, Lifted, LayerHeight;
    match step
    case Begin(z) =>
      PutSame(st, []);
      LiftedSame(job, st.Put([]), z);
    case Do(planZ, Travel(to, z, retract, hop), next) =>
      TravelFollows(job, st, to, z, retract, hop, next);
    case Do(planZ, Extrude(path, z), _) =>
      BegunFollows(job, st, path);
      var st1 := PathBegun(job, st, path);
      PointsSame(job, st1, path, LayerHeight(planZ, st1.lastZ), |path.points|);
  }

  // ----- The whole program

  /** Another tool than the first one has been used. */
  ghost predicate ToolUsed(steps: seq<Step>) {
    exists i :: 0 <= i <= |steps| && ToolAfter(steps[..i]) != 0
  }

  /** What the nozzle is asked to have: the printer's temperature before the first change of tool, and the tool's own after. */
  ghost function NozzleTarget(job: Job, steps: seq<Step>): real {
    (if ToolUsed(steps) then job.printer.toolTemperature(ToolAfter(steps)) else job.printer.nozzle) + job.material.temperatureOffset
  }

  lemma ToolUsedMore(steps: seq<Step>)
    requires steps != []
    ensures ToolUsed(steps) <==> ToolUsed(Rest(steps)) || ToolAfter(steps) != 0
    ensures ToolAfter(Rest(steps)) != 0 ==> ToolUsed(Rest(steps))
  {
    hide ToolAfter;
    var rest := Rest(steps);
    assert forall i | 0 <= i <= |rest| :: rest[..i] == steps[..i];
    assert rest[..|rest|] == rest && steps[..|steps|] == steps;
    if ToolUsed(rest) {
      var i :| 0 <= i <= |rest| && ToolAfter(rest[..i]) != 0;
      assert ToolAfter(steps[..i]) != 0;
    }
    if ToolUsed(steps) && ToolAfter(steps) == 0 {
      var i :| 0 <= i <= |steps| && ToolAfter(steps[..i]) != 0;
      assert ToolAfter(rest[..i]) != 0;
    }
  }

  lemma HeaderHeats(job: Job)
    ensures HeatersAfter(Header(job)) == Heaters(Some(job.printer.nozzle + job.material.temperatureOffset),
                                                 Some(job.printer.bed + job.material.bedOffset))
  {
    var nozzle, bed := job.printer.nozzle + job.material.temperatureOffset, job.printer.bed + job.material.bedOffset;
    var st := Emitter(Header(job)[..10], 0.0, 0, None, None, 0.0);
    PutHeats(st, [M(109), Word('S', nozzle)]);
    PutHeats(st.Put([M(109), Word('S', nozzle)]), [M(190), Word('S', bed)]);
    SetLine(HeatersAfter(st.lines), 109, nozzle);
    SetLine(Heaters(Some(nozzle), HeatersAfter(st.lines).bed), 190, bed);
    assert Header(job) == st.Put([M(109), Word('S', nozzle)]).Put([M(190), Word('S', bed)]).lines;
  }

  lemma NothingRan(job: Job)
    requires job.Valid() && AllPrintable([])
    ensures Ran(job, Started(job), []).lines == Header(job) && !ToolUsed([])
  {
    var none: seq<Step> := [];
    assert none[..0] == none;
  }

  lemma RanMore(job: Job, steps: seq<Step>)
    requires job.Valid() && AllPrintable(steps) && steps != [] && AllPrintable(Rest(steps)) && Last(steps).Printable()
    ensures Ran(job, Started(job), steps) == StepPrinted(job, Ran(job, Started(job), Rest(steps)), Last(steps))
  {
    hide StepPrinted;
  }

  lemma ToolIs(job: Job, steps: seq<Step>)
    requires job.Valid() && AllPrintable(steps)
    ensures Ran(job, Started(job), steps).tool == ToolAfter(steps)
  {
    RunHead(job, steps);
    hide Ran, AllMotions;
  }

  /** After any steps the bed is asked to have its temperature and the nozzle that of the tool in use. */
  lemma {:induction false} HeatedForTool(job: Job, steps: seq<Step>)
    requires job.Valid() && AllPrintable(steps)
    ensures HeatersAfter(Ran(job, Started(job), steps).lines)
            == Heaters(Some(NozzleTarget(job, steps)), Some(job.printer.bed + job.material.bedOffset))
  {
    hide HeatersAfter, StepPrinted, ToolAfter, ToolUsed, Ran, Last, AllPrintable, Header;
    if steps == [] {
      HeaderHeats(job);
      NothingRan(job);
    } else {
      var rest := Rest(steps);
      RestPrintable(steps);
      HeatedForTool(job, rest);
      RanMore(job, steps);
      StepFollows(job, Ran(job, Started(job), rest), Last(steps));
      ToolIs(job, rest);
      ToolIs(job, steps);
      ToolUsedMore(steps);
    }
  }

  /** So the nozzle has the temperature of the tool in use exactly when another tool was used before, or the first tool has
    the printer's own temperature, as it does when it has no entry among the extruders. */
  lemma RightTemperatureIff(job: Job, steps: seq<Step>)
    requires job.Valid() && AllPrintable(steps)
    ensures HeatersAfter(Ran(job, Started(job), steps).lines).nozzle
            == Some(job.printer.toolTemperature(ToolAfter(steps)) + job.material.temperatureOffset)
            <==> ToolUsed(steps) || job.printer.toolTemperature(0) == job.printer.nozzle
  {
    hide HeatersAfter, Ran, ToolAfter;
    HeatedForTool(job, steps);
    assert steps[..|steps|] == steps;
  }

  /** At the end of the program everything is off. */
  lemma EverythingOff(lines: seq<Line>)
    ensures HeatersAfter(lines + Footer()) == Heaters(Some(0.0), Some(0.0))
  {
    hide HeatersAfter, AfterHeating;
    var st := Emitter(lines + [[M(107)]], 0.0, 0, None, None, 0.0);
    var st1 := st.Put([M(104), Word('S', 0.0)]);
    var st2 := st1.Put([M(140), Word('S', 0.0)]);
    PutHeats(st, [M(104), Word('S', 0.0)]);
    PutHeats(st1, [M(140), Word('S', 0.0)]);
    SetLine(HeatersAfter(st.lines), 104, 0.0);
    SetLine(HeatersAfter(st1.lines), 140, 0.0);
    PutHeats(st2, [G(1), Z(300.0), Word('F', 300.0)]);
    PutHeats(st2.Put([G(1), Z(300.0), Word('F', 300.0)]), [M(84)]);
    assert lines + Footer() == st2.Put([G(1), Z(300.0), Word('F', 300.0)]).Put([M(84)]).lines;
  }
}
