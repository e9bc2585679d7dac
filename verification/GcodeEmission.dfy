/** Emitting G-code for layer plans (tpt-vertex-slicer/src/gcode.rs): the extrusion,
  tool and fan state machine, its extrusion balance, and its agreement with the
  validator. Distances and the four-decimal printing of E values are parameters. */
module GcodeEmission {
  import opened Options
  import opened Planar
  import opened Toolpaths
  import opened GcodeChecks

  datatype Printer = Printer(travelSpeed: real, printSpeed: real, bridgeSpeed: real, retraction: real, retractionSpeed: real,
                             zHop: real, width: real, filamentArea: real, nozzle: real, bed: real,
                             offset: nat -> P2, toolTemperature: nat -> real)

  /** `fan` is the clamped cooling percentage. */
  datatype Material = Material(flowRatio: real, temperatureOffset: real, bedOffset: real, fan: nat)

  datatype Job = Job(printer: Printer, material: Material, digits: real -> real, dist: (P2, P2) -> real)
  {
    predicate Valid() {
      printer.filamentArea != 0.0
    }
  }

  /** The emitter's variables. */
  datatype Emitter = Emitter(lines: seq<Line>, e: real, tool: nat, fan: Option<nat>, last: Option<P2>, lastZ: real)
  {
    function Put(line: Line): Emitter {
      this.(lines := lines + [line])
    }
  }

  function F(speed: real): Token {
    Word('F', speed * 60.0)
  }

  function Header(job: Job): seq<Line> {
    var nozzle, bed := job.printer.nozzle + job.material.temperatureOffset, job.printer.bed + job.material.bedOffset;
    [[], [], [], [G(90)], [M(82)], [G(21)], [M(104), Word('S', nozzle)], [M(140), Word('S', bed)], [G(28)],
     [G(1), Z(0.2), Word('F', 300.0)], [M(109), Word('S', nozzle)], [M(190), Word('S', bed)]]
  }

  function Footer(): seq<Line> {
    [[M(107)], [M(104), Word('S', 0.0)], [M(140), Word('S', 0.0)], [G(1), Z(300.0), Word('F', 300.0)], [M(84)]]
  }

  // ----- The moves

  function FanSet(st: Emitter, pct: nat): Emitter {
    if st.fan == Some(pct) then st
    else st.Put(if pct == 0 then [M(107)] else [M(106), Word('S', (pct * 255 / 100) as real)]).(fan := Some(pct))
  }

  function ToolChanged(job: Job, st: Emitter, tool: nat): Emitter {
    if st.tool == tool then st
    else st.Put([Word('T', tool as real)])
           .Put([M(104), Word('S', job.printer.toolTemperature(tool) + job.material.temperatureOffset)]).(tool := tool)
  }

  /** Extrude by `amount` without moving. */
  function Fed(job: Job, st: Emitter, amount: real): Emitter {
    var e := st.e + amount;
    st.(e := e).Put([G(1), E(job.digits(e)), F(job.printer.retractionSpeed)])
  }

  function Lifted(job: Job, st: Emitter, z: real): Emitter {
    st.Put([G(1), Z(z), F(job.printer.travelSpeed)])
  }

  function Travelled(job: Job, st: Emitter, to: P2, z: real, retract: bool, hop: bool, next: Option<Move>): Emitter {
    var st0 := if next.Some? && next.value.Extrude? then ToolChanged(job, st, next.value.path.tool) else st;
    var off := job.printer.offset(st0.tool);
    var st1 := if retract then Fed(job, st0, -job.printer.retraction) else st0;
    var st2 := if hop then Lifted(job, st1, z + job.printer.zHop) else st1;
    var st3 := st2.Put([G(0), X(to.x + off.x), Y(to.y + off.y), F(job.printer.travelSpeed)]);
    var st4 := if hop then Lifted(job, st3, z) else st3;
    var st5 := if retract then Fed(job, st4, job.printer.retraction) else st4;
    st5.(last := Some(to), lastZ := z)
  }

  function Speed(job: Job, path: ExtrusionPath): real {
    if path.bridge then job.printer.bridgeSpeed else job.printer.printSpeed
  }

  /** Tool, fan, and the approach to the first point. */
  function PathBegun(job: Job, st: Emitter, path: ExtrusionPath): Emitter
    requires path.points != []
  {
    var st1 := FanSet(ToolChanged(job, st, path.tool), if path.bridge then 100 else job.material.fan);
    var off, first := job.printer.offset(st1.tool), Start(path);
    if st1.last.Some? && !Apart(st1.last.value, first) then st1
    else st1.Put([G(1), X(first.x + off.x), Y(first.y + off.y), F(job.printer.travelSpeed)])
  }

  /** The filament for one straight stretch: bead cross-section times length over filament area, times the flow ratio. */
  function Amount(job: Job, path: ExtrusionPath, layerHeight: real, d: real): real
    requires job.Valid()
  {
    var width := if path.width.Some? then path.width.value else job.printer.width;
    width * layerHeight * d / job.printer.filamentArea * job.material.flowRatio
  }

  const TOUCHING: real := 0.000000001

  function PointPrinted(job: Job, st: Emitter, path: ExtrusionPath, layerHeight: real, prev: P2, p: P2): Emitter
    requires job.Valid()
  {
    var d := job.dist(prev, p);
    if d < TOUCHING then st
    else
      var e, off := st.e + Amount(job, path, layerHeight, d), job.printer.offset(st.tool);
      st.(e := e).Put([G(1), X(p.x + off.x), Y(p.y + off.y), E(job.digits(e)), F(Speed(job, path))])
  }

  function PointsPrinted(job: Job, st: Emitter, path: ExtrusionPath, layerHeight: real, n: nat): Emitter
    requires job.Valid() && 1 <= n <= |path.points|
  {
    if n == 1 then st
    else PointPrinted(job, PointsPrinted(job, st, path, layerHeight, n - 1), path, layerHeight, path.points[n - 2], path.points[n - 1])
  }

  /** The bead is as high as the layer, measured from the last Z, and at least 0.01. */
  function LayerHeight(planZ: real, lastZ: real): (h: real)
    ensures h >= 0.01 && h >= planZ - lastZ && h >= lastZ - planZ && (h == 0.01 || h == planZ - lastZ || h == lastZ - planZ)
  {
    var h := if planZ < lastZ then lastZ - planZ else planZ - lastZ;
    if h < 0.01 then 0.01 else h
  }

  function PathPrinted(job: Job, st: Emitter, path: ExtrusionPath, planZ: real, z: real): Emitter
    requires job.Valid() && path.points != []
  {
    var st1 := PathBegun(job, st, path);
    PointsPrinted(job, st1, path, LayerHeight(planZ, st1.lastZ), |path.points|).(last := Some(End(path)), lastZ := z)
  }

  // ----- The program

  /** What the emitter does in order: begin a layer, or perform a move, knowing the next one. */
  datatype Step = Begin(z: real) | Do(planZ: real, move: Move, next: Option<Move>)
  {
    predicate Printable() {
      Do? && move.Extrude? ==> move.path.points != []
    }
  }

  ghost predicate AllPrintable(steps: seq<Step>) {
    forall i | 0 <= i < |steps| :: steps[i].Printable()
  }

  function NextOf(moves: seq<Move>, k: nat): Option<Move> {
    if k + 1 < |moves| then Some(moves[k + 1]) else None
  }

  function StepsOf(plan: LayerPlan): (steps: seq<Step>)
    ensures |steps| == |plan.moves| + 1
  {
    [Begin(plan.z)] + seq(|plan.moves|, k requires 0 <= k < |plan.moves| => Do(plan.z, plan.moves[k], NextOf(plan.moves, k)))
  }

  function AllSteps(plans: seq<LayerPlan>): seq<Step> {
    if plans == [] then [] else AllSteps(plans[..|plans| - 1]) + StepsOf(plans[|plans| - 1])
  }

  function StepPrinted(job: Job, st: Emitter, step: Step): Emitter
    requires job.Valid() && step.Printable()
  {
    match step
    case Begin(z) => Lifted(job, st.Put([]), z)
    case Do(planZ, move, next) =>
      match move
      case Travel(to, z, retract, hop) => Travelled(job, st, to, z, retract, hop, next)
      case Extrude(path, z) => PathPrinted(job, st, path, planZ, z)
  }

  function Ran(job: Job, st: Emitter, steps: seq<Step>): Emitter
    requires job.Valid() && AllPrintable(steps)
    decreases |steps|
  {
    if steps == [] then st else StepPrinted(job, Ran(job, st, steps[..|steps| - 1]), steps[|steps| - 1])
  }

  function Started(job: Job): Emitter {
    Emitter(Header(job), 0.0, 0, None, None, 0.0)
  }

  function Program(job: Job, plans: seq<LayerPlan>): seq<Line>
    requires job.Valid() && AllPrintable(AllSteps(plans))
  {
    Ran(job, Started(job), AllSteps(plans)).lines + Footer()
  }

  // ----- The emitter

  method EmitPath(job: Job, st: Emitter, path: ExtrusionPath, planZ: real, z: real) returns (st': Emitter)
    requires job.Valid() && path.points != []
    ensures st' == PathPrinted(job, st, path, planZ, z)
  {
    hide PointPrinted, PathBegun, LayerHeight;
    st' := PathBegun(job, st, path);
    ghost var begun := st';
    var layerHeight := LayerHeight(planZ, st'.lastZ);
    var prev := path.points[0];
    var k := 1;
    while k < |path.points|
      invariant 1 <= k <= |path.points| && prev == path.points[k - 1]
      invariant st' == PointsPrinted(job, begun, path, layerHeight, k)
    {
      st' := PointPrinted(job, st', path, layerHeight, prev, path.points[k]);
      prev := path.points[k];
      k := k + 1;
    }
    st' := st'.(last := Some(End(path)), lastZ := z);
  }

  lemma RanMore(job: Job, st: Emitter, steps: seq<Step>, step: Step)
    requires job.Valid() && AllPrintable(steps) && step.Printable()
    ensures AllPrintable(steps + [step]) && Ran(job, st, steps + [step]) == StepPrinted(job, Ran(job, st, steps), step)
  {
    assert (steps + [step])[..|steps|] == steps;
  }

  method EmitStep(job: Job, st: Emitter, step: Step, ghost start: Emitter, ghost done: seq<Step>) returns (st': Emitter)
    requires job.Valid() && step.Printable() && AllPrintable(done) && st == Ran(job, start, done)
    ensures AllPrintable(done + [step]) && st' == Ran(job, start, done + [step])
  {
    RanMore(job, start, done, step);
    hide Ran, Travelled, PathPrinted, Lifted;
    match step {
      case Begin(z) => st' := Lifted(job, st.Put([]), z);
      case Do(planZ, move, next) =>
        match move {
          case Travel(to, z, retract, hop) => st' := Travelled(job, st, to, z, retract, hop, next);
          case Extrude(path, z) => st' := EmitPath(job, st, path, planZ, z);
        }
    }
  }

  lemma StepsDone(plan: LayerPlan, done: seq<Step>, k: nat)
    requires k < |plan.moves|
    ensures done + StepsOf(plan)[..k + 1] + [Do(plan.z, plan.moves[k], NextOf(plan.moves, k))] == done + StepsOf(plan)[..k + 2]
  {
  }

  lemma StepsBegun(plan: LayerPlan, done: seq<Step>)
    ensures done + [Begin(plan.z)] == done + StepsOf(plan)[..1]
    ensures done + StepsOf(plan)[..|plan.moves| + 1] == done + StepsOf(plan)
  {
  }

  lemma PrintableStep(plan: LayerPlan, k: nat)
    requires k < |plan.moves| && AllPrintable(StepsOf(plan))
    ensures Do(plan.z, plan.moves[k], NextOf(plan.moves, k)).Printable()
  {
    assert StepsOf(plan)[k + 1] == Do(plan.z, plan.moves[k], NextOf(plan.moves, k));
  }

  method EmitPlan(job: Job, st: Emitter, plan: LayerPlan, ghost start: Emitter, ghost done: seq<Step>) returns (st': Emitter)
    requires job.Valid() && AllPrintable(done) && st == Ran(job, start, done) && AllPrintable(StepsOf(plan))
    ensures AllPrintable(done + StepsOf(plan)) && st' == Ran(job, start, done + StepsOf(plan))
  {
    hide Ran, StepsOf, AllPrintable, NextOf;
    st' := EmitStep(job, st, Begin(plan.z), start, done);
    StepsBegun(plan, done);
    ghost var now := done + StepsOf(plan)[..1];
    var k := 0;
    while k < |plan.moves|
      invariant 0 <= k <= |plan.moves| && now == done + StepsOf(plan)[..k + 1]
      invariant AllPrintable(now) && st' == Ran(job, start, now)
    {
      PrintableStep(plan, k);
      st' := EmitStep(job, st', Do(plan.z, plan.moves[k], NextOf(plan.moves, k)), start, now);
      StepsDone(plan, done, k);
      now := done + StepsOf(plan)[..k + 2];
      k := k + 1;
    }
  }

  lemma StepsOfMore(plans: seq<LayerPlan>, i: nat)
    requires i < |plans|
    ensures AllSteps(plans[..i + 1]) == AllSteps(plans[..i]) + StepsOf(plans[i])
  {
    assert plans[..i + 1][..i] == plans[..i];
  }

  lemma {:induction false} PrintablePlan(plans: seq<LayerPlan>, i: nat)
    requires i < |plans| && AllPrintable(AllSteps(plans))
    ensures AllPrintable(StepsOf(plans[i]))
    decreases |plans|
  {
    var rest, last := AllSteps(plans[..|plans| - 1]), StepsOf(plans[|plans| - 1]);
    assert forall k | 0 <= k < |last| :: last[k] == AllSteps(plans)[|rest| + k];
    if i < |plans| - 1 {
      assert forall k | 0 <= k < |rest| :: rest[k] == AllSteps(plans)[k];
      PrintablePlan(plans[..|plans| - 1], i);
    }
  }

  /** The whole program. */
  method EmitGcode(job: Job, plans: seq<LayerPlan>) returns (lines: seq<Line>, e: real)
    requires job.Valid() && AllPrintable(AllSteps(plans))
    ensures lines == Program(job, plans) && e == Ran(job, Started(job), AllSteps(plans)).e
  {
    var st := Started(job);
    ghost var start := st;
    var i := 0;
    assert AllSteps(plans[..0]) == [];
    while i < |plans|
      invariant 0 <= i <= |plans|
      invariant AllPrintable(AllSteps(plans[..i])) && st == Ran(job, start, AllSteps(plans[..i]))
    {
      PrintablePlan(plans, i);
      StepsOfMore(plans, i);
      hide Ran, AllPrintable, StepsOf, AllSteps;
      st := EmitPlan(job, st, plans[i], start, AllSteps(plans[..i]));
      i := i + 1;
    }
    assert plans[..i] == plans;
    lines, e := st.lines + Footer(), st.e;
  }
}
