/** The height of the beads a program extrudes. The source says that it is the thickness of the layer
  (tpt-vertex-slicer/src/gcode.rs:227-228); it is so only for the first path of each layer. */
module Beads {
  import opened Options
  import opened Planar
  import opened Toolpaths
  import opened GcodeChecks
  import opened GcodeEmission
  import opened GcodeVerdicts
  import opened HeadPaths
  import opened HeadDrawings

  /** The height of the last layer in which anything moves; the bed is at height 0. */
  function ZBelow(plans: seq<LayerPlan>): real {
    if plans == [] then 0.0
    else if plans[|plans| - 1].moves == [] then ZBelow(plans[..|plans| - 1])
    else plans[|plans| - 1].z
  }

  lemma LastZInLayer(before: seq<Step>, plan: LayerPlan, k: nat)
    requires Level(plan) && k <= |plan.moves|
    ensures LastZ(UpToMove(before, plan, k)) == if k == 0 then LastZ(before) else plan.z
  {
    hide UpToMove;
    UpToMoreMoves(before, plan, k);
    var all := UpToMove(before, plan, k);
    assert LastZ(all) == if Last(all).Begin? then LastZ(Rest(all)) else Last(all).move.z;
  }

  lemma {:induction false} LastZOfLayers(plans: seq<LayerPlan>)
    requires forall i | 0 <= i < |plans| :: Level(plans[i])
    ensures LastZ(AllSteps(plans)) == ZBelow(plans)
  {
    if plans != [] {
      var rest, last := plans[..|plans| - 1], plans[|plans| - 1];
      LastZOfLayers(rest);
      LastZInLayer(AllSteps(rest), last, |last.moves|);
      assert StepsOf(last)[..|last.moves| + 1] == StepsOf(last);
      assert UpToMove(AllSteps(rest), last, |last.moves|) == AllSteps(plans);
    }
  }

  /** How far a layer is above the one below it. */
  function Thickness(plans: seq<LayerPlan>, i: nat): real
    requires i < |plans|
  {
    var below := ZBelow(plans[..i]);
    if plans[i].z < below then below - plans[i].z else plans[i].z - below
  }

  /** The height of the bead of the `k`-th move of the `i`-th layer, as the emitter computes it. */
  function BeadHeight(plans: seq<LayerPlan>, i: nat, k: nat): real
    requires i < |plans| && k < |plans[i].moves|
  {
    LayerHeight(plans[i].z, LastZ(UpToMove(AllSteps(plans[..i]), plans[i], k)))
  }

  /** Only the first move of a layer gets a bead of the layer's thickness; every other one gets 0.01. */
  lemma BeadHeightIs(plans: seq<LayerPlan>, i: nat, k: nat)
    requires (forall j | 0 <= j < |plans| :: Level(plans[j])) && i < |plans| && k < |plans[i].moves|
    ensures BeadHeight(plans, i, k) == if k == 0 && Thickness(plans, i) >= 0.01 then Thickness(plans, i) else 0.01
  {
    hide UpToMove;
    LastZOfLayers(plans[..i]);
    LastZInLayer(AllSteps(plans[..i]), plans[i], k);
  }

  /** The bead has the layer's thickness exactly for the first move of a layer at least 0.01 thick, and for layers of that
    very thickness. */
  lemma BeadHeightMeansThicknessIff(plans: seq<LayerPlan>, i: nat, k: nat)
    requires (forall j | 0 <= j < |plans| :: Level(plans[j])) && i < |plans| && k < |plans[i].moves|
    ensures BeadHeight(plans, i, k) == Thickness(plans, i)
            <==> (k == 0 && Thickness(plans, i) > 0.01) || Thickness(plans, i) == 0.01
  {
    BeadHeightIs(plans, i, k);
  }

  /** The filament for a path is that of its length in beads of this height. */
  lemma FilamentOfMove(job: Job, plans: seq<LayerPlan>, i: nat, k: nat)
    requires job.Valid() && (forall j | 0 <= j < |plans| :: Level(plans[j])) && i < |plans| && k < |plans[i].moves|
    requires plans[i].moves[k].Extrude? && plans[i].moves[k].path.points != []
    ensures var path, step := plans[i].moves[k].path, StepsOf(plans[i])[k + 1];
            var height := if k == 0 && Thickness(plans, i) >= 0.01 then Thickness(plans, i) else 0.01;
            && step.Printable()
            && StepAmount(job, step, LastZ(UpToMove(AllSteps(plans[..i]), plans[i], k))) == PathAmount(job, path, height, |path.points|)
  {
    BeadHeightIs(plans, i, k);
    hide UpToMove, PathAmount, LastZ, LayerHeight;
  }
}
