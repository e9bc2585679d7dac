/** Points of a slicing plane (tpt-vertex-slicer/src/layers.rs). */
module Planar {
  import opened Magnitudes

  datatype P2 = P2(x: real, y: real)

  /** The square of the distance. */
  function Gap(p: P2, q: P2): real {
    (p.x - q.x) * (p.x - q.x) + (p.y - q.y) * (p.y - q.y)
  }

  /** Nearer than `r` means nearer along both axes, and is met by points nearer than `r` by the sum along both axes. */
  lemma NearAlongAxes(p: P2, q: P2, r: real)
    requires r > 0.0
    ensures Gap(p, q) < r * r ==> Size(p.x - q.x) < r && Size(p.y - q.y) < r
    ensures Size(p.x - q.x) + Size(p.y - q.y) < r ==> Gap(p, q) < r * r
  {
    SquaresBelow(Size(p.x - q.x), Size(p.y - q.y), 0.0, r);
  }
}
