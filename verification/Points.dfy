/** Points and directions in space (tpt-vertex-kernel/src/math.rs, and the
  coordinate triples of the simulation). */
module Points {
  datatype Point = Point(x: real, y: real, z: real)
  {
    function Minus(o: Point): Point { Point(x - o.x, y - o.y, z - o.z) }
    function Plus(o: Point): Point { Point(x + o.x, y + o.y, z + o.z) }
    function Scaled(s: real): Point { Point(s * x, s * y, s * z) }
    function DotWith(o: Point): real { x * o.x + y * o.y + z * o.z }
  }

  const ORIGIN := Point(0.0, 0.0, 0.0)

  function SquaredDistance(p: Point, q: Point): real {
    var d := p.Minus(q);
    d.DotWith(d)
  }
}
