/** Sums of squares of magnitudes. */
module Magnitudes {
  function Size(x: real): real {
    if x < 0.0 then -x else x
  }

  /** A sum of squares below a square bounds every magnitude, and is met when the sum of the magnitudes is below. */
  lemma SquaresBelow(u: real, v: real, w: real, r: real)
    requires u >= 0.0 && v >= 0.0 && w >= 0.0 && r > 0.0
    ensures u * u + v * v + w * w < r * r ==> u < r && v < r && w < r
    ensures u + v + w < r ==> u * u + v * v + w * w < r * r
  {
    SquareNotNegative(u);
    SquareNotNegative(v);
    SquareNotNegative(w);
    if u >= r {
      Grows(r, u);
    }
    if v >= r {
      Grows(r, v);
    }
    if w >= r {
      Grows(r, w);
    }
    if u + v + w < r {
      SquareOfSum(u, v, w);
      GrowsStrictly(u + v + w, r);
    }
  }

  lemma SquareNotNegative(u: real)
    ensures u * u >= 0.0
  {
  }

  lemma SquareOfSum(u: real, v: real, w: real)
    requires u >= 0.0 && v >= 0.0 && w >= 0.0
    ensures u * u + v * v + w * w <= (u + v + w) * (u + v + w)
  {
    NotNegative(u, v);
    NotNegative(u, w);
    NotNegative(v, w);
    assert (u + v + w) * (u + v + w) == u * u + v * v + w * w + 2.0 * (u * v) + 2.0 * (u * w) + 2.0 * (v * w);
  }

  lemma NotNegative(u: real, v: real)
    requires u >= 0.0 && v >= 0.0
    ensures u * v >= 0.0
    ensures u > 0.0 && v > 0.0 ==> u * v > 0.0
  {
  }

  lemma Grows(u: real, v: real)
    requires 0.0 <= u <= v
    ensures u * u <= v * v
  {
    assert v * v - u * u == (v - u) * (v + u);
    NotNegative(v - u, v + u);
  }

  lemma GrowsStrictly(u: real, v: real)
    requires 0.0 <= u < v
    ensures u * u < v * v
  {
    var d, t := v - u, v + u;
    NotNegative(d, t);
    assert d * t == v * v - u * u;
  }
}
