/**
 * `CulculateVertexPosition`: the point on an edge where the surface crosses
 * it, estimated from the samples at the edge's two ends. Floats are modelled
 * as reals, so the arithmetic is exact and no rounding is modelled. The
 * generator's `isolevel` field, which the source reads, is a parameter here.
 */
module Interpolation {
  import opened Vectors

  /** The threshold below which two values count as equal. */
  const Epsilon: real := 0.0001

  /** `Mathf.Abs`. */
  function AbsReal(r: real): real
  {
    if r < 0.0 then -r else r
  }

  /**
   * The vertex on the edge from `vertex1` (sample `value1`) to `vertex2`
   * (sample `value2`): an endpoint whose sample is within `Epsilon` of the
   * isolevel, else `vertex1` when the samples are within `Epsilon` of each
   * other, else the linear estimate of the crossing point.
   */
  function CalculateVertexPosition(isolevel: real, vertex1: Vec3, value1: real, vertex2: Vec3, value2: real): Vec3
  {
    if AbsReal(isolevel - value1) < Epsilon then vertex1
    else if AbsReal(isolevel - value2) < Epsilon then vertex2
    else if AbsReal(value1 - value2) < Epsilon then vertex1
    else Add(vertex1, Div(Scale(isolevel - value1, Sub(vertex2, vertex1)), value2 - value1))
  }

  /** Neither sample is near the isolevel and the samples are not near each other. */
  predicate Separated(isolevel: real, value1: real, value2: real)
  {
    && AbsReal(isolevel - value1) >= Epsilon
    && AbsReal(isolevel - value2) >= Epsilon
    && AbsReal(value1 - value2) >= Epsilon
  }

  /** The isolevel lies between the two samples, inclusive. */
  predicate Between(isolevel: real, value1: real, value2: real)
  {
    (value1 <= isolevel <= value2) || (value2 <= isolevel <= value1)
  }

  /** Scaling a vector and then dividing it is scaling it by the quotient. */
  lemma DivOfScale(s: real, v: Vec3, d: real)
    requires d != 0.0
    ensures Div(Scale(s, v), d) == Scale(s / d, v)
  {
    assert (s * v.x) / d == (s / d) * v.x;
    assert (s * v.y) / d == (s / d) * v.y;
    assert (s * v.z) / d == (s / d) * v.z;
  }

  /**
   * When neither endpoint snaps and the edge is not flat, the division is by
   * a value at least `Epsilon` away from zero, and the result is the point a
   * fraction t along the edge, where t is exactly the fraction at which the
   * linear interpolation of the two samples reaches the isolevel.
   */
  lemma CrossingPoint(isolevel: real, vertex1: Vec3, value1: real, vertex2: Vec3, value2: real)
    requires Separated(isolevel, value1, value2)
    ensures AbsReal(value2 - value1) >= Epsilon
    ensures var t := (isolevel - value1) / (value2 - value1);
      && value1 + t * (value2 - value1) == isolevel
      && CalculateVertexPosition(isolevel, vertex1, value1, vertex2, value2) == Lerp(vertex1, vertex2, t)
  {
    assert value2 - value1 != 0.0;
    DivOfScale(isolevel - value1, Sub(vertex2, vertex1), value2 - value1);
  }

  /** A quotient of a non-negative value by a larger positive one is in [0, 1]. */
  lemma UnitFraction(a: real, d: real)
    requires 0.0 < d && 0.0 <= a <= d
    ensures 0.0 <= a / d <= 1.0
  {
    assert (a / d) * d == a;
  }

  /** Negating numerator and denominator keeps a quotient. */
  lemma NegateBoth(a: real, d: real)
    requires d != 0.0
    ensures a / d == (-a) / (-d)
  {
  }

  /** A product with a non-zero factor is zero only when the other factor is. */
  lemma ZeroFactor(e: real, d: real)
    requires e * d == 0.0 && d != 0.0
    ensures e == 0.0
  {
  }

  /** One minus a quotient, over the same denominator. */
  lemma OneMinusQuotient(a: real, d: real)
    requires d != 0.0
    ensures 1.0 - a / d == (d - a) / d
  {
    var q, r := a / d, (d - a) / d;
    assert q * d == a && r * d == d - a;
    assert (1.0 - q - r) * d == 0.0;
    ZeroFactor(1.0 - q - r, d);
  }

  /** When the isolevel lies between the samples, the fraction along the edge is in [0, 1]. */
  lemma FractionInUnitInterval(isolevel: real, value1: real, value2: real)
    requires Between(isolevel, value1, value2) && value1 != value2
    ensures 0.0 <= (isolevel - value1) / (value2 - value1) <= 1.0
  {
    if value1 < value2 {
      UnitFraction(isolevel - value1, value2 - value1);
    } else {
      NegateBoth(isolevel - value1, value2 - value1);
      UnitFraction(value1 - isolevel, value1 - value2);
    }
  }

  /** The points `Lerp` gives for fractions 0 and 1 are the edge's ends. */
  lemma LerpEnds(a: Vec3, b: Vec3)
    ensures Lerp(a, b, 0.0) == a && Lerp(a, b, 1.0) == b
  {
  }

  /**
   * Whenever the isolevel lies between the two samples, the vertex lies on
   * the edge: in every branch it is the point some fraction t in [0, 1] of
   * the way from `vertex1` to `vertex2`.
   */
  lemma VertexOnEdge(isolevel: real, vertex1: Vec3, value1: real, vertex2: Vec3, value2: real)
    requires Between(isolevel, value1, value2)
    ensures exists t ::
      && 0.0 <= t <= 1.0
      && CalculateVertexPosition(isolevel, vertex1, value1, vertex2, value2) == Lerp(vertex1, vertex2, t)
  {
    var r := CalculateVertexPosition(isolevel, vertex1, value1, vertex2, value2);
    LerpEnds(vertex1, vertex2);
    if AbsReal(isolevel - value1) < Epsilon || AbsReal(value1 - value2) < Epsilon {
      assert r == Lerp(vertex1, vertex2, 0.0);
    } else if AbsReal(isolevel - value2) < Epsilon {
      assert r == Lerp(vertex1, vertex2, 1.0);
    } else {
      CrossingPoint(isolevel, vertex1, value1, vertex2, value2);
      FractionInUnitInterval(isolevel, value1, value2);
      var t := (isolevel - value1) / (value2 - value1);
      assert r == Lerp(vertex1, vertex2, t);
    }
  }

  /**
   * The two cases where the order of the endpoints matters: both samples
   * are near the isolevel (the first endpoint wins), or neither is and the
   * samples are near each other (the flat-edge fallback picks the first).
   */
  predicate OrderMatters(isolevel: real, value1: real, value2: real)
  {
    var near1 := AbsReal(isolevel - value1) < Epsilon;
    var near2 := AbsReal(isolevel - value2) < Epsilon;
    (near1 && near2) || (!near1 && !near2 && AbsReal(value1 - value2) < Epsilon)
  }

  /**
   * Outside those two cases the estimate does not depend on which end of
   * the edge is passed first: a single snapping endpoint is returned either
   * way, and the linear estimate is the same point from both ends.
   */
  lemma CrossingSymmetric(isolevel: real, vertex1: Vec3, value1: real, vertex2: Vec3, value2: real)
    requires !OrderMatters(isolevel, value1, value2)
    ensures CalculateVertexPosition(isolevel, vertex1, value1, vertex2, value2)
         == CalculateVertexPosition(isolevel, vertex2, value2, vertex1, value1)
  {
    if Separated(isolevel, value1, value2) {
      CrossingPoint(isolevel, vertex1, value1, vertex2, value2);
      CrossingPoint(isolevel, vertex2, value2, vertex1, value1);
      var t := (isolevel - value1) / (value2 - value1);
      var u := (isolevel - value2) / (value1 - value2);
      OneMinusQuotient(isolevel - value1, value2 - value1);
      NegateBoth(isolevel - value2, value1 - value2);
      assert u == 1.0 - t;
      LerpReversed(vertex1, vertex2, t);
    }
  }

  /** Going a fraction 1 - t back from the far end reaches the same point. */
  lemma LerpReversed(a: Vec3, b: Vec3, t: real)
    ensures Lerp(b, a, 1.0 - t) == Lerp(a, b, t)
  {
  }

  /**
   * A sample exactly at the isolevel puts the vertex on its corner: the
   * first corner always, the second when the first is not near the
   * isolevel.
   */
  lemma SampleOnSurface(isolevel: real, vertex1: Vec3, value1: real, vertex2: Vec3, value2: real)
    ensures value1 == isolevel ==> CalculateVertexPosition(isolevel, vertex1, value1, vertex2, value2) == vertex1
    ensures value2 == isolevel && AbsReal(isolevel - value1) >= Epsilon ==>
      CalculateVertexPosition(isolevel, vertex1, value1, vertex2, value2) == vertex2
  {
  }
}
