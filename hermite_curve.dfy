/** HermiteCurve.py: a list of (point, tangent) pairs and one coefficient matrix per
    segment between consecutive pairs, each the geometry matrix times the Hermite basis;
    a segment is evaluated as a cubic in `t`. */
module HermiteCurve {
  import opened Linear
  import opened Cubics

  /** The Hermite constraint matrix: its columns send a cubic's coefficients
      `(a, b, c, d)` of `a t^3 + b t^2 + c t + d` to `p(0), p(1), p'(0), p'(1)`. */
  const HermiteA: Mat4 := Mat4(Vec4(0.0, 1.0, 0.0, 3.0), Vec4(0.0, 1.0, 0.0, 2.0),
                               Vec4(0.0, 1.0, 1.0, 1.0), Vec4(1.0, 1.0, 0.0, 0.0))

  /** `B_Hermite`, the inverse of `HermiteA`, written out exactly. */
  const HermiteB: Mat4 := Mat4(Vec4(2.0, -3.0, 0.0, 1.0), Vec4(-2.0, 3.0, 0.0, 0.0),
                               Vec4(1.0, -2.0, 1.0, 0.0), Vec4(1.0, -1.0, 0.0, 0.0))

  /** `B_Hermite` is the inverse of the constraint matrix, on both sides. */
  lemma HermiteBasisInverts(b: Mat4, a: Mat4)
    requires b == HermiteB && a == HermiteA
    ensures MatMul(b, a) == Identity && MatMul(a, b) == Identity
  {
    BasisTimesConstraints(b);
    ConstraintsTimesBasis(a);
  }

  /** The products, each over one named matrix so that the arithmetic is done once. */
  lemma BasisTimesConstraints(b: Mat4)
    requires b == HermiteB
    ensures MatMul(b, HermiteA) == Identity
  {
  }

  lemma ConstraintsTimesBasis(a: Mat4)
    requires a == HermiteA
    ensures MatMul(a, HermiteB) == Identity
  {
  }

  /** `B` applied to `[t^3, t^2, t, 1]` and `[3 t^2, 2 t, 1, 0]` at `t = 0` and `t = 1`
      picks out the four unit vectors. */
  lemma BasisAtEndpoints(b: Mat4)
    requires b == HermiteB
    ensures MatVec(b, Powers(0.0)) == E0 && MatVec(b, Powers(1.0)) == E1
    ensures MatVec(b, PowersDerivative(0.0)) == E2 && MatVec(b, PowersDerivative(1.0)) == E3
  {
    PointAtZero(b);
    PointAtOne(b);
    TangentAtZero(b);
    TangentAtOne(b);
  }

  lemma PointAtZero(b: Mat4)
    requires b == HermiteB
    ensures MatVec(b, Powers(0.0)) == E0
  {
  }

  lemma PointAtOne(b: Mat4)
    requires b == HermiteB
    ensures MatVec(b, Powers(1.0)) == E1
  {
  }

  lemma TangentAtZero(b: Mat4)
    requires b == HermiteB
    ensures MatVec(b, PowersDerivative(0.0)) == E2
  {
  }

  lemma TangentAtOne(b: Mat4)
    requires b == HermiteB
    ensures MatVec(b, PowersDerivative(1.0)) == E3
  {
  }

  /** A data point: a point and the tangent there. */
  datatype PointTangent = PointTangent(p: Vec3, m: Vec3)

  /** A 3x4 coefficient matrix, one row per coordinate. */
  datatype Coeffs = Coeffs(rx: Vec4, ry: Vec4, rz: Vec4)

  /** `g_hermite * B_Hermite`, where `g_hermite` has the columns `p0, p1, m0, m1`. */
  function SegmentCoeffs(a: PointTangent, b: PointTangent): Coeffs
  {
    Coeffs(VecMat(Vec4(a.p.x, b.p.x, a.m.x, b.m.x), HermiteB),
           VecMat(Vec4(a.p.y, b.p.y, a.m.y, b.m.y), HermiteB),
           VecMat(Vec4(a.p.z, b.p.z, a.m.z, b.m.z), HermiteB))
  }

  /** The coefficient list of a data list: one matrix per consecutive pair, built as
      each point is appended. */
  function CoeffList(points: seq<PointTangent>): seq<Coeffs>
  {
    if |points| < 2 then []
    else CoeffList(points[..|points| - 1]) + [SegmentCoeffs(points[|points| - 2], points[|points| - 1])]
  }

  /** There are `max(n - 1, 0)` segments, segment `k` joining points `k` and `k + 1`. */
  lemma {:induction false} CoeffListShape(points: seq<PointTangent>)
    ensures |CoeffList(points)| == (if |points| >= 1 then |points| - 1 else 0)
    ensures forall k :: 0 <= k < |CoeffList(points)| ==> CoeffList(points)[k] == SegmentCoeffs(points[k], points[k + 1])
  {
    if |points| >= 2 {
      var init := points[..|points| - 1];
      CoeffListShape(init);
      assert forall k :: 0 <= k < |init| ==> init[k] == points[k];
    }
  }

  function Apply(c: Coeffs, v: Vec4): Vec3
  {
    Vec3(Dot4(c.rx, v), Dot4(c.ry, v), Dot4(c.rz, v))
  }

  /** What `evaluate_curve_segment` returns: a point and tangent, `None` for a curve
      without segments, or the IndexError of a segment number out of range. */
  datatype Evaluation = Segment(point: Vec3, tangent: Vec3) | NoSegment | OutOfRange

  /** `evaluate_curve_segment` on a coefficient list. Python indexing lets a negative
      segment number count from the end. */
  function EvaluateSegment(coeffs: seq<Coeffs>, segNo: int, t: real): (r: Evaluation)
    ensures r.NoSegment? <==> |coeffs| == 0
    ensures r.OutOfRange? <==> |coeffs| > 0 && !(-|coeffs| <= segNo < |coeffs|)
  {
    if |coeffs| < 1 then NoSegment
    else if -|coeffs| <= segNo < |coeffs| then
      var c := coeffs[if segNo < 0 then segNo + |coeffs| else segNo];
      Segment(Apply(c, Powers(t)), Apply(c, PowersDerivative(t)))
    else OutOfRange
  }

  class HermiteCurve {
    var numSamplesRendering: int
    var pointTangentList: seq<PointTangent>
    var coeffMatrix: seq<Coeffs>

    /** One coefficient matrix per consecutive pair of data points. */
    predicate Valid()
      reads this
    {
      coeffMatrix == CoeffList(pointTangentList)
    }

    /** `__init__` without data points: both lists empty. */
    constructor(numSamples: int)
      ensures numSamplesRendering == numSamples
      ensures pointTangentList == [] && coeffMatrix == []
      ensures Valid()
    {
      numSamplesRendering := numSamples;
      pointTangentList := [];
      coeffMatrix := [];
    }

    /** `add_point`: append the data point and, from the second point on, the matrix of
        the segment it closes. */
    method AddPoint(dataPoint: PointTangent)
      modifies this
      ensures pointTangentList == old(pointTangentList) + [dataPoint]
      ensures coeffMatrix == old(coeffMatrix) +
                (if |old(pointTangentList)| >= 1
                 then [SegmentCoeffs(old(pointTangentList)[|old(pointTangentList)| - 1], dataPoint)] else [])
      ensures numSamplesRendering == old(numSamplesRendering)
      ensures old(Valid()) ==> Valid()
    {
      pointTangentList := pointTangentList + [dataPoint];
      if |pointTangentList| >= 2 {
        var a := pointTangentList[|pointTangentList| - 2];
        var b := pointTangentList[|pointTangentList| - 1];
        coeffMatrix := coeffMatrix + [SegmentCoeffs(a, b)];
      }
      assert pointTangentList[..|pointTangentList| - 1] == old(pointTangentList);
    }

    /** `set_data`: clear both lists, then add the points in order. */
    method SetData(points: seq<PointTangent>)
      modifies this
      ensures pointTangentList == points && coeffMatrix == CoeffList(points)
      ensures numSamplesRendering == old(numSamplesRendering)
      ensures Valid()
    {
      pointTangentList := [];
      coeffMatrix := [];
      for i := 0 to |points|
        invariant pointTangentList == points[..i] && Valid()
        invariant numSamplesRendering == old(numSamplesRendering)
      {
        AddPoint(points[i]);
        assert points[..i + 1] == points[..i] + [points[i]];
      }
      assert points[..|points|] == points;
    }

    /** `evaluate_curve_segment`. */
    function EvaluateCurveSegment(segNo: int, t: real): Evaluation
      reads this
    {
      EvaluateSegment(coeffMatrix, segNo, t)
    }
  }

  /** Segment `k` starts at point `k` with its tangent and ends at point `k + 1` with
      its tangent. */
  lemma SegmentInterpolates(points: seq<PointTangent>, k: int)
    requires 0 <= k < |points| - 1
    ensures EvaluateSegment(CoeffList(points), k, 0.0) == Segment(points[k].p, points[k].m)
    ensures EvaluateSegment(CoeffList(points), k, 1.0) == Segment(points[k + 1].p, points[k + 1].m)
  {
    CoeffListShape(points);
    EndpointsOfSegment(points[k], points[k + 1]);
  }

  /** The matrix of a segment evaluates to its two data points at `t = 0` and `t = 1`. */
  lemma EndpointsOfSegment(a: PointTangent, b: PointTangent)
    ensures Apply(SegmentCoeffs(a, b), Powers(0.0)) == a.p && Apply(SegmentCoeffs(a, b), PowersDerivative(0.0)) == a.m
    ensures Apply(SegmentCoeffs(a, b), Powers(1.0)) == b.p && Apply(SegmentCoeffs(a, b), PowersDerivative(1.0)) == b.m
  {
    var gx, gy, gz := Vec4(a.p.x, b.p.x, a.m.x, b.m.x), Vec4(a.p.y, b.p.y, a.m.y, b.m.y), Vec4(a.p.z, b.p.z, a.m.z, b.m.z);
    HermiteRow(gx);
    HermiteRow(gy);
    HermiteRow(gz);
  }

  /** One row of `g * B_Hermite` in closed form: the coefficients of the cubic with
      `p(0) = g.x`, `p(1) = g.y`, `p'(0) = g.z`, `p'(1) = g.w`. */
  lemma HermiteRow(g: Vec4)
    ensures VecMat(g, HermiteB) ==
            Vec4(2.0 * g.x - 2.0 * g.y + g.z + g.w, -3.0 * g.x + 3.0 * g.y - 2.0 * g.z - g.w, g.z, g.x)
  {
  }

  /** Each coordinate of the returned point is the cubic of its coefficient row, and the
      returned tangent is that cubic's derivative. */
  lemma TangentIsDerivative(c: Coeffs, t: real)
    ensures Apply(c, Powers(t)) == Vec3(Cubic(c.rx, t), Cubic(c.ry, t), Cubic(c.rz, t))
    ensures Apply(c, PowersDerivative(t)) ==
            Vec3(Cubic(Derivative(c.rx), t), Cubic(Derivative(c.ry), t), Cubic(Derivative(c.rz), t))
  {
    CubicRow(c.rx, t);
    CubicRow(c.ry, t);
    CubicRow(c.rz, t);
  }

  /** With both tangents equal to `p1 - p0` the segment is the straight line from `p0`
      to `p1`, traversed at constant velocity. */
  lemma StraightSegment(p0: Vec3, p1: Vec3, t: real)
    ensures var d := Sub(p1, p0);
            var c := SegmentCoeffs(PointTangent(p0, d), PointTangent(p1, d));
            Apply(c, Powers(t)) == Add(p0, Times(t, d)) && Apply(c, PowersDerivative(t)) == d
  {
    var d := Sub(p1, p0);
    StraightRow(p0.x, p1.x, t);
    StraightRow(p0.y, p1.y, t);
    StraightRow(p0.z, p1.z, t);
  }

  lemma StraightRow(a: real, b: real, t: real)
    ensures var row := VecMat(Vec4(a, b, b - a, b - a), HermiteB);
            Dot4(row, Powers(t)) == a + t * (b - a) && Dot4(row, PowersDerivative(t)) == b - a
  {
    var row := VecMat(Vec4(a, b, b - a, b - a), HermiteB);
    assert row == Vec4(0.0, 0.0, b - a, a);
  }
}
