/** BicubicPatch.py: a surface patch through a 4x4 grid of control points. Each
    coordinate is `[s^3, s^2, s, 1] * B^T * G * B * [t^3, t^2, t, 1]^T`, where `G` holds
    that coordinate of the control points and `B` inverts the matrix whose columns are
    the monomials at the grid parameters 0, 1, 2, 3. */
module BicubicPatch {
  import opened Linear
  import opened Cubics

  /** The matrix passed to `np.linalg.inv`: column `j` is `[j^3, j^2, j, 1]`. */
  const Nodes: Mat4 := Mat4(Vec4(0.0, 1.0, 8.0, 27.0), Vec4(0.0, 1.0, 4.0, 9.0),
                            Vec4(0.0, 1.0, 2.0, 3.0), Vec4(1.0, 1.0, 1.0, 1.0))

  /** Its inverse `B`, written out exactly. */
  const BicubicB: Mat4 := Mat4(Vec4(-1.0 / 6.0, 1.0, -11.0 / 6.0, 1.0), Vec4(0.5, -2.5, 3.0, 0.0),
                               Vec4(-0.5, 2.0, -1.5, 0.0), Vec4(1.0 / 6.0, -0.5, 1.0 / 3.0, 0.0))

  /** `B` is the inverse of `Nodes` on both sides, so it is what `np.linalg.inv` returns
      in exact arithmetic. */
  lemma BicubicBasisInverts(b: Mat4, v: Mat4)
    requires b == BicubicB && v == Nodes
    ensures MatMul(b, v) == Identity && MatMul(v, b) == Identity
  {
    BasisTimesNodes(b);
    NodesTimesBasis(v);
  }

  lemma BasisTimesNodes(b: Mat4)
    requires b == BicubicB
    ensures MatMul(b, Nodes) == Identity
  {
  }

  lemma NodesTimesBasis(v: Mat4)
    requires v == Nodes
    ensures MatMul(v, BicubicB) == Identity
  {
  }

  /** `B` sends the monomials at grid parameter `k` to the unit vector `e_k`. */
  lemma BasisAtNode(b: Mat4, k: nat)
    requires b == BicubicB && k < 4
    ensures MatVec(b, Powers(k as real)) == Unit(k)
  {
    if k == 0 {
      BasisAtNode0(b, k as real);
    } else if k == 1 {
      BasisAtNode1(b, k as real);
    } else if k == 2 {
      BasisAtNode2(b, k as real);
    } else {
      BasisAtNode3(b, k as real);
    }
  }

  lemma BasisAtNode0(b: Mat4, t: real)
    requires b == BicubicB && t == 0.0
    ensures MatVec(b, Powers(t)) == E0
  {
  }

  lemma BasisAtNode1(b: Mat4, t: real)
    requires b == BicubicB && t == 1.0
    ensures MatVec(b, Powers(t)) == E1
  {
  }

  lemma BasisAtNode2(b: Mat4, t: real)
    requires b == BicubicB && t == 2.0
    ensures MatVec(b, Powers(t)) == E2
  {
  }

  lemma BasisAtNode3(b: Mat4, t: real)
    requires b == BicubicB && t == 3.0
    ensures MatVec(b, Powers(t)) == E3
  {
  }

  /** `np.reshape(data_points[:, c], (4, 4))`: row `i` holds coordinate `c` of the
      control points `4 i .. 4 i + 3`. */
  function Geometry(dataPoints: seq<Vec3>, c: nat): (g: Mat4)
    requires |dataPoints| == 16 && c < 3
    ensures forall i: nat, j: nat :: i < 4 && j < 4 ==> At4(Row(g, i), j) == At(dataPoints[4 * i + j], c)
  {
    Mat4(Vec4(At(dataPoints[0], c), At(dataPoints[1], c), At(dataPoints[2], c), At(dataPoints[3], c)),
         Vec4(At(dataPoints[4], c), At(dataPoints[5], c), At(dataPoints[6], c), At(dataPoints[7], c)),
         Vec4(At(dataPoints[8], c), At(dataPoints[9], c), At(dataPoints[10], c), At(dataPoints[11], c)),
         Vec4(At(dataPoints[12], c), At(dataPoints[13], c), At(dataPoints[14], c), At(dataPoints[15], c)))
  }

  /** `B^T * G * B`. */
  function PatchMatrix(g: Mat4, b: Mat4): Mat4
  {
    MatMul(Transpose(b), MatMul(g, b))
  }

  /** The state `__init__` builds: the control points, the sample counts used for
      drawing, `B` and the three coordinate matrices. */
  datatype Patch = Patch(dataPoints: seq<Vec3>, numSamplesRendering: (int, int), b: Mat4,
                         matX: Mat4, matY: Mat4, matZ: Mat4)

  /** `__init__`; the reshape needs exactly 16 control points. */
  function MakePatch(dataPoints: seq<Vec3>, numSamplesRendering: (int, int)): Patch
    requires |dataPoints| == 16
  {
    Patch(dataPoints, numSamplesRendering, BicubicB,
          PatchMatrix(Geometry(dataPoints, 0), BicubicB),
          PatchMatrix(Geometry(dataPoints, 1), BicubicB),
          PatchMatrix(Geometry(dataPoints, 2), BicubicB))
  }

  /** The nine values `evaluate` returns, grouped as the point, the derivative in `s`
      and the derivative in `t`. */
  datatype PatchSample = PatchSample(point: Vec3, ds: Vec3, dt: Vec3)

  /** `u * M * w` for each of the three coordinate matrices. */
  function Form(p: Patch, u: Vec4, w: Vec4): Vec3
  {
    Vec3(Dot4(VecMat(u, p.matX), w), Dot4(VecMat(u, p.matY), w), Dot4(VecMat(u, p.matZ), w))
  }

  /** `evaluate([s, t])`, defined for parameters in `[0, 3]`. */
  function Evaluate(p: Patch, s: real, t: real): PatchSample
    requires 0.0 <= s <= 3.0 && 0.0 <= t <= 3.0
  {
    PatchSample(Form(p, Powers(s), Powers(t)),
                Form(p, PowersDerivative(s), Powers(t)),
                Form(p, Powers(s), PowersDerivative(t)))
  }

  /** `u * B^T * G * B * w` is `(B u) . (G (B w))`. */
  lemma PatchForm(g: Mat4, b: Mat4, u: Vec4, w: Vec4)
    ensures Dot4(VecMat(u, PatchMatrix(g, b)), w) == Dot4(MatVec(b, u), MatVec(g, MatVec(b, w)))
  {
    var inner := MatMul(g, b);
    VecMatDot(u, PatchMatrix(g, b), w);
    MatVecMul(Transpose(b), inner, w);
    MatVecMul(g, b, w);
    VecMatDot(u, Transpose(b), MatVec(g, MatVec(b, w)));
    assert Transpose(Transpose(b)) == b;
  }

  /** `e_i . (G e_j)` is the entry `G[i][j]`. */
  lemma UnitsPickEntry(g: Mat4, i: nat, j: nat)
    requires i < 4 && j < 4
    ensures Dot4(Unit(i), MatVec(g, Unit(j))) == At4(Row(g, i), j)
  {
  }

  /** One coordinate of the patch at grid parameters `(i, j)` is that coordinate of
      control point `4 i + j`. */
  lemma CoordinateInterpolates(dataPoints: seq<Vec3>, c: nat, i: nat, j: nat)
    requires |dataPoints| == 16 && c < 3 && i < 4 && j < 4
    ensures Dot4(VecMat(Powers(i as real), PatchMatrix(Geometry(dataPoints, c), BicubicB)), Powers(j as real))
            == At(dataPoints[4 * i + j], c)
  {
    var b, g := BicubicB, Geometry(dataPoints, c);
    PatchForm(g, b, Powers(i as real), Powers(j as real));
    BasisAtNode(b, i);
    BasisAtNode(b, j);
    UnitsPickEntry(g, i, j);
  }

  /** The patch passes through its control points: at `(s, t) = (i, j)` the point is
      control point `4 i + j`, the row-major order of `data_points`. */
  lemma PatchInterpolates(dataPoints: seq<Vec3>, numSamples: (int, int), i: nat, j: nat)
    requires |dataPoints| == 16 && i < 4 && j < 4
    ensures Evaluate(MakePatch(dataPoints, numSamples), i as real, j as real).point == dataPoints[4 * i + j]
  {
    CoordinateInterpolates(dataPoints, 0, i, j);
    CoordinateInterpolates(dataPoints, 1, i, j);
    CoordinateInterpolates(dataPoints, 2, i, j);
  }

  /** For fixed `t` each coordinate is a cubic in `s` and the `ds` values are its
      derivative; for fixed `s` likewise in `t` with the `dt` values. */
  lemma PartialDerivatives(p: Patch, s: real, t: real)
    requires 0.0 <= s <= 3.0 && 0.0 <= t <= 3.0
    ensures var r := Evaluate(p, s, t);
            var cx, cy, cz := MatVec(p.matX, Powers(t)), MatVec(p.matY, Powers(t)), MatVec(p.matZ, Powers(t));
            r.point == Vec3(Cubic(cx, s), Cubic(cy, s), Cubic(cz, s)) &&
            r.ds == Vec3(Cubic(Derivative(cx), s), Cubic(Derivative(cy), s), Cubic(Derivative(cz), s))
    ensures var r := Evaluate(p, s, t);
            var rx, ry, rz := VecMat(Powers(s), p.matX), VecMat(Powers(s), p.matY), VecMat(Powers(s), p.matZ);
            r.point == Vec3(Cubic(rx, t), Cubic(ry, t), Cubic(rz, t)) &&
            r.dt == Vec3(Cubic(Derivative(rx), t), Cubic(Derivative(ry), t), Cubic(Derivative(rz), t))
  {
    InS(p.matX, s, t);
    InS(p.matY, s, t);
    InS(p.matZ, s, t);
    CubicRow(VecMat(Powers(s), p.matX), t);
    CubicRow(VecMat(Powers(s), p.matY), t);
    CubicRow(VecMat(Powers(s), p.matZ), t);
  }

  lemma InS(m: Mat4, s: real, t: real)
    ensures Dot4(VecMat(Powers(s), m), Powers(t)) == Cubic(MatVec(m, Powers(t)), s)
    ensures Dot4(VecMat(PowersDerivative(s), m), Powers(t)) == Cubic(Derivative(MatVec(m, Powers(t))), s)
  {
    VecMatDot(Powers(s), m, Powers(t));
    VecMatDot(PowersDerivative(s), m, Powers(t));
    CubicRow(MatVec(m, Powers(t)), s);
    Dot4Commutes(Powers(s), MatVec(m, Powers(t)));
    Dot4Commutes(PowersDerivative(s), MatVec(m, Powers(t)));
  }

  lemma Dot4Commutes(a: Vec4, b: Vec4)
    ensures Dot4(a, b) == Dot4(b, a)
  {
  }

  /** The parameter of sample `k` of `n`: `3 k / (n - 1)`, running from 0 to 3. */
  function SampleParameter(k: int, n: int): (r: real)
    requires n >= 2 && 0 <= k < n
    ensures 0.0 <= r <= 3.0
    ensures k == 0 ==> r == 0.0
    ensures k == n - 1 ==> r == 3.0
  {
    3.0 * (k as real) / ((n - 1) as real)
  }

  /** `get_samples`: the patch evaluated on an `n0` by `n1` grid of parameters, the
      nine value arrays kept as one array of samples. */
  method GetSamples(p: Patch, n0: int, n1: int) returns (a: array2<PatchSample>)
    requires n0 >= 2 && n1 >= 2
    ensures fresh(a) && a.Length0 == n0 && a.Length1 == n1
    ensures forall i, j :: 0 <= i < n0 && 0 <= j < n1 ==>
              a[i, j] == Evaluate(p, SampleParameter(i, n0), SampleParameter(j, n1))
  {
    a := new PatchSample[n0, n1];
    for i := 0 to n0
      invariant forall i', j :: 0 <= i' < i && 0 <= j < n1 ==>
                  a[i', j] == Evaluate(p, SampleParameter(i', n0), SampleParameter(j, n1))
    {
      for j := 0 to n1
        invariant forall i', j' :: 0 <= i' < i && 0 <= j' < n1 ==>
                    a[i', j'] == Evaluate(p, SampleParameter(i', n0), SampleParameter(j', n1))
        invariant forall j' :: 0 <= j' < j ==>
                    a[i, j'] == Evaluate(p, SampleParameter(i, n0), SampleParameter(j', n1))
      {
        a[i, j] := Evaluate(p, SampleParameter(i, n0), SampleParameter(j, n1));
      }
    }
  }

  /** The four corner samples are the four corner control points. */
  lemma CornerSamples(dataPoints: seq<Vec3>, numSamples: (int, int), n0: int, n1: int)
    requires |dataPoints| == 16 && n0 >= 2 && n1 >= 2
    ensures var p := MakePatch(dataPoints, numSamples);
            Evaluate(p, SampleParameter(0, n0), SampleParameter(0, n1)).point == dataPoints[0] &&
            Evaluate(p, SampleParameter(0, n0), SampleParameter(n1 - 1, n1)).point == dataPoints[3] &&
            Evaluate(p, SampleParameter(n0 - 1, n0), SampleParameter(0, n1)).point == dataPoints[12] &&
            Evaluate(p, SampleParameter(n0 - 1, n0), SampleParameter(n1 - 1, n1)).point == dataPoints[15]
  {
    var p := MakePatch(dataPoints, numSamples);
    assert Evaluate(p, SampleParameter(0, n0), SampleParameter(0, n1)).point == dataPoints[0] by {
      PatchInterpolates(dataPoints, numSamples, 0, 0);
    }
    assert Evaluate(p, SampleParameter(0, n0), SampleParameter(n1 - 1, n1)).point == dataPoints[3] by {
      PatchInterpolates(dataPoints, numSamples, 0, 3);
    }
    assert Evaluate(p, SampleParameter(n0 - 1, n0), SampleParameter(0, n1)).point == dataPoints[12] by {
      PatchInterpolates(dataPoints, numSamples, 3, 0);
    }
    assert Evaluate(p, SampleParameter(n0 - 1, n0), SampleParameter(n1 - 1, n1)).point == dataPoints[15] by {
      PatchInterpolates(dataPoints, numSamples, 3, 3);
    }
  }
}
