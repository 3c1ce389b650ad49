/** Vector normalisation and the exact 4x4 transform constructors of GeomTransform.py.
    The library square root, vector norm and power are not part of this model: they are
    fields of a `Numerics` value that every caller passes in, and the predicates below
    state what is assumed of them where a property depends on it. */
module GeomTransform {
  import opened Linear

  /** numpy's `sqrt`, `linalg.norm` and `**` on floats, left uninterpreted. */
  datatype Numerics = Numerics(sqrt: real -> real, norm: Vec3 -> real, pow: (real, real) -> real)

  /** `sqrt` returns the non-negative square root of a non-negative argument. */
  ghost predicate SqrtExact(num: Numerics)
  {
    forall x: real :: x >= 0.0 ==> num.sqrt(x) >= 0.0 && num.sqrt(x) * num.sqrt(x) == x
  }

  /** `norm` is the Euclidean length. */
  ghost predicate NormExact(num: Numerics)
  {
    forall v: Vec3 :: num.norm(v) >= 0.0 && num.norm(v) * num.norm(v) == Dot(v, v)
  }

  /** Threshold below which `normalize` leaves a vector alone. */
  const NORMALIZE_MIN: real := 0.000000000001

  function Abs(x: real): real { if x < 0.0 then -x else x }

  /** `normalize`: divide by the norm unless the norm is at most 1e-12, in which
      case the input comes back unchanged. Either way the result is a non-zero
      multiple of the input. */
  function Normalize(num: Numerics, v: Vec3): (r: Vec3)
    ensures Abs(num.norm(v)) <= NORMALIZE_MIN ==> r == v
    ensures Abs(num.norm(v)) > NORMALIZE_MIN ==> Times(num.norm(v), r) == v
    ensures exists k: real :: k != 0.0 && r == Times(k, v)
  {
    var n := num.norm(v);
    if Abs(n) > NORMALIZE_MIN then
      assert Times(1.0 / n, v) == Vec3(v.x / n, v.y / n, v.z / n);
      Vec3(v.x / n, v.y / n, v.z / n)
    else
      assert Times(1.0, v) == v;
      v
  }

  lemma RootUnique(a: real, b: real)
    requires a >= 0.0 && b >= 0.0 && a * a == b * b
    ensures a == b
  {
    assert (a - b) * (a + b) == a * a - b * b;
    if a + b == 0.0 {
      assert a == 0.0 && b == 0.0;
    }
  }

  /** With an exact norm, `normalize` yields a unit vector whenever it divides. */
  lemma NormalizeIsUnit(num: Numerics, v: Vec3)
    requires NormExact(num) && num.norm(v) > NORMALIZE_MIN
    ensures num.norm(Normalize(num, v)) == 1.0
  {
    var n := num.norm(v);
    var w := Normalize(num, v);
    assert w == Vec3(v.x / n, v.y / n, v.z / n);
    assert Dot(w, w) * (n * n) == Dot(v, v) by {
      assert w.x * n == v.x && w.y * n == v.y && w.z * n == v.z;
      calc {
        Dot(w, w) * (n * n);
        (w.x * n) * (w.x * n) + (w.y * n) * (w.y * n) + (w.z * n) * (w.z * n);
        Dot(v, v);
      }
    }
    assert Dot(w, w) == 1.0 by {
      assert n * n > 0.0;
      assert Dot(v, v) == n * n;
    }
    RootUnique(num.norm(w), 1.0);
  }

  /** `normalize` fixes the zero vector whatever the norm returns. */
  lemma NormalizeZero(num: Numerics)
    ensures Normalize(num, Zero3) == Zero3
  {
  }

  /** `scale(v)`: the diagonal matrix diag(v.x, v.y, v.z, 1). */
  function Scale(v: Vec3): Mat4
  {
    Mat4(Vec4(v.x, 0.0, 0.0, 0.0), Vec4(0.0, v.y, 0.0, 0.0), Vec4(0.0, 0.0, v.z, 0.0), E3)
  }

  /** `translate(v)`: the identity with `v` in the last column. */
  function Translate(v: Vec3): Mat4
  {
    Mat4(Vec4(1.0, 0.0, 0.0, v.x), Vec4(0.0, 1.0, 0.0, v.y), Vec4(0.0, 0.0, 1.0, v.z), E3)
  }

  /** `rotX(c, s)`: rotation about the x axis given its cosine and sine. */
  function RotX(c: real, s: real): Mat4
  {
    Mat4(E0, Vec4(0.0, c, -s, 0.0), Vec4(0.0, s, c, 0.0), E3)
  }

  function RotY(c: real, s: real): Mat4
  {
    Mat4(Vec4(c, 0.0, s, 0.0), E1, Vec4(-s, 0.0, c, 0.0), E3)
  }

  function RotZ(c: real, s: real): Mat4
  {
    Mat4(Vec4(c, -s, 0.0, 0.0), Vec4(s, c, 0.0, 0.0), E2, E3)
  }

  /** The product `translate * rotX * rotY * rotZ * scale` that a scene node builds
      from its parameters, with each rotation given by its cosine and sine. */
  function NodeTransform(translation: Vec3, cx: real, sx: real, cy: real, sy: real,
                         cz: real, sz: real, scale: Vec3): Mat4
  {
    MatMul(MatMul(MatMul(MatMul(Translate(translation), RotX(cx, sx)), RotY(cy, sy)), RotZ(cz, sz)), Scale(scale))
  }

  lemma TranslateMovesPoints(v: Vec3, p: Vec3)
    ensures MatVec(Translate(v), Point(p)) == Point(Add(p, v))
  {
  }

  lemma ScaleScalesPoints(v: Vec3, p: Vec3)
    ensures MatVec(Scale(v), Point(p)) == Point(Hadamard(v, p))
  {
  }

  /** Each rotation keeps its own axis and the homogeneous coordinate: the matching
      row and column are those of the identity. */
  lemma RotationsFixTheirAxis(c: real, s: real)
    ensures RotX(c, s).r0 == E0 && Transpose(RotX(c, s)).r0 == E0
    ensures RotY(c, s).r1 == E1 && Transpose(RotY(c, s)).r1 == E1
    ensures RotZ(c, s).r2 == E2 && Transpose(RotZ(c, s)).r2 == E2
    ensures RotX(c, s).r3 == E3 && Transpose(RotX(c, s)).r3 == E3
    ensures RotY(c, s).r3 == E3 && Transpose(RotY(c, s)).r3 == E3
    ensures RotZ(c, s).r3 == E3 && Transpose(RotZ(c, s)).r3 == E3
  {
  }

  /** Rotating by (c, s) and then by (c, -s) is the identity when c^2 + s^2 = 1. */
  lemma RotXInverse(c: real, s: real)
    requires c * c + s * s == 1.0
    ensures MatMul(RotX(c, s), RotX(c, -s)) == Identity
  {
    var m, n := RotX(c, s), RotX(c, -s);
    RotationsFixTheirAxis(c, s);
    RotationsFixTheirAxis(c, -s);
    var a0, a1 := Dot4(m.r1, Transpose(n).r1), Dot4(m.r1, Transpose(n).r2);
    var b0, b1 := Dot4(m.r2, Transpose(n).r1), Dot4(m.r2, Transpose(n).r2);
    assert a0 == 1.0 && a1 == 0.0 && b0 == 0.0 && b1 == 1.0;
  }

  /** Rotating by (c, s) and then by (c, -s) is the identity when c^2 + s^2 = 1. */
  lemma RotYInverse(c: real, s: real)
    requires c * c + s * s == 1.0
    ensures MatMul(RotY(c, s), RotY(c, -s)) == Identity
  {
    var m, n := RotY(c, s), RotY(c, -s);
    RotationsFixTheirAxis(c, s);
    RotationsFixTheirAxis(c, -s);
    var a0, a1 := Dot4(m.r0, Transpose(n).r0), Dot4(m.r0, Transpose(n).r2);
    var b0, b1 := Dot4(m.r2, Transpose(n).r0), Dot4(m.r2, Transpose(n).r2);
    assert a0 == 1.0 && a1 == 0.0 && b0 == 0.0 && b1 == 1.0;
  }

  /** Rotating by (c, s) and then by (c, -s) is the identity when c^2 + s^2 = 1. */
  lemma RotZInverse(c: real, s: real)
    requires c * c + s * s == 1.0
    ensures MatMul(RotZ(c, s), RotZ(c, -s)) == Identity
  {
    var m, n := RotZ(c, s), RotZ(c, -s);
    RotationsFixTheirAxis(c, s);
    RotationsFixTheirAxis(c, -s);
    var a0, a1 := Dot4(m.r0, Transpose(n).r0), Dot4(m.r0, Transpose(n).r1);
    var b0, b1 := Dot4(m.r1, Transpose(n).r0), Dot4(m.r1, Transpose(n).r1);
    assert a0 == 1.0 && a1 == 0.0 && b0 == 0.0 && b1 == 1.0;
  }

  lemma TranslateScaleInverses(v: Vec3)
    ensures MatMul(Translate(v), Translate(Neg(v))) == Identity
    ensures v.x != 0.0 && v.y != 0.0 && v.z != 0.0 ==>
              MatMul(Scale(v), Scale(Vec3(1.0 / v.x, 1.0 / v.y, 1.0 / v.z))) == Identity
  {
  }

  /** With zero rotation angles and no translation the node matrix is diag(scale, 1). */
  lemma ScaleOnlyNodeTransform(scale: Vec3)
    ensures NodeTransform(Zero3, 1.0, 0.0, 1.0, 0.0, 1.0, 0.0, scale) == Scale(scale)
  {
    assert RotX(1.0, 0.0) == Identity && RotY(1.0, 0.0) == Identity && RotZ(1.0, 0.0) == Identity;
    assert Translate(Zero3) == Identity;
    IdentityIsNeutral(E0, Identity);
    IdentityIsNeutral(E0, Scale(scale));
  }

  /** Every node matrix built this way is affine. */
  lemma NodeTransformIsAffine(translation: Vec3, cx: real, sx: real, cy: real, sy: real,
                              cz: real, sz: real, scale: Vec3)
    ensures Affine(NodeTransform(translation, cx, sx, cy, sy, cz, sz, scale))
  {
  }
}
