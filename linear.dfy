/** Exact linear algebra over the reals: the 3-vectors, homogeneous 4-vectors
    and 4x4 matrices that the renderer builds with numpy. */
module Linear {

  datatype Vec3 = Vec3(x: real, y: real, z: real)

  datatype Vec4 = Vec4(x: real, y: real, z: real, w: real)

  /** A 4x4 matrix, stored by rows. */
  datatype Mat4 = Mat4(r0: Vec4, r1: Vec4, r2: Vec4, r3: Vec4)

  const Zero3: Vec3 := Vec3(0.0, 0.0, 0.0)

  function Add(a: Vec3, b: Vec3): Vec3 { Vec3(a.x + b.x, a.y + b.y, a.z + b.z) }

  function Sub(a: Vec3, b: Vec3): Vec3 { Vec3(a.x - b.x, a.y - b.y, a.z - b.z) }

  function Neg(a: Vec3): Vec3 { Vec3(-a.x, -a.y, -a.z) }

  /** Scalar times vector. */
  function Times(k: real, a: Vec3): Vec3 { Vec3(k * a.x, k * a.y, k * a.z) }

  /** Element-wise product (numpy `*` / `np.multiply` on two arrays). */
  function Hadamard(a: Vec3, b: Vec3): Vec3 { Vec3(a.x * b.x, a.y * b.y, a.z * b.z) }

  function Dot(a: Vec3, b: Vec3): real { a.x * b.x + a.y * b.y + a.z * b.z }

  /** Component `i` of a 3-vector, as `v[i]` in numpy. */
  function At(v: Vec3, i: nat): real
    requires i < 3
  {
    if i == 0 then v.x else if i == 1 then v.y else v.z
  }

  /** `x * x`, kept behind a name so that facts about squares are stated on one term. */
  function Sq(x: real): real { x * x }

  lemma SquareNonNegative(x: real)
    ensures Sq(x) >= 0.0
  {
    if x < 0.0 {
      calc { Sq(x); == (-x) * (-x); >= 0.0; }
    } else {
      calc { Sq(x); == x * x; >= 0.0; }
    }
  }

  lemma SquarePositive(x: real)
    requires x != 0.0
    ensures Sq(x) > 0.0
  {
    if x < 0.0 {
      calc { Sq(x); == (-x) * (-x); > 0.0; }
    } else {
      calc { Sq(x); == x * x; > 0.0; }
    }
  }

  /** `v . v` is never negative and is zero only for the zero vector. */
  lemma DotSelf(v: Vec3)
    ensures Dot(v, v) >= 0.0
    ensures Dot(v, v) == 0.0 <==> v == Zero3
  {
    assert Dot(v, v) == Sq(v.x) + Sq(v.y) + Sq(v.z);
    SquareNonNegative(v.x);
    SquareNonNegative(v.y);
    SquareNonNegative(v.z);
    if v.x != 0.0 {
      SquarePositive(v.x);
    } else if v.y != 0.0 {
      SquarePositive(v.y);
    } else if v.z != 0.0 {
      SquarePositive(v.z);
    }
  }

  /** `u . (w + t v) = u . w + t (u . v)`. */
  lemma DotAddScaled(u: Vec3, w: Vec3, t: real, v: Vec3)
    ensures Dot(u, Add(w, Times(t, v))) == Dot(u, w) + t * Dot(u, v)
  {
    assert u.x * (w.x + t * v.x) == u.x * w.x + t * (u.x * v.x);
    assert u.y * (w.y + t * v.y) == u.y * w.y + t * (u.y * v.y);
    assert u.z * (w.z + t * v.z) == u.z * w.z + t * (u.z * v.z);
  }

  function Add4(a: Vec4, b: Vec4): Vec4 { Vec4(a.x + b.x, a.y + b.y, a.z + b.z, a.w + b.w) }

  function Sub4(a: Vec4, b: Vec4): Vec4 { Vec4(a.x - b.x, a.y - b.y, a.z - b.z, a.w - b.w) }

  function Times4(k: real, a: Vec4): Vec4 { Vec4(k * a.x, k * a.y, k * a.z, k * a.w) }

  function Dot4(a: Vec4, b: Vec4): real { a.x * b.x + a.y * b.y + a.z * b.z + a.w * b.w }

  /** The homogeneous point `(v, 1)` (numpy: `h = np.ones(4); h[:-1] = v`). */
  function Point(v: Vec3): Vec4 { Vec4(v.x, v.y, v.z, 1.0) }

  /** The first three coordinates (numpy: `h[:-1]`). */
  function Drop(h: Vec4): Vec3 { Vec3(h.x, h.y, h.z) }

  /** Component `j` of a 4-vector and row `i` of a matrix, as numpy indexing. */
  function At4(v: Vec4, j: nat): real
    requires j < 4
  {
    if j == 0 then v.x else if j == 1 then v.y else if j == 2 then v.z else v.w
  }

  function Row(m: Mat4, i: nat): Vec4
    requires i < 4
  {
    if i == 0 then m.r0 else if i == 1 then m.r1 else if i == 2 then m.r2 else m.r3
  }

  function Transpose(m: Mat4): Mat4
  {
    Mat4(Vec4(m.r0.x, m.r1.x, m.r2.x, m.r3.x), Vec4(m.r0.y, m.r1.y, m.r2.y, m.r3.y),
         Vec4(m.r0.z, m.r1.z, m.r2.z, m.r3.z), Vec4(m.r0.w, m.r1.w, m.r2.w, m.r3.w))
  }

  /** Matrix times column vector. */
  function MatVec(m: Mat4, v: Vec4): Vec4
  {
    Vec4(Dot4(m.r0, v), Dot4(m.r1, v), Dot4(m.r2, v), Dot4(m.r3, v))
  }

  /** Row vector times matrix. */
  function VecMat(v: Vec4, m: Mat4): Vec4
  {
    MatVec(Transpose(m), v)
  }

  function MatMul(a: Mat4, b: Mat4): Mat4
  {
    Mat4(VecMat(a.r0, b), VecMat(a.r1, b), VecMat(a.r2, b), VecMat(a.r3, b))
  }

  const E0: Vec4 := Vec4(1.0, 0.0, 0.0, 0.0)
  const E1: Vec4 := Vec4(0.0, 1.0, 0.0, 0.0)
  const E2: Vec4 := Vec4(0.0, 0.0, 1.0, 0.0)
  const E3: Vec4 := Vec4(0.0, 0.0, 0.0, 1.0)

  const Identity: Mat4 := Mat4(E0, E1, E2, E3)

  /** The unit vector `e_k`. */
  function Unit(k: nat): Vec4
    requires k < 4
  {
    if k == 0 then E0 else if k == 1 then E1 else if k == 2 then E2 else E3
  }

  /** An affine matrix keeps the homogeneous row `(0, 0, 0, 1)`. */
  predicate Affine(m: Mat4) { m.r3 == E3 }

  lemma IdentityIsNeutral(v: Vec4, m: Mat4)
    ensures MatVec(Identity, v) == v
    ensures MatMul(Identity, m) == m && MatMul(m, Identity) == m
  {
  }

  lemma Distribute4(a: real, b: real, c: real, d: real, k: real)
    ensures (a + b + c + d) * k == a * k + b * k + c * k + d * k
    ensures k * (a + b + c + d) == k * a + k * b + k * c + k * d
  {
  }

  /** One row of a product applied to a vector. */
  lemma VecMatDot(r: Vec4, b: Mat4, v: Vec4)
    ensures Dot4(VecMat(r, b), v) == Dot4(r, MatVec(b, v))
  {
    Distribute4(r.x * b.r0.x, r.y * b.r1.x, r.z * b.r2.x, r.w * b.r3.x, v.x);
    Distribute4(r.x * b.r0.y, r.y * b.r1.y, r.z * b.r2.y, r.w * b.r3.y, v.y);
    Distribute4(r.x * b.r0.z, r.y * b.r1.z, r.z * b.r2.z, r.w * b.r3.z, v.z);
    Distribute4(r.x * b.r0.w, r.y * b.r1.w, r.z * b.r2.w, r.w * b.r3.w, v.w);
    Distribute4(b.r0.x * v.x, b.r0.y * v.y, b.r0.z * v.z, b.r0.w * v.w, r.x);
    Distribute4(b.r1.x * v.x, b.r1.y * v.y, b.r1.z * v.z, b.r1.w * v.w, r.y);
    Distribute4(b.r2.x * v.x, b.r2.y * v.y, b.r2.z * v.z, b.r2.w * v.w, r.z);
    Distribute4(b.r3.x * v.x, b.r3.y * v.y, b.r3.z * v.z, b.r3.w * v.w, r.w);
    calc {
      Dot4(VecMat(r, b), v);
      (r.x * b.r0.x) * v.x + (r.y * b.r1.x) * v.x + (r.z * b.r2.x) * v.x + (r.w * b.r3.x) * v.x +
        (r.x * b.r0.y) * v.y + (r.y * b.r1.y) * v.y + (r.z * b.r2.y) * v.y + (r.w * b.r3.y) * v.y +
        (r.x * b.r0.z) * v.z + (r.y * b.r1.z) * v.z + (r.z * b.r2.z) * v.z + (r.w * b.r3.z) * v.z +
        (r.x * b.r0.w) * v.w + (r.y * b.r1.w) * v.w + (r.z * b.r2.w) * v.w + (r.w * b.r3.w) * v.w;
      r.x * (b.r0.x * v.x) + r.x * (b.r0.y * v.y) + r.x * (b.r0.z * v.z) + r.x * (b.r0.w * v.w) +
        r.y * (b.r1.x * v.x) + r.y * (b.r1.y * v.y) + r.y * (b.r1.z * v.z) + r.y * (b.r1.w * v.w) +
        r.z * (b.r2.x * v.x) + r.z * (b.r2.y * v.y) + r.z * (b.r2.z * v.z) + r.z * (b.r2.w * v.w) +
        r.w * (b.r3.x * v.x) + r.w * (b.r3.y * v.y) + r.w * (b.r3.z * v.z) + r.w * (b.r3.w * v.w);
      Dot4(r, MatVec(b, v));
    }
  }

  /** Applying a product is applying its factors in turn. */
  lemma MatVecMul(a: Mat4, b: Mat4, v: Vec4)
    ensures MatVec(MatMul(a, b), v) == MatVec(a, MatVec(b, v))
  {
    VecMatDot(a.r0, b, v);
    VecMatDot(a.r1, b, v);
    VecMatDot(a.r2, b, v);
    VecMatDot(a.r3, b, v);
  }

  /** A matrix is linear: `m (u + t w) = m u + t (m w)`. */
  lemma MatVecLinear(m: Mat4, u: Vec4, t: real, w: Vec4)
    ensures MatVec(m, Add4(u, Times4(t, w))) == Add4(MatVec(m, u), Times4(t, MatVec(m, w)))
  {
    DotLinear(m.r0, u, t, w);
    DotLinear(m.r1, u, t, w);
    DotLinear(m.r2, u, t, w);
    DotLinear(m.r3, u, t, w);
  }

  lemma DotLinear(r: Vec4, u: Vec4, t: real, w: Vec4)
    ensures Dot4(r, Add4(u, Times4(t, w))) == Dot4(r, u) + t * Dot4(r, w)
  {
    Distribute4(r.x * w.x, r.y * w.y, r.z * w.z, r.w * w.w, t);
    assert r.x * (u.x + t * w.x) == r.x * u.x + t * (r.x * w.x);
    assert r.y * (u.y + t * w.y) == r.y * u.y + t * (r.y * w.y);
    assert r.z * (u.z + t * w.z) == r.z * u.z + t * (r.z * w.z);
    assert r.w * (u.w + t * w.w) == r.w * u.w + t * (r.w * w.w);
  }

  lemma MatVecSub(m: Mat4, u: Vec4, w: Vec4)
    ensures MatVec(m, Sub4(u, w)) == Sub4(MatVec(m, u), MatVec(m, w))
  {
  }

  /** If `M` is affine and `M Minv = I`, then `Minv` is affine too. */
  lemma InverseOfAffineIsAffine(m: Mat4, minv: Mat4)
    requires Affine(m) && MatMul(m, minv) == Identity
    ensures Affine(minv)
  {
    assert VecMat(m.r3, minv) == minv.r3;
  }
}
