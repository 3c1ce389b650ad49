/** Cubic polynomials in one parameter, as the curve and patch code writes them:
    the monomial vector `[t^3, t^2, t, 1]`, its derivative, and Horner evaluation. */
module Cubics {
  import opened Linear

  /** `[t^3, t^2, t, 1]` and its derivative `[3 t^2, 2 t, 1, 0]`. */
  function Powers(t: real): Vec4 { Vec4(t * t * t, t * t, t, 1.0) }

  function PowersDerivative(t: real): Vec4 { Vec4(3.0 * t * t, 2.0 * t, 1.0, 0.0) }

  /** The cubic `a t^3 + b t^2 + c t + d` of coefficients `(a, b, c, d)`, by Horner's rule. */
  function Cubic(c: Vec4, t: real): real
  {
    ((c.x * t + c.y) * t + c.z) * t + c.w
  }

  /** The coefficients of the derivative `3 a t^2 + 2 b t + c`. */
  function Derivative(c: Vec4): Vec4
  {
    Vec4(0.0, 3.0 * c.x, 2.0 * c.y, c.z)
  }

  /** A coefficient row dotted with the monomials is the cubic; dotted with the
      differentiated monomials it is the derivative cubic. */
  lemma CubicRow(r: Vec4, t: real)
    ensures Dot4(r, Powers(t)) == Cubic(r, t)
    ensures Dot4(r, PowersDerivative(t)) == Cubic(Derivative(r), t)
  {
    CubicPoint(r, t);
    CubicTangent(r, t);
  }

  lemma CubicPoint(r: Vec4, t: real)
    ensures Dot4(r, Powers(t)) == Cubic(r, t)
  {
    calc {
      Cubic(r, t);
      ((r.x * t + r.y) * t + r.z) * t + r.w;
      r.x * (t * t * t) + r.y * (t * t) + r.z * t + r.w;
    }
  }

  lemma CubicTangent(r: Vec4, t: real)
    ensures Dot4(r, PowersDerivative(t)) == Cubic(Derivative(r), t)
  {
    calc {
      Cubic(Derivative(r), t);
      ((0.0 * t + 3.0 * r.x) * t + 2.0 * r.y) * t + r.z;
      r.x * (3.0 * t * t) + r.y * (2.0 * t) + r.z * 1.0 + r.w * 0.0;
    }
  }
}
