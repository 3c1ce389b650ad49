/** Ray.py: a ray as an origin plus a direction, and the intersection record that
    every intersector returns, with its "no hit" sentinel. */
module Ray {
  import opened Linear
  import opened Wrappers
  import opened HelperClasses

  /** A ray from `eye` along `dir`. The direction is stored as given and is not
      normalised: a scene node passes a transformed direction through unchanged. */
  datatype Ray = Ray(eye: Vec3, dir: Vec3)

  /** `getPoint(t)`: the point `eye + t * dir`. */
  function PointAt(ray: Ray, t: real): (p: Vec3)
    ensures Sub(p, ray.eye) == Times(t, ray.dir)
    ensures t == 0.0 ==> p == ray.eye
  {
    Add(ray.eye, Times(t, ray.dir))
  }

  /** A ray parameter: a real number or numpy's `inf`. */
  datatype Param = Finite(v: real) | Inf

  /** Python's `<` on a parameter that may be `inf`. */
  predicate Less(a: Param, b: Param)
  {
    match (a, b)
    case (Finite(x), Finite(y)) => x < y
    case (Finite(_), Inf) => true
    case (Inf, _) => false
  }

  /** IntersectionResult: distance `t`, point `p`, normal `n` and the material hit. */
  datatype Hit = Hit(t: Param, p: Vec3, n: Vec3, material: Option<Material>)

  /** A fresh IntersectionResult: no intersection. */
  function NoHit(): Hit
  {
    Hit(Inf, Zero3, Zero3, None)
  }

  /** The lower bound in `is_valid_intersection`. */
  const VALID_T_MIN: real := 0.000000001

  /** `is_valid_intersection`: `1e-9 < t < inf`. */
  predicate IsValid(h: Hit)
  {
    h.t.Finite? && h.t.v > VALID_T_MIN
  }

  /** A valid intersection has a finite distance above 1e-9, and conversely; the
      sentinel is never valid. */
  lemma ValidMeansFiniteAboveMin(h: Hit)
    ensures IsValid(h) <==> (Less(h.t, Inf) && Less(Finite(VALID_T_MIN), h.t))
    ensures !IsValid(NoHit())
  {
  }

  lemma PointAtIsAffine(ray: Ray, s: real, t: real)
    ensures Sub(PointAt(ray, t), PointAt(ray, s)) == Times(t - s, ray.dir)
  {
  }
}
