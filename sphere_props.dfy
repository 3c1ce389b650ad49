/** Properties of the sphere intersection of Intersectable.py, including the
    inside-origin root selection that the corrected model fixes. */
module SphereProps {
  import opened Linear
  import opened Wrappers
  import opened Ray
  import opened HelperClasses
  import opened GeomTransform
  import opened Nearest
  import opened Intersectable

  /** Either root of the quadratic solves it when `sqrt` is exact. */
  lemma QuadraticRoot(a: real, b: real, c: real, s: real, t: real)
    requires a != 0.0 && s * s == b * b - 4.0 * a * c
    requires 2.0 * a * t == -b + s || 2.0 * a * t == -b - s
    ensures a * t * t + b * t + c == 0.0
  {
    var u := 2.0 * a * t + b;
    assert u * u == s * s;
    assert u * u == 4.0 * a * (a * t * t + b * t) + b * b;
    assert 4.0 * a * (a * t * t + b * t + c) == 0.0;
  }

  /** `|w + t v|^2 = |w|^2 + t (2v . w) + t^2 |v|^2`. */
  lemma DotAlongRay(w: Vec3, v: Vec3, t: real)
    ensures Dot(Add(w, Times(t, v)), Add(w, Times(t, v))) ==
            Dot(w, w) + t * Dot(Times(2.0, v), w) + t * t * Dot(v, v)
  {
    assert (w.x + t * v.x) * (w.x + t * v.x) == w.x * w.x + t * (2.0 * v.x * w.x) + t * t * (v.x * v.x);
    assert (w.y + t * v.y) * (w.y + t * v.y) == w.y * w.y + t * (2.0 * v.y * w.y) + t * t * (v.y * v.y);
    assert (w.z + t * v.z) * (w.z + t * v.z) == w.z * w.z + t * (2.0 * v.z * w.z) + t * t * (v.z * v.z);
    assert t * Dot(Times(2.0, v), w) == t * (2.0 * v.x * w.x) + t * (2.0 * v.y * w.y) + t * (2.0 * v.z * w.z);
    assert t * t * Dot(v, v) == t * t * (v.x * v.x) + t * t * (v.y * v.y) + t * t * (v.z * v.z);
  }

  /** The point at either root lies on the sphere. */
  lemma RootsLieOnSphere(num: Numerics, center: Vec3, radius: real, ray: Ray, t: real)
    requires SqrtExact(num) && QuadA(ray) != 0.0 && Discriminant(center, radius, ray) >= 0.0
    requires t == RootPlus(num, center, radius, ray) || t == RootMinus(num, center, radius, ray)
    ensures Dot(Sub(PointAt(ray, t), center), Sub(PointAt(ray, t), center)) == radius * radius
  {
    var a, b, c := QuadA(ray), QuadB(center, ray), QuadC(center, radius, ray);
    var s := num.sqrt(Discriminant(center, radius, ray));
    assert s * s == b * b - 4.0 * a * c;
    assert 2.0 * a * t == -b + s || 2.0 * a * t == -b - s;
    QuadraticRoot(a, b, c, s, t);
    var w := Sub(ray.eye, center);
    assert Sub(PointAt(ray, t), center) == Add(w, Times(t, ray.dir));
    DotAlongRay(w, ray.dir, t);
  }

  /** A reported hit is a point of the sphere at distance `t > EPS` along the ray,
      with the sphere's material. */
  lemma SphereHitIsOnSphere(num: Numerics, center: Vec3, radius: real, material: Material, ray: Ray)
    requires SqrtExact(num)
    ensures var r := SphereHit(num, center, radius, material, ray);
            r != NoHit() ==> r.t.Finite? && r.t.v > EPS_DISTANCE && r.p == PointAt(ray, r.t.v) &&
                             r.material == Some(material) &&
                             Dot(Sub(r.p, center), Sub(r.p, center)) == radius * radius
  {
    var r := SphereHit(num, center, radius, material, ray);
    if r != NoHit() {
      RootsLieOnSphere(num, center, radius, ray, r.t.v);
    }
  }

  /** At the `+sqrt` root the ray points away from the centre. */
  lemma LeavingAtPlusRoot(center: Vec3, ray: Ray, s: real, t: real)
    requires s >= 0.0 && 2.0 * QuadA(ray) * t == -QuadB(center, ray) + s
    ensures Dot(ray.dir, Sub(PointAt(ray, t), center)) == s / 2.0
  {
    var w := Sub(ray.eye, center);
    assert Sub(PointAt(ray, t), center) == Add(w, Times(t, ray.dir));
    DotAddScaled(ray.dir, w, t, ray.dir);
    assert QuadB(center, ray) == 2.0 * Dot(ray.dir, w);
  }

  /** From an origin that is not outside, the root chosen is the one farther along
      the ray, and there the ray leaves the sphere: it points away from the centre. */
  lemma SphereFromInsideExits(num: Numerics, center: Vec3, radius: real, material: Material, ray: Ray)
    requires SqrtExact(num) && !StartsOutside(num, center, radius, ray)
    ensures var r := SphereHit(num, center, radius, material, ray);
            r != NoHit() ==> r.t.v >= RootMinus(num, center, radius, ray) &&
                             Dot(ray.dir, Sub(r.p, center)) >= 0.0
  {
    var r := SphereHit(num, center, radius, material, ray);
    if r != NoHit() {
      var a, b := QuadA(ray), QuadB(center, ray);
      var s := num.sqrt(Discriminant(center, radius, ray));
      var t1, t2 := RootPlus(num, center, radius, ray), RootMinus(num, center, radius, ray);
      assert r.t.v == t1 && r.p == PointAt(ray, t1);
      assert s >= 0.0;
      assert 2.0 * a * t1 == -b + s && 2.0 * a * t2 == -b - s;
      LeavingAtPlusRoot(center, ray, s, t1);
      DotSelf(ray.dir);
      RootsOrdered(a, b, s, t1, t2);
    }
  }

  lemma SquareBelow(d: real, r: real)
    requires d >= 0.0 && r >= 0.0 && d * d < r * r
    ensures d < r
  {
  }

  lemma NormOfMultiple(num: Numerics, k: real, v: Vec3)
    requires NormExact(num)
    ensures num.norm(Times(k, v)) == Abs(k) * num.norm(v)
  {
    var n := num.norm(v);
    assert Dot(Times(k, v), Times(k, v)) == (k * k) * Dot(v, v);
    assert (Abs(k) * n) * (Abs(k) * n) == (k * k) * (n * n);
    RootUnique(num.norm(Times(k, v)), Abs(k) * n);
  }

  /** A viewer strictly inside a sphere of non-negative radius sees it along the
      root ahead whenever that root is beyond EPS. */
  lemma SphereSeenFromInside(num: Numerics, center: Vec3, radius: real, material: Material, ray: Ray)
    requires SqrtExact(num) && NormExact(num) && radius >= 0.0
    requires QuadA(ray) != 0.0 && QuadC(center, radius, ray) < 0.0
    requires RootPlus(num, center, radius, ray) > EPS_DISTANCE
    ensures SphereHit(num, center, radius, material, ray) ==
            SphereHitAt(num, center, material, ray, RootPlus(num, center, radius, ray))
  {
    var a, c := QuadA(ray), QuadC(center, radius, ray);
    DotSelf(ray.dir);
    assert 4.0 * a * c < 0.0;
    var w := Sub(ray.eye, center);
    var d := num.norm(w);
    SquareBelow(d, radius);
  }

  /** An origin on the sphere moving outward is not a hit: the surface does not
      shadow itself. */
  lemma SphereOnSurfaceOutward(num: Numerics, center: Vec3, radius: real, material: Material, ray: Ray)
    requires SqrtExact(num) && NormExact(num) && radius >= 0.0
    requires QuadC(center, radius, ray) == 0.0 && QuadB(center, ray) > 0.0
    ensures SphereHit(num, center, radius, material, ray) == NoHit()
  {
    var a, b := QuadA(ray), QuadB(center, ray);
    if a != 0.0 {
      assert Discriminant(center, radius, ray) == b * b;
      var s := num.sqrt(b * b);
      RootUnique(s, b);
      assert RootPlus(num, center, radius, ray) == 0.0;
      var w := Sub(ray.eye, center);
      RootUnique(num.norm(w), radius);
    }
  }

  /** A viewer strictly outside, facing the sphere, sees the nearer root once the
      point there is more than EPS away. The direction need not be a unit vector, as
      in the local rays of a scene node. */
  lemma SphereSeenFromOutside(num: Numerics, center: Vec3, radius: real, material: Material, ray: Ray)
    requires SqrtExact(num) && NormExact(num)
    requires QuadA(ray) != 0.0 && QuadC(center, radius, ray) > 0.0
    requires Discriminant(center, radius, ray) >= 0.0 && RootMinus(num, center, radius, ray) > EPS_DISTANCE
    requires num.norm(Sub(PointAt(ray, RootMinus(num, center, radius, ray)), ray.eye)) > EPS_DISTANCE
    ensures SphereHit(num, center, radius, material, ray) ==
            SphereHitAt(num, center, material, ray, RootMinus(num, center, radius, ray))
    ensures RootMinus(num, center, radius, ray) <= RootPlus(num, center, radius, ray)
  {
    RootsOrderedOnRay(num, center, radius, ray);
    var t1, t2 := RootPlus(num, center, radius, ray), RootMinus(num, center, radius, ray);
    DistanceAlong(num, ray, t1);
    DistanceAlong(num, ray, t2);
    ScaleWeakly(t2, t1, num.norm(ray.dir), num.norm(Sub(PointAt(ray, t2), ray.eye)),
                num.norm(Sub(PointAt(ray, t1), ray.eye)));
    OutsideIsOutside(num, center, radius, ray);
    SelectAsWrittenFromOutside(num, center, radius, ray);
  }

  /** With `a != 0` the `+sqrt` root is the larger. */
  lemma RootsOrderedOnRay(num: Numerics, center: Vec3, radius: real, ray: Ray)
    requires SqrtExact(num) && QuadA(ray) != 0.0 && Discriminant(center, radius, ray) >= 0.0
    ensures RootMinus(num, center, radius, ray) <= RootPlus(num, center, radius, ray)
  {
    var t1, t2 := RootPlus(num, center, radius, ray), RootMinus(num, center, radius, ray);
    var a, s := QuadA(ray), num.sqrt(Discriminant(center, radius, ray));
    DotSelf(ray.dir);
    assert 2.0 * a * t1 == -QuadB(center, ray) + s && 2.0 * a * t2 == -QuadB(center, ray) - s;
    RootsOrdered(a, QuadB(center, ray), s, t1, t2);
  }

  /** `c > 0`: the origin is strictly outside, `distsphere > radius`. */
  lemma OutsideIsOutside(num: Numerics, center: Vec3, radius: real, ray: Ray)
    requires NormExact(num) && QuadC(center, radius, ray) > 0.0
    ensures StartsOutside(num, center, radius, ray)
  {
    var d := num.norm(Sub(ray.eye, center));
    assert d * d > radius * radius;
    assert d >= 0.0;
  }

  /** Outside, with the `-sqrt` point no nearer than the other and beyond EPS: the
      selection as written takes `t2`. */
  lemma SelectAsWrittenFromOutside(num: Numerics, center: Vec3, radius: real, ray: Ray)
    requires QuadA(ray) != 0.0 && StartsOutside(num, center, radius, ray)
    requires var dist1 := num.norm(Sub(PointAt(ray, RootPlus(num, center, radius, ray)), ray.eye));
             var dist2 := num.norm(Sub(PointAt(ray, RootMinus(num, center, radius, ray)), ray.eye));
             dist2 <= dist1 && dist2 > EPS_DISTANCE
    ensures SelectRootAsWritten(num, center, radius, ray) == RootMinus(num, center, radius, ray)
  {
  }

  lemma SqrtOf(num: Numerics, x: real, y: real)
    requires SqrtExact(num) && y >= 0.0 && y * y == x
    ensures num.sqrt(x) == y
  {
    RootUnique(num.sqrt(x), y);
  }

  lemma NormOf(num: Numerics, v: Vec3, y: real)
    requires NormExact(num) && y >= 0.0 && y * y == Dot(v, v)
    ensures num.norm(v) == y
  {
    RootUnique(num.norm(v), y);
  }

  /** A ray with `b != 0` has a non-zero direction, so `a > 0`. */
  lemma MovingRayHasPositiveA(center: Vec3, ray: Ray)
    requires QuadB(center, ray) != 0.0
    ensures QuadA(ray) > 0.0
  {
    StillRayCoefficients(center, ray);
    DotSelf(ray.dir);
  }

  /** A zero direction makes `a` and `b` zero, so numpy's roots are `nan` and
      neither selection reports a hit. */
  lemma ResolvedZeroDirection(num: Numerics, center: Vec3, radius: real, material: Material, ray: Ray)
    ensures ray.dir == Zero3 ==> QuadA(ray) == 0.0 && QuadB(center, ray) == 0.0
    ensures ray.dir == Zero3 ==> SphereHitAsWritten(num, center, radius, material, ray) == NoHit()
    ensures ray.dir == Zero3 ==> SphereHit(num, center, radius, material, ray) == NoHit()
  {
    StillRayCoefficients(center, ray);
  }

  lemma StillRayCoefficients(center: Vec3, ray: Ray)
    ensures ray.dir == Zero3 ==> QuadA(ray) == 0.0 && QuadB(center, ray) == 0.0
  {
    if ray.dir == Zero3 {
      assert Times(2.0, ray.dir) == Zero3;
    }
  }

  /** The roots of `a t^2 + b t + c` with `a > 0`, `b > 0`, `c < 0`: one ahead and one
      behind, the one ahead being the nearer. */
  lemma StraddlingRoots(a: real, b: real, c: real, s: real, t1: real, t2: real)
    requires a > 0.0 && b > 0.0 && c < 0.0 && s >= 0.0 && s * s == b * b - 4.0 * a * c
    requires 2.0 * a * t1 == -b + s && 2.0 * a * t2 == -b - s
    ensures t2 < 0.0 < t1 < -t2
  {
    assert s * s > b * b;
    SquareBelow(b, s);
  }

  /** The origin is strictly inside: `|eye - centre| < radius`. */
  lemma InsideNotOutside(num: Numerics, center: Vec3, radius: real, ray: Ray)
    requires NormExact(num) && radius >= 0.0 && QuadC(center, radius, ray) < 0.0
    ensures !StartsOutside(num, center, radius, ray)
  {
    var d := num.norm(Sub(ray.eye, center));
    SquareBelow(d, radius);
  }

  /** A viewer strictly inside the sphere and moving away from its centre is nearer
      to the wall ahead than to the one behind; as written, the selection then takes
      the root behind, and the sphere is not seen at all. */
  lemma InsideViewerMissesWallAsWritten(num: Numerics, center: Vec3, radius: real, material: Material, ray: Ray)
    requires SqrtExact(num) && NormExact(num) && radius >= 0.0
    requires QuadC(center, radius, ray) < 0.0 && QuadB(center, ray) > 0.0
    ensures QuadA(ray) != 0.0 && RootPlus(num, center, radius, ray) > 0.0
    ensures SelectRootAsWritten(num, center, radius, ray) == RootMinus(num, center, radius, ray) < 0.0
    ensures SphereHitAsWritten(num, center, radius, material, ray) == NoHit()
  {
    InsideRootsStraddle(num, center, radius, ray);
    var t1, t2 := RootPlus(num, center, radius, ray), RootMinus(num, center, radius, ray);
    NearerAhead(num, ray, t1, t2);
    InsideNotOutside(num, center, radius, ray);
    SelectAsWrittenFromInside(num, center, radius, ray);
  }

  /** From inside, moving away from the centre: one root behind, one ahead, and the
      one ahead is the nearer. */
  lemma InsideRootsStraddle(num: Numerics, center: Vec3, radius: real, ray: Ray)
    requires SqrtExact(num) && QuadC(center, radius, ray) < 0.0 && QuadB(center, ray) > 0.0
    ensures QuadA(ray) > 0.0
    ensures RootMinus(num, center, radius, ray) < 0.0 < RootPlus(num, center, radius, ray) < -RootMinus(num, center, radius, ray)
  {
    var a, b, c := QuadA(ray), QuadB(center, ray), QuadC(center, radius, ray);
    MovingRayHasPositiveA(center, ray);
    var disc := Discriminant(center, radius, ray);
    assert disc > 0.0 by {
      assert 4.0 * a * c < 0.0;
    }
    var s := num.sqrt(disc);
    var t1, t2 := RootPlus(num, center, radius, ray), RootMinus(num, center, radius, ray);
    assert 2.0 * a * t1 == -b + s && 2.0 * a * t2 == -b - s;
    StraddlingRoots(a, b, c, s, t1, t2);
  }

  /** Along a non-zero direction, a root nearer to zero is a point nearer to the eye. */
  lemma NearerAhead(num: Numerics, ray: Ray, t1: real, t2: real)
    requires NormExact(num) && QuadA(ray) > 0.0 && t2 < 0.0 < t1 < -t2
    ensures num.norm(Sub(PointAt(ray, t1), ray.eye)) < num.norm(Sub(PointAt(ray, t2), ray.eye))
  {
    NormPositive(num, ray.dir);
    DistanceAlong(num, ray, t1);
    DistanceAlong(num, ray, t2);
    ScaleStrictly(t1, -t2, num.norm(ray.dir));
  }

  lemma NormPositive(num: Numerics, v: Vec3)
    requires NormExact(num) && Dot(v, v) > 0.0
    ensures num.norm(v) > 0.0
  {
    assert num.norm(v) * num.norm(v) == Dot(v, v);
  }

  /** The point at `t` is `|t| |dir|` away from the eye. */
  lemma DistanceAlong(num: Numerics, ray: Ray, t: real)
    requires NormExact(num)
    ensures num.norm(Sub(PointAt(ray, t), ray.eye)) == Abs(t) * num.norm(ray.dir)
  {
    assert Sub(PointAt(ray, t), ray.eye) == Times(t, ray.dir);
    NormOfMultiple(num, t, ray.dir);
  }

  /** Not outside and nearer ahead: the selection as written takes `t2`. */
  lemma SelectAsWrittenFromInside(num: Numerics, center: Vec3, radius: real, ray: Ray)
    requires QuadA(ray) != 0.0 && !StartsOutside(num, center, radius, ray)
    requires num.norm(Sub(PointAt(ray, RootPlus(num, center, radius, ray)), ray.eye)) <
             num.norm(Sub(PointAt(ray, RootMinus(num, center, radius, ray)), ray.eye))
    ensures SelectRootAsWritten(num, center, radius, ray) == RootMinus(num, center, radius, ray)
  {
  }

  /** With `a > 0` the `+sqrt` root is the larger. */
  lemma RootsOrdered(a: real, b: real, s: real, t1: real, t2: real)
    requires a > 0.0 && s >= 0.0 && 2.0 * a * t1 == -b + s && 2.0 * a * t2 == -b - s
    ensures t2 <= t1
  {
    var d := t1 - t2;
    calc { d * a; == (2.0 * a * t1 - 2.0 * a * t2) / 2.0; == s; }
    NonNegativeFactor(d, a, s);
  }

  lemma NonNegativeFactor(d: real, a: real, p: real)
    requires a > 0.0 && p >= 0.0 && d * a == p
    ensures d >= 0.0
  {
    if d < 0.0 {
      ScaleStrictly(d, 0.0, a);
      assert false;
    }
  }

  lemma ScaleWeakly(x: real, y: real, k: real, xk: real, yk: real)
    requires x <= y && k >= 0.0 && xk == Abs(x) * k && yk == Abs(y) * k && x >= 0.0
    ensures xk <= yk
  {
    assert Abs(x) == x && Abs(y) == y;
    assert x * k <= y * k;
  }

  lemma ScaleStrictly(x: real, y: real, k: real)
    requires x < y && k > 0.0
    ensures x * k < y * k
  {
  }

  /** The corrected selection sees that wall, at the root ahead, once it is beyond EPS. */
  lemma InsideViewerSeesWall(num: Numerics, center: Vec3, radius: real, material: Material, ray: Ray)
    requires SqrtExact(num) && NormExact(num) && radius >= 0.0
    requires QuadC(center, radius, ray) < 0.0 && QuadB(center, ray) > 0.0
    requires QuadA(ray) != 0.0 && RootPlus(num, center, radius, ray) > EPS_DISTANCE
    ensures SphereHit(num, center, radius, material, ray) ==
            SphereHitAt(num, center, material, ray, RootPlus(num, center, radius, ray))
  {
    SphereSeenFromInside(num, center, radius, material, ray);
  }

  /** The counterexample: a viewer at (0, 0, 0.5) inside the unit sphere at the
      origin, looking along +z towards the nearer wall. */
  predicate InsideSetup(center: Vec3, radius: real, ray: Ray)
  {
    center == Zero3 && radius == 1.0 && ray == Ray(Vec3(0.0, 0.0, 0.5), Vec3(0.0, 0.0, 1.0))
  }

  /** The quadratic of that case: `t^2 + t - 0.75`, discriminant 4. */
  lemma InsideRayQuadratic(center: Vec3, radius: real, ray: Ray)
    requires InsideSetup(center, radius, ray)
    ensures QuadA(ray) == 1.0 && QuadB(center, ray) == 1.0
    ensures QuadC(center, radius, ray) == -0.75 && Discriminant(center, radius, ray) == 4.0
  {
    assert QuadA(ray) == 1.0;
    assert QuadB(center, ray) == 1.0;
    assert QuadC(center, radius, ray) == -0.75;
  }

  /** The root ahead of that viewer is at t = 0.5, the point (0, 0, 1). */
  lemma InsideRayRootAhead(num: Numerics, center: Vec3, radius: real, ray: Ray)
    requires InsideSetup(center, radius, ray) && num.sqrt(4.0) == 2.0
    ensures RootPlus(num, center, radius, ray) == 0.5
  {
    InsideRayQuadratic(center, radius, ray);
    RootPlusOfUnitQuadratic(num, center, radius, ray);
  }

  lemma RootPlusOfUnitQuadratic(num: Numerics, center: Vec3, radius: real, ray: Ray)
    requires QuadA(ray) == 1.0 && QuadB(center, ray) == 1.0 && Discriminant(center, radius, ray) == 4.0
    requires num.sqrt(4.0) == 2.0
    ensures RootPlus(num, center, radius, ray) == 0.5
  {
    var a, b, d := QuadA(ray), QuadB(center, ray), Discriminant(center, radius, ray);
    HalfOfUnit(a, b, num.sqrt(d));
  }

  lemma HalfOfUnit(a: real, b: real, s: real)
    requires a == 1.0 && b == 1.0 && s == 2.0
    ensures (-b + s) / (2.0 * a) == 0.5
  {
  }

  /** As written, that viewer sees nothing. */
  lemma InsideRayMissedAsWritten(num: Numerics, center: Vec3, radius: real, material: Material, ray: Ray)
    requires SqrtExact(num) && NormExact(num) && InsideSetup(center, radius, ray)
    ensures SphereHitAsWritten(num, center, radius, material, ray) == NoHit()
  {
    InsideRayQuadratic(center, radius, ray);
    InsideViewerMissesWallAsWritten(num, center, radius, material, ray);
  }

  /** Corrected, it sees the wall at t = 0.5. */
  lemma InsideRaySeenCorrected(num: Numerics, center: Vec3, radius: real, material: Material, ray: Ray)
    requires SqrtExact(num) && NormExact(num) && InsideSetup(center, radius, ray)
    ensures SphereHit(num, center, radius, material, ray) == SphereHitAt(num, center, material, ray, 0.5)
  {
    SqrtOf(num, 4.0, 2.0);
    InsideRayQuadratic(center, radius, ray);
    InsideRayRootAhead(num, center, radius, ray);
    SphereSeenFromInside(num, center, radius, material, ray);
  }
}
