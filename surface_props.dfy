/** Properties of the plane, box and scene-node intersections of Intersectable.py. */
module SurfaceProps {
  import opened Linear
  import opened Wrappers
  import opened Ray
  import opened HelperClasses
  import opened GeomTransform
  import opened Nearest
  import opened Intersectable

  /** `x k = y` with `k != 0` gives `x = y / k`. */
  lemma DivideOut(x: real, y: real, k: real)
    requires k != 0.0 && x * k == y
    ensures x == y / k
  {
    calc { y / k; == (x * k) / k; == x; }
  }

  /** A quotient whose numerator and denominator never have the same strict sign
      is not positive. */
  lemma QuotientNotPositive(n: real, d: real)
    requires d != 0.0
    requires d > 0.0 ==> n <= 0.0
    requires d < 0.0 ==> n >= 0.0
    ensures n / d <= 0.0
  {
    if d > 0.0 {
      calc { n / d; == n * (1.0 / d); <= 0.0; }
    } else {
      calc { n / d; == (-n) * (1.0 / (-d)); <= 0.0; }
    }
  }

  /** The point at which `dot(normal, eye + t dir) = d` holds, when the ray is not
      parallel to the plane. */
  lemma OnPlaneAt(normal: Vec3, d: real, ray: Ray, t: real)
    requires Dot(normal, ray.dir) != 0.0
    ensures Dot(normal, PointAt(ray, t)) == d <==> t == (d - Dot(normal, ray.eye)) / Dot(normal, ray.dir)
  {
    var k := Dot(normal, ray.dir);
    DotAddScaled(normal, ray.eye, t, ray.dir);
    if Dot(normal, PointAt(ray, t)) == d {
      DivideOut(t, d - Dot(normal, ray.eye), k);
    }
    if t == (d - Dot(normal, ray.eye)) / k {
      calc { t * k; == ((d - Dot(normal, ray.eye)) / k) * k; == d - Dot(normal, ray.eye); }
    }
  }

  // ----- Plane -----

  /** A reported hit lies on the plane `dot(normal, p) = 0`. */
  lemma PlaneHitOnPlane(normal: Vec3, material: Material, material2: Option<Material>, ray: Ray)
    ensures var r := PlaneHit(normal, material, material2, ray);
            r != NoHit() ==> Dot(normal, r.p) == 0.0
  {
    var r := PlaneHit(normal, material, material2, ray);
    if r != NoHit() {
      OnPlaneAt(normal, 0.0, ray, r.t.v);
    }
  }

  /** Conversely, a point of the plane ahead of the ray beyond EPS is the hit
      reported, with the plane's normal and the checkerboard's material there. */
  lemma PlaneHitUnique(normal: Vec3, material: Material, material2: Option<Material>, ray: Ray, t: real)
    requires Dot(normal, ray.dir) != 0.0 && t > EPS_DISTANCE && Dot(normal, PointAt(ray, t)) == 0.0
    ensures PlaneHit(normal, material, material2, ray) ==
            Hit(Finite(t), PointAt(ray, t), normal, Some(CheckerMaterial(material, material2, PointAt(ray, t))))
  {
    OnPlaneAt(normal, 0.0, ray, t);
    assert (0.0 - Dot(normal, ray.eye)) / Dot(normal, ray.dir) == -Dot(normal, ray.eye) / Dot(normal, ray.dir);
  }

  /** An eye on the plane never sees it: the only candidate distance is 0. */
  lemma PlaneEyeOnPlaneNoHit(normal: Vec3, material: Material, material2: Option<Material>, ray: Ray)
    requires Dot(normal, ray.eye) == 0.0
    ensures PlaneHit(normal, material, material2, ray) == NoHit()
  {
    if Dot(normal, ray.dir) != 0.0 {
      assert -Dot(normal, ray.eye) / Dot(normal, ray.dir) == 0.0;
    }
  }

  /** `ceil(x + 1) = ceil(x) + 1`. */
  lemma CeilShift(x: real)
    ensures Ceil(x + 1.0) == Ceil(x) + 1
  {
    assert -(x + 1.0) == (-x) - 1.0;
    assert ((-x) - 1.0).Floor == (-x).Floor - 1;
  }

  /** With two materials, a unit step along x swaps the square's material. */
  lemma CheckerAlternatesAlongX(material: Material, material2: Material, p: Vec3)
    ensures CheckerMaterial(material, Some(material2), Add(p, Vec3(1.0, 0.0, 0.0))) ==
            (if Ceil(p.x) % 2 == Ceil(p.z) % 2 then material2 else material)
  {
    CeilShift(p.x);
    assert Add(p, Vec3(1.0, 0.0, 0.0)) == Vec3(p.x + 1.0, p.y, p.z + 0.0);
  }

  /** The same along z. */
  lemma CheckerAlternatesAlongZ(material: Material, material2: Material, p: Vec3)
    ensures CheckerMaterial(material, Some(material2), Add(p, Vec3(0.0, 0.0, 1.0))) ==
            (if Ceil(p.x) % 2 == Ceil(p.z) % 2 then material2 else material)
  {
    CeilShift(p.z);
    assert Add(p, Vec3(0.0, 0.0, 1.0)) == Vec3(p.x + 0.0, p.y, p.z + 1.0);
  }

  // ----- Box -----

  /** A face result lies on its face plane `dot(normal, p) = d`. */
  lemma BoxPlaneHitOnPlane(material: Material, ray: Ray, normal: Vec3, d: real)
    ensures var r := BoxPlaneHit(material, ray, normal, d);
            r != NoHit() ==> Dot(normal, r.p) == d
  {
    var r := BoxPlaneHit(material, ray, normal, d);
    if r != NoHit() {
      OnPlaneAt(normal, d, ray, r.t.v);
    }
  }

  /** `Box.intersect` returns the sentinel exactly when no face hit lies within the
      bounds beyond EPS. Otherwise it returns the hit of some face `k`, on that face's
      plane and within bounds, strictly nearer than every earlier such face hit and
      no farther than every later one. */
  lemma BoxHitIsNearestFace(lo: Vec3, hi: Vec3, material: Material, ray: Ray)
    ensures var hits := FaceHits(lo, hi, material, ray);
            BoxHit(lo, hi, material, ray) == NoHit() <==>
            forall i :: 0 <= i < 6 ==> !Candidate(FaceInBox(lo, hi), hits[i])
    ensures var hits := FaceHits(lo, hi, material, ray);
            var r := BoxHit(lo, hi, material, ray);
            r != NoHit() ==>
              exists k :: 0 <= k < 6 && r == hits[k] &&
                r.t.Finite? && r.t.v > EPS_DISTANCE && r.p == PointAt(ray, r.t.v) &&
                r.n == FaceNormals[k] && Dot(FaceNormals[k], r.p) == FaceOffsets(lo, hi)[k] &&
                InBounds(lo, hi, r.p) && r.material == Some(material) &&
                (forall j :: 0 <= j < k && Candidate(FaceInBox(lo, hi), hits[j]) ==> r.t.v < hits[j].t.v) &&
                (forall j :: k < j < 6 && Candidate(FaceInBox(lo, hi), hits[j]) ==> r.t.v <= hits[j].t.v)
  {
    var f := FaceInBox(lo, hi);
    var hits := FaceHits(lo, hi, material, ray);
    FirstMinIsLeast(f, hits);
    var k := FirstMinIndex(f, hits);
    if k != -1 {
      BoxPlaneHitOnPlane(material, ray, FaceNormals[k], FaceOffsets(lo, hi)[k]);
      assert hits[k].t.Finite?;
    }
  }

  /** The eye lies in the closed box and, along every axis the ray moves on, sits on
      the face it moves away through. */
  predicate LeavesBox(lo: Vec3, hi: Vec3, ray: Ray)
  {
    lo.x <= ray.eye.x <= hi.x && lo.y <= ray.eye.y <= hi.y && lo.z <= ray.eye.z <= hi.z &&
    (ray.dir.x > 0.0 ==> ray.eye.x == hi.x) && (ray.dir.x < 0.0 ==> ray.eye.x == lo.x) &&
    (ray.dir.y > 0.0 ==> ray.eye.y == hi.y) && (ray.dir.y < 0.0 ==> ray.eye.y == lo.y) &&
    (ray.dir.z > 0.0 ==> ray.eye.z == hi.z) && (ray.dir.z < 0.0 ==> ray.eye.z == lo.z)
  }

  /** A face plane the ray either runs along or moves away from is not hit. */
  lemma FaceBehind(material: Material, ray: Ray, normal: Vec3, d: real)
    requires Dot(normal, ray.dir) > 0.0 ==> d - Dot(normal, ray.eye) <= 0.0
    requires Dot(normal, ray.dir) < 0.0 ==> d - Dot(normal, ray.eye) >= 0.0
    ensures BoxPlaneHit(material, ray, normal, d) == NoHit()
  {
    if Dot(normal, ray.dir) != 0.0 {
      QuotientNotPositive(d - Dot(normal, ray.eye), Dot(normal, ray.dir));
    }
  }

  /** `FaceBehind` with the two dot products already worked out. */
  lemma FaceOnAxis(material: Material, ray: Ray, normal: Vec3, d: real, k: real, g: real)
    requires Dot(normal, ray.dir) == k && d - Dot(normal, ray.eye) == g
    requires k > 0.0 ==> g <= 0.0
    requires k < 0.0 ==> g >= 0.0
    ensures BoxPlaneHit(material, ray, normal, d) == NoHit()
  {
    FaceBehind(material, ray, normal, d);
  }

  /** Face `i` of the box lies behind a ray that leaves the box. */
  lemma FaceBehindLeavingRay(lo: Vec3, hi: Vec3, material: Material, ray: Ray, i: int)
    requires LeavesBox(lo, hi, ray) && 0 <= i < 6
    ensures BoxPlaneHit(material, ray, FaceNormals[i], FaceOffsets(lo, hi)[i]) == NoHit()
  {
    var n, d := FaceNormals[i], FaceOffsets(lo, hi)[i];
    if i == 0 {
      assert n == Vec3(1.0, 0.0, 0.0) && d == hi.x;
      FaceOnAxis(material, ray, Vec3(1.0, 0.0, 0.0), hi.x, ray.dir.x, hi.x - ray.eye.x);
    } else if i == 1 {
      assert n == Vec3(-1.0, 0.0, 0.0) && d == -1.0 * lo.x;
      FaceOnAxis(material, ray, Vec3(-1.0, 0.0, 0.0), -1.0 * lo.x, -ray.dir.x, ray.eye.x - lo.x);
    } else if i == 2 {
      assert n == Vec3(0.0, 1.0, 0.0) && d == hi.y;
      FaceOnAxis(material, ray, Vec3(0.0, 1.0, 0.0), hi.y, ray.dir.y, hi.y - ray.eye.y);
    } else if i == 3 {
      assert n == Vec3(0.0, -1.0, 0.0) && d == -1.0 * lo.y;
      FaceOnAxis(material, ray, Vec3(0.0, -1.0, 0.0), -1.0 * lo.y, -ray.dir.y, ray.eye.y - lo.y);
    } else if i == 4 {
      assert n == Vec3(0.0, 0.0, 1.0) && d == hi.z;
      FaceOnAxis(material, ray, Vec3(0.0, 0.0, 1.0), hi.z, ray.dir.z, hi.z - ray.eye.z);
    } else {
      assert n == Vec3(0.0, 0.0, -1.0) && d == -1.0 * lo.z;
      FaceOnAxis(material, ray, Vec3(0.0, 0.0, -1.0), -1.0 * lo.z, -ray.dir.z, ray.eye.z - lo.z);
    }
  }

  /** A ray starting on a face or a corner of the box and pointing out of it does
      not hit the box. */
  lemma BoxOutwardNoHit(lo: Vec3, hi: Vec3, material: Material, ray: Ray)
    requires LeavesBox(lo, hi, ray)
    ensures BoxHit(lo, hi, material, ray) == NoHit()
  {
    var hits := FaceHits(lo, hi, material, ray);
    forall i | 0 <= i < 6 ensures !Candidate(FaceInBox(lo, hi), hits[i]) {
      FaceBehindLeavingRay(lo, hi, material, ray, i);
    }
    BoxHitIsNearestFace(lo, hi, material, ray);
  }

  /** The cube of side 1 about the origin, seen from `(0, 0, 10)` looking down `-z`. */
  predicate FrontSetup(lo: Vec3, hi: Vec3, ray: Ray)
  {
    lo == Vec3(-0.5, -0.5, -0.5) && hi == Vec3(0.5, 0.5, 0.5) &&
    ray == Ray(Vec3(0.0, 0.0, 10.0), Vec3(0.0, 0.0, -1.0))
  }

  /** `FaceHits` written out face by face. */
  lemma FaceHitsUnrolled(lo: Vec3, hi: Vec3, material: Material, ray: Ray)
    ensures FaceHits(lo, hi, material, ray) ==
            [BoxPlaneHit(material, ray, Vec3(1.0, 0.0, 0.0), 1.0 * hi.x),
             BoxPlaneHit(material, ray, Vec3(-1.0, 0.0, 0.0), -1.0 * lo.x),
             BoxPlaneHit(material, ray, Vec3(0.0, 1.0, 0.0), 1.0 * hi.y),
             BoxPlaneHit(material, ray, Vec3(0.0, -1.0, 0.0), -1.0 * lo.y),
             BoxPlaneHit(material, ray, Vec3(0.0, 0.0, 1.0), 1.0 * hi.z),
             BoxPlaneHit(material, ray, Vec3(0.0, 0.0, -1.0), -1.0 * lo.z)]
  {
  }

  /** A face plane the ray runs parallel to gives nothing. */
  lemma ParallelFace(material: Material, ray: Ray, normal: Vec3, d: real)
    requires normal.z == 0.0 && ray.dir.x == 0.0 && ray.dir.y == 0.0
    ensures BoxPlaneHit(material, ray, normal, d) == NoHit()
  {
    assert Dot(normal, ray.dir) == 0.0;
  }

  /** The front plane `z = 0.5` is met at 9.5. */
  lemma FrontFrontFace(material: Material, ray: Ray)
    requires ray == Ray(Vec3(0.0, 0.0, 10.0), Vec3(0.0, 0.0, -1.0))
    ensures BoxPlaneHit(material, ray, Vec3(0.0, 0.0, 1.0), 0.5) ==
            Hit(Finite(9.5), Vec3(0.0, 0.0, 0.5), Vec3(0.0, 0.0, 1.0), Some(material))
  {
    var n := Vec3(0.0, 0.0, 1.0);
    assert Dot(n, ray.dir) == -1.0 && Dot(n, ray.eye) == 10.0;
    assert (0.5 - 10.0) / -1.0 == 9.5;
    assert PointAt(ray, 9.5) == Vec3(0.0, 0.0, 0.5);
  }

  /** The back plane `z = -0.5` is met at 10.5. */
  lemma FrontBackFace(material: Material, ray: Ray)
    requires ray == Ray(Vec3(0.0, 0.0, 10.0), Vec3(0.0, 0.0, -1.0))
    ensures BoxPlaneHit(material, ray, Vec3(0.0, 0.0, -1.0), 0.5) ==
            Hit(Finite(10.5), Vec3(0.0, 0.0, -0.5), Vec3(0.0, 0.0, -1.0), Some(material))
  {
    var n := Vec3(0.0, 0.0, -1.0);
    assert Dot(n, ray.dir) == 1.0 && Dot(n, ray.eye) == -10.0;
    assert (0.5 - -10.0) / 1.0 == 10.5;
    assert PointAt(ray, 10.5) == Vec3(0.0, 0.0, -0.5);
  }

  /** The running minimum over four sentinels, an accepted hit and a farther one. */
  lemma FirstMinOfFourMissesThenTwo(f: Filter, hits: seq<Hit>)
    requires |hits| == 6 && hits[0] == NoHit() && hits[1] == NoHit() && hits[2] == NoHit() && hits[3] == NoHit()
    requires Accept(f, hits[4]) && hits[4].t.Finite? && !Less(hits[5].t, hits[4].t)
    ensures FirstMin(f, hits) == hits[4]
  {
    assert hits[..1][..0] == [];
    assert FirstMin(f, hits[..1]) == NoHit();
    assert hits[..2][..1] == hits[..1];
    assert FirstMin(f, hits[..2]) == NoHit();
    assert hits[..3][..2] == hits[..2];
    assert FirstMin(f, hits[..3]) == NoHit();
    assert hits[..4][..3] == hits[..3];
    assert FirstMin(f, hits[..4]) == NoHit();
    assert hits[..5][..4] == hits[..4];
    assert FirstMin(f, hits[..5]) == hits[4];
    assert hits[..5] == hits[..|hits| - 1];
  }

  /** `test_ray_intersection_front`: the front face is hit at distance 9.5, at
      `(0, 0, 0.5)`, with normal `+z`. */
  lemma BoxFrontHit(lo: Vec3, hi: Vec3, material: Material, ray: Ray)
    requires FrontSetup(lo, hi, ray)
    ensures BoxHit(lo, hi, material, ray) ==
            Hit(Finite(9.5), Vec3(0.0, 0.0, 0.5), Vec3(0.0, 0.0, 1.0), Some(material))
  {
    FaceHitsUnrolled(lo, hi, material, ray);
    ParallelFace(material, ray, Vec3(1.0, 0.0, 0.0), 1.0 * hi.x);
    ParallelFace(material, ray, Vec3(-1.0, 0.0, 0.0), -1.0 * lo.x);
    ParallelFace(material, ray, Vec3(0.0, 1.0, 0.0), 1.0 * hi.y);
    ParallelFace(material, ray, Vec3(0.0, -1.0, 0.0), -1.0 * lo.y);
    FrontFrontFace(material, ray);
    FrontBackFace(material, ray);
    FirstMinOfFourMissesThenTwo(FaceInBox(lo, hi), FaceHits(lo, hi, material, ray));
  }

  // ----- SceneNode -----

  /** A node without children reports nothing. */
  lemma NodeWithoutChildren(num: Numerics, m: Mat4, minv: Mat4, ray: Ray)
    ensures Intersect(num, Node(m, minv, []), ray) == NoHit()
  {
    assert ChildHits(num, Node(m, minv, []), ray) == [];
  }

  /** Mapping a local point back with `M` gives the world point at the same `t`:
      the local ray is the world ray expressed through `Minv`. */
  lemma LocalPointMapsBack(m: Mat4, minv: Mat4, ray: Ray, t: real)
    requires Affine(m) && MatMul(m, minv) == Identity
    ensures Drop(MatVec(m, Point(PointAt(LocalRay(minv, ray), t)))) == PointAt(ray, t)
  {
    InverseOfAffineIsAffine(m, minv);
    var E, F := Point(ray.eye), Point(Add(ray.eye, ray.dir));
    var W := Point(PointAt(ray, t));
    LocalPointHomogeneous(minv, ray, t);
    WorldPointHomogeneous(ray, t);
    MatVecLinear(minv, E, t, Sub4(F, E));
    MatVecSub(minv, F, E);
    assert MatVec(minv, W) == Point(PointAt(LocalRay(minv, ray), t));
    MatVecMul(m, minv, W);
    IdentityIsNeutral(W, m);
  }

  /** The local point at `t`, as a homogeneous point, is the same affine combination
      of the mapped eye and the mapped end of the direction. */
  lemma LocalPointHomogeneous(minv: Mat4, ray: Ray, t: real)
    requires Affine(minv)
    ensures var e, f := MatVec(minv, Point(ray.eye)), MatVec(minv, Point(Add(ray.eye, ray.dir)));
            Point(PointAt(LocalRay(minv, ray), t)) == Add4(e, Times4(t, Sub4(f, e)))
  {
    var e, f := MatVec(minv, Point(ray.eye)), MatVec(minv, Point(Add(ray.eye, ray.dir)));
    assert e.w == 1.0 && f.w == 1.0;
    AffineCombination(e, f, t);
  }

  lemma AffineCombination(e: Vec4, f: Vec4, t: real)
    requires e.w == 1.0 && f.w == 1.0
    ensures Point(PointAt(Ray(Drop(e), Drop(Sub4(f, e))), t)) == Add4(e, Times4(t, Sub4(f, e)))
  {
    assert t * (f.w - e.w) == 0.0;
  }

  lemma WorldPointHomogeneous(ray: Ray, t: real)
    ensures var E, F := Point(ray.eye), Point(Add(ray.eye, ray.dir));
            Point(PointAt(ray, t)) == Add4(E, Times4(t, Sub4(F, E)))
  {
  }

  /** A node returns the sentinel, or a hit of one of its children at the child's
      own `t`, that `t` beyond EPS and strictly below every earlier child's and no
      greater than every later child's. */
  lemma NodeHitIsNearestChild(num: Numerics, s: Shape, ray: Ray)
    requires s.Node?
    ensures var hits := ChildHits(num, s, ray);
            var r := Intersect(num, s, ray);
            r == NoHit() <==> forall i :: 0 <= i < |hits| ==> !Candidate(BeyondEps, hits[i])
    ensures var hits := ChildHits(num, s, ray);
            var r := Intersect(num, s, ray);
            var local := LocalRay(s.Minv, ray);
            r != NoHit() ==>
              exists k :: 0 <= k < |s.children| &&
                r == ToWorld(num, s.M, s.Minv, Intersect(num, s.children[k], local)) &&
                r.t == Intersect(num, s.children[k], local).t && r.t.Finite? && r.t.v > EPS_DISTANCE &&
                (forall j :: 0 <= j < k && Candidate(BeyondEps, hits[j]) ==> r.t.v < hits[j].t.v) &&
                (forall j :: k < j < |hits| && Candidate(BeyondEps, hits[j]) ==> r.t.v <= hits[j].t.v)
  {
    var hits := ChildHits(num, s, ray);
    FirstMinIsLeast(BeyondEps, hits);
  }

  /** Every surface of a well-formed scene reports the sentinel or a hit at some
      `t > EPS`, at the point of the ray at that `t`, with a material. */
  lemma {:induction false} HitLiesOnRay(num: Numerics, s: Shape, ray: Ray)
    requires WellFormed(s)
    ensures var r := Intersect(num, s, ray);
            r == NoHit() ||
            (r.t.Finite? && r.t.v > EPS_DISTANCE && r.p == PointAt(ray, r.t.v) && r.material.Some?)
    decreases s
  {
    match s
    case Sphere(c, rad, mat) =>
    case Plane(n, mat, mat2) =>
    case Box(lo, hi, mat) =>
      BoxHitIsNearestFace(lo, hi, mat, ray);
    case Node(m, minv, children) =>
      var r := Intersect(num, s, ray);
      if r != NoHit() {
        NodeHitIsNearestChild(num, s, ray);
        var local := LocalRay(minv, ray);
        var k :| 0 <= k < |children| && r == ToWorld(num, m, minv, Intersect(num, children[k], local)) &&
                 r.t == Intersect(num, children[k], local).t && r.t.Finite? && r.t.v > EPS_DISTANCE;
        var h := Intersect(num, children[k], local);
        HitLiesOnRay(num, children[k], local);
        assert h != NoHit();
        LocalPointMapsBack(m, minv, ray, h.t.v);
      }
  }
}
