/** Intersectable.py: ray intersection with a sphere, a plane, an axis-aligned box
    and a transforming scene node that holds children. Every intersector returns
    the "no hit" sentinel or a hit at a distance `t > EPS_DISTANCE`. */
module Intersectable {
  import opened Linear
  import opened Wrappers
  import opened Ray
  import opened HelperClasses
  import opened GeomTransform
  import opened Nearest

  /** The surfaces a scene is made of. A node carries its matrix `M`, the inverse
      `Minv` it was given, and its children. */
  datatype Shape =
    | Sphere(center: Vec3, radius: real, material: Material)
    | Plane(normal: Vec3, material: Material, material2: Option<Material>)
    | Box(minPoint: Vec3, maxPoint: Vec3, material: Material)
    | Node(M: Mat4, Minv: Mat4, children: seq<Shape>)

  /** What the constructors establish: a box has `min <= max` (an assertion of
      `Box.__init__`), and a node's `Minv` inverts its affine `M`. */
  predicate WellFormed(s: Shape)
  {
    match s
    case Sphere(_, _, _) => true
    case Plane(_, _, _) => true
    case Box(lo, hi, _) => lo.x <= hi.x && lo.y <= hi.y && lo.z <= hi.z
    case Node(m, minv, children) =>
      Affine(m) && MatMul(m, minv) == Identity &&
      forall i :: 0 <= i < |children| ==> WellFormed(children[i])
  }

  // ----- Sphere -----

  /** The quadratic `a t^2 + b t + c = 0` of `|eye + t dir - center| = radius`. */
  function QuadA(ray: Ray): real
  {
    Dot(ray.dir, ray.dir)
  }

  function QuadB(center: Vec3, ray: Ray): real
  {
    Dot(Times(2.0, ray.dir), Sub(ray.eye, center))
  }

  function QuadC(center: Vec3, radius: real, ray: Ray): real
  {
    Dot(Sub(ray.eye, center), Sub(ray.eye, center)) - radius * radius
  }

  function Discriminant(center: Vec3, radius: real, ray: Ray): real
  {
    QuadB(center, ray) * QuadB(center, ray) - 4.0 * QuadA(ray) * QuadC(center, radius, ray)
  }

  /** `t1` takes `+sqrt`, `t2` takes `-sqrt`. */
  function RootPlus(num: Numerics, center: Vec3, radius: real, ray: Ray): real
    requires QuadA(ray) != 0.0
  {
    (-QuadB(center, ray) + num.sqrt(Discriminant(center, radius, ray))) / (2.0 * QuadA(ray))
  }

  function RootMinus(num: Numerics, center: Vec3, radius: real, ray: Ray): real
    requires QuadA(ray) != 0.0
  {
    (-QuadB(center, ray) - num.sqrt(Discriminant(center, radius, ray))) / (2.0 * QuadA(ray))
  }

  /** `distsphere > self.radius`: the origin is strictly outside the sphere. */
  predicate StartsOutside(num: Numerics, center: Vec3, radius: real, ray: Ray)
  {
    num.norm(Sub(ray.eye, center)) > radius
  }

  /** The root selection of `Sphere.intersect` as written: the root nearer to the
      origin if it is beyond EPS and the origin is outside, else the other one. */
  function SelectRootAsWritten(num: Numerics, center: Vec3, radius: real, ray: Ray): real
    requires QuadA(ray) != 0.0
  {
    var t1 := RootPlus(num, center, radius, ray);
    var t2 := RootMinus(num, center, radius, ray);
    var dist1 := num.norm(Sub(PointAt(ray, t1), ray.eye));
    var dist2 := num.norm(Sub(PointAt(ray, t2), ray.eye));
    var outside := StartsOutside(num, center, radius, ray);
    if dist1 < dist2 then (if dist1 > EPS_DISTANCE && outside then t1 else t2)
    else (if dist2 > EPS_DISTANCE && outside then t2 else t1)
  }

  /** The selection with the inside case corrected: an origin that is not outside
      sees the sphere along the `+sqrt` root, the one ahead of it. */
  function SelectRoot(num: Numerics, center: Vec3, radius: real, ray: Ray): real
    requires QuadA(ray) != 0.0
  {
    if StartsOutside(num, center, radius, ray) then SelectRootAsWritten(num, center, radius, ray)
    else RootPlus(num, center, radius, ray)
  }

  /** The result filled in once a root `t > EPS` has been chosen. */
  function SphereHitAt(num: Numerics, center: Vec3, material: Material, ray: Ray, t: real): Hit
  {
    var p := PointAt(ray, t);
    Hit(Finite(t), p, Normalize(num, Sub(p, center)), Some(material))
  }

  /** `Sphere.intersect` exactly as written. A zero direction gives `a = b = 0`,
      so both roots are numpy's `nan` and no comparison holds: no hit. */
  function SphereHitAsWritten(num: Numerics, center: Vec3, radius: real, material: Material, ray: Ray): (r: Hit)
    ensures Discriminant(center, radius, ray) < 0.0 || QuadA(ray) == 0.0 ==> r == NoHit()
    ensures r == NoHit() || (r.t.Finite? && r.t.v > EPS_DISTANCE && r == SphereHitAt(num, center, material, ray, r.t.v))
  {
    if Discriminant(center, radius, ray) < 0.0 || QuadA(ray) == 0.0 then NoHit()
    else
      var t := SelectRootAsWritten(num, center, radius, ray);
      if t > EPS_DISTANCE then SphereHitAt(num, center, material, ray, t) else NoHit()
  }

  /** `Sphere.intersect` with the corrected root selection; the rest of the model
      uses this one. */
  function SphereHit(num: Numerics, center: Vec3, radius: real, material: Material, ray: Ray): (r: Hit)
    ensures Discriminant(center, radius, ray) < 0.0 || QuadA(ray) == 0.0 ==> r == NoHit()
    ensures r == NoHit() || (r.t.Finite? && r.t.v > EPS_DISTANCE && r == SphereHitAt(num, center, material, ray, r.t.v))
    ensures r != NoHit() && !StartsOutside(num, center, radius, ray) ==> r.t.v == RootPlus(num, center, radius, ray)
  {
    if Discriminant(center, radius, ray) < 0.0 || QuadA(ray) == 0.0 then NoHit()
    else
      var t := SelectRoot(num, center, radius, ray);
      if t > EPS_DISTANCE then SphereHitAt(num, center, material, ray, t) else NoHit()
  }

  // ----- Plane -----

  /** numpy's `ceil` on a real. */
  function Ceil(x: real): int
  {
    -((-x).Floor)
  }

  /** The checkerboard: `material` where `ceil(x) mod 2 == ceil(z) mod 2`, else
      `material2`; a plane without a second material has only the first. */
  function CheckerMaterial(material: Material, material2: Option<Material>, p: Vec3): Material
  {
    if material2.None? then material
    else if Ceil(p.x) % 2 == Ceil(p.z) % 2 then material
    else material2.value
  }

  /** `Plane.intersect` for the plane `dot(normal, p) = 0`. */
  function PlaneHit(normal: Vec3, material: Material, material2: Option<Material>, ray: Ray): (r: Hit)
    ensures Dot(normal, ray.dir) == 0.0 ==> r == NoHit()
    ensures r == NoHit() || (r.t.Finite? && r.t.v > EPS_DISTANCE && r.p == PointAt(ray, r.t.v) &&
                             r.n == normal && r.material == Some(CheckerMaterial(material, material2, r.p)))
  {
    var parallel := Dot(normal, ray.dir);
    if parallel == 0.0 then NoHit()
    else
      var t := -Dot(normal, ray.eye) / parallel;
      if t > EPS_DISTANCE then
        var p := PointAt(ray, t);
        Hit(Finite(t), p, normal, Some(CheckerMaterial(material, material2, p)))
      else NoHit()
  }

  // ----- Box -----

  /** `Box.plane_intersect`: the plane `dot(normal, p) = d`. */
  function BoxPlaneHit(material: Material, ray: Ray, normal: Vec3, d: real): (r: Hit)
    ensures Dot(normal, ray.dir) == 0.0 ==> r == NoHit()
    ensures r == NoHit() || (r.t.Finite? && r.t.v > EPS_DISTANCE && r.p == PointAt(ray, r.t.v) &&
                             r.n == normal && r.material == Some(material))
  {
    var parallel := Dot(normal, ray.dir);
    if parallel == 0.0 then NoHit()
    else
      var t := (d - Dot(normal, ray.eye)) / parallel;
      if t > EPS_DISTANCE then Hit(Finite(t), PointAt(ray, t), normal, Some(material)) else NoHit()
  }

  /** The face normals in the order the box visits them: +x, -x, +y, -y, +z, -z. */
  const FaceNormals: seq<Vec3> := [Vec3(1.0, 0.0, 0.0), Vec3(-1.0, 0.0, 0.0), Vec3(0.0, 1.0, 0.0),
                                   Vec3(0.0, -1.0, 0.0), Vec3(0.0, 0.0, 1.0), Vec3(0.0, 0.0, -1.0)]

  /** `ds`: each face's offset, the normal's non-zero entry times the matching bound. */
  function FaceOffsets(lo: Vec3, hi: Vec3): (ds: seq<real>)
    ensures |ds| == 6
  {
    [1.0 * hi.x, -1.0 * lo.x, 1.0 * hi.y, -1.0 * lo.y, 1.0 * hi.z, -1.0 * lo.z]
  }

  /** The six face-plane results, in visiting order. */
  function FaceHits(lo: Vec3, hi: Vec3, material: Material, ray: Ray): (hits: seq<Hit>)
    ensures |hits| == 6
  {
    seq(6, i requires 0 <= i < 6 => BoxPlaneHit(material, ray, FaceNormals[i], FaceOffsets(lo, hi)[i]))
  }

  /** `Box.intersect`: the first face hit of least `t` among those within bounds. */
  function BoxHit(lo: Vec3, hi: Vec3, material: Material, ray: Ray): Hit
  {
    FirstMin(FaceInBox(lo, hi), FaceHits(lo, hi, material, ray))
  }

  /** `Box.within_bounds`: a loop over the coordinates with an early return. */
  method WithinBounds(lo: Vec3, hi: Vec3, point: Vec3) returns (inside: bool)
    ensures inside == InBounds(lo, hi, point)
  {
    for i := 0 to 3
      invariant forall j :: 0 <= j < i ==> At(lo, j) - EPS_DISTANCE <= At(point, j) <= At(hi, j) + EPS_DISTANCE
    {
      if At(point, i) < At(lo, i) - EPS_DISTANCE || At(point, i) > At(hi, i) + EPS_DISTANCE {
        return false;
      }
    }
    assert forall j :: 0 <= j < 3 ==> At(lo, j) - EPS_DISTANCE <= At(point, j) <= At(hi, j) + EPS_DISTANCE;
    assert At(point, 0) == point.x && At(point, 1) == point.y && At(point, 2) == point.z;
    return true;
  }

  /** `Box.intersect`: visit the six faces, keeping `isect` and `min_t`. */
  method BoxIntersect(lo: Vec3, hi: Vec3, material: Material, ray: Ray) returns (isect: Hit)
    ensures isect == BoxHit(lo, hi, material, ray)
  {
    var hits := FaceHits(lo, hi, material, ray);
    var ds := FaceOffsets(lo, hi);
    isect := NoHit();
    var minT := Inf;
    for i := 0 to 6
      invariant isect == FirstMin(FaceInBox(lo, hi), hits[..i])
      invariant minT == isect.t
    {
      var thisPlane := BoxPlaneHit(material, ray, FaceNormals[i], ds[i]);
      assert hits[..i + 1][..i] == hits[..i];
      var inside := WithinBounds(lo, hi, thisPlane.p);
      if inside {
        if GtEps(thisPlane.t) && Less(thisPlane.t, minT) {
          isect := thisPlane;
          minT := thisPlane.t;
        }
      }
    }
    assert hits[..6] == hits;
  }

  // ----- SceneNode -----

  /** The ray in the node's local frame: the origin mapped by `Minv`, and the
      direction as the difference of the mapped end point `eye + dir` and the
      mapped origin. */
  function LocalRay(minv: Mat4, ray: Ray): Ray
  {
    var e := MatVec(minv, Point(ray.eye));
    var end := MatVec(minv, Point(Add(ray.eye, ray.dir)));
    Ray(Drop(e), Drop(Sub4(end, e)))
  }

  /** A child's result mapped back: `p` by `M` and `n` by `Minv^T` applied to `(n, 1)`
      and normalised. `t` and the material pass through unchanged. */
  function ToWorld(num: Numerics, m: Mat4, minv: Mat4, h: Hit): (r: Hit)
    ensures r.t == h.t && r.material == h.material
  {
    Hit(h.t, Drop(MatVec(m, Point(h.p))), Normalize(num, Drop(MatVec(Transpose(minv), Point(h.n)))), h.material)
  }

  /** `intersect` of any surface. */
  function Intersect(num: Numerics, s: Shape, ray: Ray): Hit
    decreases s, 1
  {
    match s
    case Sphere(c, r, mat) => SphereHit(num, c, r, mat, ray)
    case Plane(n, mat, mat2) => PlaneHit(n, mat, mat2, ray)
    case Box(lo, hi, mat) => BoxHit(lo, hi, mat, ray)
    case Node(_, _, _) => FirstMin(BeyondEps, ChildHits(num, s, ray))
  }

  /** A node's children intersected with the local ray, mapped back to the node's frame. */
  function ChildHits(num: Numerics, s: Shape, ray: Ray): (hits: seq<Hit>)
    requires s.Node?
    ensures |hits| == |s.children|
    decreases s, 0
  {
    var local := LocalRay(s.Minv, ray);
    seq(|s.children|, i requires 0 <= i < |s.children| => ToWorld(num, s.M, s.Minv, Intersect(num, s.children[i], local)))
  }

  /** `SceneNode.intersect`: transform the ray, visit the children in order and keep
      the first hit with the least `t > EPS`. */
  method NodeIntersect(num: Numerics, s: Shape, ray: Ray) returns (isect: Hit)
    requires s.Node?
    ensures isect == Intersect(num, s, ray)
    decreases s, 0
  {
    var invEye := MatVec(s.Minv, Point(ray.eye));
    var invDir := MatVec(s.Minv, Point(Add(ray.eye, ray.dir)));
    invDir := Sub4(invDir, invEye);
    var inverseRay := Ray(Drop(invEye), Drop(invDir));
    ghost var hits := ChildHits(num, s, ray);
    isect := NoHit();
    var minT := Inf;
    for i := 0 to |s.children|
      invariant isect == FirstMin(BeyondEps, hits[..i])
      invariant minT == isect.t
    {
      var tempIsect := IntersectShape(num, s.children[i], inverseRay);
      var tempP := Drop(MatVec(s.M, Point(tempIsect.p)));
      var tempN := Normalize(num, Drop(MatVec(Transpose(s.Minv), Point(tempIsect.n))));
      tempIsect := tempIsect.(p := tempP, n := tempN);
      assert hits[..i + 1][..i] == hits[..i];
      if Less(tempIsect.t, minT) && GtEps(tempIsect.t) {
        minT := tempIsect.t;
        isect := tempIsect;
      }
    }
    assert hits[..|s.children|] == hits;
  }

  /** Dispatch on the kind of surface. */
  method IntersectShape(num: Numerics, s: Shape, ray: Ray) returns (isect: Hit)
    ensures isect == Intersect(num, s, ray)
    decreases s, 1
  {
    match s
    case Sphere(c, r, mat) => isect := SphereHit(num, c, r, mat, ray);
    case Plane(n, mat, mat2) => isect := PlaneHit(n, mat, mat2, ray);
    case Box(lo, hi, mat) => isect := BoxIntersect(lo, hi, mat, ray);
    case Node(_, _, _) => isect := NodeIntersect(num, s, ray);
  }
}
