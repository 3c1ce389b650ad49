/** Scene.py: the nearest-surface search, the shadow test that decides which lights a
    point sees, Blinn-Phong shading and the per-pixel colour of `renderScene`. The
    camera ray of a pixel (`create_ray`, which inverts a matrix) is a parameter. */
module SceneModel {
  import opened Linear
  import opened Wrappers
  import opened Ray
  import opened HelperClasses
  import opened GeomTransform
  import opened Nearest
  import opened Intersectable
  import SurfaceProps

  /** What rendering reads of a `Scene`: its lights, its surfaces, the scene ambient
      colour and the renderer's background colour. */
  datatype Scene = Scene(lights: seq<Light>, surfaces: seq<Shape>, ambient: Vec3, bgcolor: Vec3)

  // ----- Nearest surface -----

  /** Every surface's own result for `ray`, in list order. */
  function SurfaceHits(num: Numerics, surfaces: seq<Shape>, ray: Ray): (hits: seq<Hit>)
    ensures |hits| == |surfaces|
  {
    seq(|surfaces|, i requires 0 <= i < |surfaces| => Intersect(num, surfaces[i], ray))
  }

  /** `get_nearest_object_intersection`: the running minimum with a strict `<` and no
      further test. */
  function NearestHit(num: Numerics, surfaces: seq<Shape>, ray: Ray): Hit
  {
    FirstMin(Any, SurfaceHits(num, surfaces, ray))
  }

  /** The loop of `get_nearest_object_intersection`. */
  method GetNearestObjectIntersection(num: Numerics, surfaces: seq<Shape>, ray: Ray) returns (nearest: Hit)
    ensures nearest == NearestHit(num, surfaces, ray)
  {
    ghost var hits := SurfaceHits(num, surfaces, ray);
    nearest := NoHit();
    for i := 0 to |surfaces|
      invariant nearest == FirstMin(Any, hits[..i])
    {
      var r := IntersectShape(num, surfaces[i], ray);
      assert hits[..i + 1][..i] == hits[..i];
      if Less(r.t, nearest.t) {
        nearest := r;
      }
    }
    assert hits[..|surfaces|] == hits;
  }

  /** The sentinel comes back exactly when no surface reports a finite `t`. Otherwise
      the result is the result of some surface `k`, whose `t` is strictly below every
      earlier surface's and no greater than every later surface's. */
  lemma NearestIsFirstLeast(num: Numerics, surfaces: seq<Shape>, ray: Ray)
    ensures var hits := SurfaceHits(num, surfaces, ray);
            NearestHit(num, surfaces, ray) == NoHit() <==> forall i :: 0 <= i < |hits| ==> hits[i].t.Inf?
    ensures var hits := SurfaceHits(num, surfaces, ray);
            var r := NearestHit(num, surfaces, ray);
            r != NoHit() ==>
              exists k :: 0 <= k < |surfaces| && r == Intersect(num, surfaces[k], ray) && r.t.Finite? &&
                (forall j :: 0 <= j < k && hits[j].t.Finite? ==> r.t.v < hits[j].t.v) &&
                (forall j :: k < j < |hits| && hits[j].t.Finite? ==> r.t.v <= hits[j].t.v)
  {
    var hits := SurfaceHits(num, surfaces, ray);
    FirstMinIsLeast(Any, hits);
  }

  /** In a scene of well-formed surfaces the nearest hit is the sentinel or a point of
      the ray beyond EPS that carries a material. */
  lemma NearestHitLiesOnRay(num: Numerics, surfaces: seq<Shape>, ray: Ray)
    requires forall i :: 0 <= i < |surfaces| ==> WellFormed(surfaces[i])
    ensures var r := NearestHit(num, surfaces, ray);
            r == NoHit() ||
            (r.t.Finite? && r.t.v > EPS_DISTANCE && r.p == PointAt(ray, r.t.v) && r.material.Some?)
  {
    var r := NearestHit(num, surfaces, ray);
    NearestIsFirstLeast(num, surfaces, ray);
    if r != NoHit() {
      var k :| 0 <= k < |surfaces| && r == Intersect(num, surfaces[k], ray) && r.t.Finite?;
      SurfaceProps.HitLiesOnRay(num, surfaces[k], ray);
    }
  }

  // ----- Visible lights -----

  /** The shadow ray from `p` towards the light. */
  function ShadowRay(num: Numerics, p: Vec3, light: Light): Ray
  {
    Ray(p, Normalize(num, Sub(light.pointFrom, p)))
  }

  /** The value of a float division: a real, or what IEEE 754 gives for `a / 0`. */
  datatype Quotient = Real(v: real) | PosInf | NegInf | NaN

  function Divide(a: real, b: real): (q: Quotient)
    ensures b != 0.0 ==> q == Real(a / b)
    ensures b == 0.0 ==> (q.NaN? <==> a == 0.0)
  {
    if b != 0.0 then Real(a / b) else if a > 0.0 then PosInf else if a < 0.0 then NegInf else NaN
  }

  /** `light_t`, the shadow-ray parameter of the light, from the first non-zero
      component of the direction (x, then y, then z). */
  function LightT(p: Vec3, from: Vec3, dir: Vec3): Quotient
  {
    if dir.x != 0.0 then Real((from.x - p.x) / dir.x)
    else if dir.y != 0.0 then Real((from.y - p.y) / dir.y)
    else Divide(from.z - p.z, dir.z)
  }

  /** Python's `light_t <= nearest_isect.t`; a NaN compares false with everything. */
  predicate AtMost(q: Quotient, t: Param)
  {
    match q
    case Real(v) => t.Inf? || v <= t.v
    case PosInf => t.Inf?
    case NegInf => true
    case NaN => false
  }

  /** A light is visible from `p` when it is no farther along the shadow ray than the
      first surface that ray meets. */
  predicate LightVisible(num: Numerics, surfaces: seq<Shape>, p: Vec3, light: Light)
  {
    var ray := ShadowRay(num, p, light);
    AtMost(LightT(p, light.pointFrom, ray.dir), NearestHit(num, surfaces, ray).t)
  }

  /** `get_visible_lights`: the visible lights, in list order. */
  function VisibleLights(num: Numerics, surfaces: seq<Shape>, lights: seq<Light>, p: Vec3): seq<Light>
  {
    if |lights| == 0 then []
    else
      var last := lights[|lights| - 1];
      VisibleLights(num, surfaces, lights[..|lights| - 1], p) +
      (if LightVisible(num, surfaces, p, last) then [last] else [])
  }

  /** The loop of `get_visible_lights`. */
  method GetVisibleLights(num: Numerics, scene: Scene, isect: Hit) returns (visibleLights: seq<Light>)
    ensures visibleLights == VisibleLights(num, scene.surfaces, scene.lights, isect.p)
  {
    visibleLights := [];
    for i := 0 to |scene.lights|
      invariant visibleLights == VisibleLights(num, scene.surfaces, scene.lights[..i], isect.p)
    {
      var light := scene.lights[i];
      var ray := Ray(isect.p, Normalize(num, Sub(light.pointFrom, isect.p)));
      var nearest := GetNearestObjectIntersection(num, scene.surfaces, ray);
      var lightT: Quotient;
      if ray.dir.x != 0.0 {
        lightT := Real((light.pointFrom.x - isect.p.x) / ray.dir.x);
      } else if ray.dir.y != 0.0 {
        lightT := Real((light.pointFrom.y - isect.p.y) / ray.dir.y);
      } else {
        lightT := Divide(light.pointFrom.z - isect.p.z, ray.dir.z);
      }
      assert scene.lights[..i + 1][..i] == scene.lights[..i];
      if AtMost(lightT, nearest.t) {
        visibleLights := visibleLights + [light];
      }
    }
    assert scene.lights[..|scene.lights|] == scene.lights;
  }

  /** `a` is `b` with some elements deleted. */
  predicate Subsequence<T(==)>(a: seq<T>, b: seq<T>)
    decreases |b|
  {
    if |a| == 0 then true
    else if |b| == 0 then false
    else (a[|a| - 1] == b[|b| - 1] && Subsequence(a[..|a| - 1], b[..|b| - 1])) || Subsequence(a, b[..|b| - 1])
  }

  /** One more light at the end of the list is kept or dropped on its own. */
  lemma VisibleLightsSnoc(num: Numerics, surfaces: seq<Shape>, lights: seq<Light>, light: Light, p: Vec3)
    ensures VisibleLights(num, surfaces, lights + [light], p) ==
            VisibleLights(num, surfaces, lights, p) + (if LightVisible(num, surfaces, p, light) then [light] else [])
  {
    var more := lights + [light];
    assert more[..|more| - 1] == lights;
  }

  /** The visible lights keep the list's order. */
  lemma {:induction false} VisibleLightsInOrder(num: Numerics, surfaces: seq<Shape>, lights: seq<Light>, p: Vec3)
    ensures Subsequence(VisibleLights(num, surfaces, lights, p), lights)
  {
    if |lights| > 0 {
      var init := lights[..|lights| - 1];
      var last := lights[|lights| - 1];
      VisibleLightsInOrder(num, surfaces, init, p);
      var v := VisibleLights(num, surfaces, init, p);
      if LightVisible(num, surfaces, p, last) {
        assert VisibleLights(num, surfaces, lights, p) == v + [last];
        assert (v + [last])[..|v + [last]| - 1] == v;
      } else {
        assert VisibleLights(num, surfaces, lights, p) == v;
      }
    }
  }

  /** The visible lights are exactly the lights of the list that are visible. */
  lemma {:induction false} VisibleLightsAreTheVisible(num: Numerics, surfaces: seq<Shape>, lights: seq<Light>, p: Vec3)
    ensures forall l :: l in VisibleLights(num, surfaces, lights, p) <==> l in lights && LightVisible(num, surfaces, p, l)
  {
    if |lights| > 0 {
      var init := lights[..|lights| - 1];
      var last := lights[|lights| - 1];
      VisibleLightsAreTheVisible(num, surfaces, init, p);
      assert lights == init + [last];
      VisibleLightsSnoc(num, surfaces, init, last, p);
    }
  }

  /** `light_t` for a direction that is a non-zero multiple `k` of `from - p`, with
      `from != p`, is `1 / k` whichever component it is computed from. */
  lemma LightTOfMultiple(p: Vec3, from: Vec3, dir: Vec3, k: real)
    requires k != 0.0 && from != p && dir == Times(k, Sub(from, p))
    ensures LightT(p, from, dir) == Real(1.0 / k)
  {
    var diff := Sub(from, p);
    if dir.x != 0.0 {
      RatioOfMultiple(k, diff.x);
    } else if dir.y != 0.0 {
      RatioOfMultiple(k, diff.y);
    } else {
      assert diff.x == 0.0 && diff.y == 0.0;
      assert diff.z != 0.0;
      RatioOfMultiple(k, diff.z);
    }
  }

  /** Going `1 / k` along `k (from - p)` from `p` reaches `from`. */
  lemma InverseStepReaches(p: Vec3, from: Vec3, k: real)
    requires k != 0.0
    ensures PointAt(Ray(p, Times(k, Sub(from, p))), 1.0 / k) == from
  {
    var diff := Sub(from, p);
    InverseCancels(k, diff.x);
    InverseCancels(k, diff.y);
    InverseCancels(k, diff.z);
  }

  /** When the light is somewhere else than `p`, `light_t` is the parameter at which
      the shadow ray reaches the light, whichever component it was computed from. */
  lemma LightTReachesLight(num: Numerics, p: Vec3, light: Light)
    requires light.pointFrom != p
    ensures var ray := ShadowRay(num, p, light);
            var q := LightT(p, light.pointFrom, ray.dir);
            q.Real? && PointAt(ray, q.v) == light.pointFrom
  {
    var diff := Sub(light.pointFrom, p);
    var dir := Normalize(num, diff);
    var k :| k != 0.0 && dir == Times(k, diff);
    LightTOfMultiple(p, light.pointFrom, dir, k);
    InverseStepReaches(p, light.pointFrom, k);
  }

  lemma RatioOfMultiple(k: real, x: real)
    requires k != 0.0 && k * x != 0.0
    ensures x / (k * x) == 1.0 / k
  {
    assert x != 0.0;
    calc { (1.0 / k) * (k * x); == ((1.0 / k) * k) * x; == x; }
  }

  lemma InverseCancels(k: real, x: real)
    requires k != 0.0
    ensures (1.0 / k) * (k * x) == x
  {
    calc { (1.0 / k) * (k * x); == ((1.0 / k) * k) * x; == x; }
  }

  /** A light is always kept when its shadow ray meets no surface, unless it sits at
      the point itself: then every component of the direction is 0, `light_t` is
      `0 / 0 = NaN` and the comparison is false. */
  lemma UnblockedLightVisible(num: Numerics, surfaces: seq<Shape>, p: Vec3, light: Light)
    requires NearestHit(num, surfaces, ShadowRay(num, p, light)).t.Inf?
    ensures LightVisible(num, surfaces, p, light) <==> light.pointFrom != p
  {
    if light.pointFrom != p {
      LightTReachesLight(num, p, light);
    } else {
      NormalizeZero(num);
      assert Sub(light.pointFrom, p) == Zero3;
    }
  }

  // ----- Shading -----

  /** `l`, the unit direction to the light. */
  function LightDir(num: Numerics, light: Light, p: Vec3): Vec3
  {
    Normalize(num, Sub(light.pointFrom, p))
  }

  /** `H`, the half vector of the light and viewer directions. */
  function HalfVector(num: Numerics, viewer: Vec3, light: Light, p: Vec3): Vec3
  {
    Normalize(num, Add(LightDir(num, light, p), viewer))
  }

  /** The diffuse term: `color * power * diffuse * max(dot(n, l), 0)`. */
  function Diffuse(num: Numerics, light: Light, p: Vec3, n: Vec3, material: Material): Vec3
  {
    var d := Dot(n, LightDir(num, light, p));
    Times(if d > 0.0 then d else 0.0, Hadamard(Times(light.power, light.color), material.diffuse))
  }

  /** The specular term: `color * power * specular * dot(H, n) ** hardness`, with no clamp. */
  function Specular(num: Numerics, viewer: Vec3, light: Light, p: Vec3, n: Vec3, material: Material): Vec3
  {
    Times(num.pow(Dot(HalfVector(num, viewer, light, p), n), material.hardness),
          Hadamard(Times(light.power, light.color), material.specular))
  }

  /** `blinn_phong_shading_per_light`. */
  function Shade(num: Numerics, viewer: Vec3, light: Light, p: Vec3, n: Vec3, material: Material): Vec3
  {
    Add(Diffuse(num, light, p, n, material), Specular(num, viewer, light, p, n, material))
  }

  predicate NonNegative(v: Vec3)
  {
    v.x >= 0.0 && v.y >= 0.0 && v.z >= 0.0
  }

  lemma ProductNonNegative(a: real, b: real)
    requires a >= 0.0 && b >= 0.0
    ensures a * b >= 0.0
  {
  }

  /** With a non-negative light colour, power and diffuse colour, the diffuse term is
      never negative, even for a light behind the surface. */
  lemma DiffuseNonNegative(num: Numerics, light: Light, p: Vec3, n: Vec3, material: Material)
    requires light.power >= 0.0 && NonNegative(light.color) && NonNegative(material.diffuse)
    ensures NonNegative(Diffuse(num, light, p, n, material))
  {
    var d := Dot(n, LightDir(num, light, p));
    var m := if d > 0.0 then d else 0.0;
    var c := Hadamard(Times(light.power, light.color), material.diffuse);
    ProductNonNegative(light.power, light.color.x);
    ProductNonNegative(light.power, light.color.y);
    ProductNonNegative(light.power, light.color.z);
    ProductNonNegative(light.power * light.color.x, material.diffuse.x);
    ProductNonNegative(light.power * light.color.y, material.diffuse.y);
    ProductNonNegative(light.power * light.color.z, material.diffuse.z);
    ProductNonNegative(m, c.x);
    ProductNonNegative(m, c.y);
    ProductNonNegative(m, c.z);
  }

  /** A light behind the surface contributes no diffuse light at all. */
  lemma DiffuseOfLightBehind(num: Numerics, light: Light, p: Vec3, n: Vec3, material: Material)
    requires Dot(n, LightDir(num, light, p)) <= 0.0
    ensures Diffuse(num, light, p, n, material) == Zero3
  {
  }

  /** The specular term is not clamped: when the power `dot(H, n) ** hardness` is
      negative, a light with positive colour, power and specular colour darkens the
      pixel in every channel. */
  lemma SpecularCanDarken(num: Numerics, viewer: Vec3, light: Light, p: Vec3, n: Vec3, material: Material)
    requires num.pow(Dot(HalfVector(num, viewer, light, p), n), material.hardness) < 0.0
    requires light.power > 0.0 && light.color.x > 0.0 && light.color.y > 0.0 && light.color.z > 0.0
    requires material.specular.x > 0.0 && material.specular.y > 0.0 && material.specular.z > 0.0
    ensures var s := Specular(num, viewer, light, p, n, material);
            s.x < 0.0 && s.y < 0.0 && s.z < 0.0
  {
    var w := num.pow(Dot(HalfVector(num, viewer, light, p), n), material.hardness);
    var c := Hadamard(Times(light.power, light.color), material.specular);
    PositiveProduct(light.power, light.color.x);
    PositiveProduct(light.power, light.color.y);
    PositiveProduct(light.power, light.color.z);
    PositiveProduct(light.power * light.color.x, material.specular.x);
    PositiveProduct(light.power * light.color.y, material.specular.y);
    PositiveProduct(light.power * light.color.z, material.specular.z);
    NegativeProduct(w, c.x);
    NegativeProduct(w, c.y);
    NegativeProduct(w, c.z);
  }

  lemma PositiveProduct(a: real, b: real)
    requires a > 0.0 && b > 0.0
    ensures a * b > 0.0
  {
  }

  lemma NegativeProduct(a: real, b: real)
    requires a < 0.0 && b > 0.0
    ensures a * b < 0.0
  {
    calc { a * b; == -((-a) * b); < 0.0; }
  }

  // ----- Pixel colour -----

  /** `color += shade(light)` over `lights`, in order, starting from `base`. */
  function Accumulate(num: Numerics, base: Vec3, lights: seq<Light>, viewer: Vec3, p: Vec3, n: Vec3,
                      material: Material): Vec3
  {
    if |lights| == 0 then base
    else Add(Accumulate(num, base, lights[..|lights| - 1], viewer, p, n, material),
             Shade(num, viewer, lights[|lights| - 1], p, n, material))
  }

  /** The colour of the pixel whose camera ray is `ray`: the background when the nearest
      hit is not valid, otherwise the ambient term plus the shading of every visible
      light, with the viewer direction `-dir` and the normal normalised. `None` stands
      for the failure of reading the material of a hit that carries none. */
  function PixelColour(num: Numerics, scene: Scene, ray: Ray): Option<Vec3>
  {
    var nearest := NearestHit(num, scene.surfaces, ray);
    if !IsValid(nearest) then Some(scene.bgcolor)
    else if nearest.material.None? then None
    else
      var material := nearest.material.value;
      var visible := VisibleLights(num, scene.surfaces, scene.lights, nearest.p);
      Some(Accumulate(num, Hadamard(scene.ambient, material.ambient), visible, Neg(ray.dir), nearest.p,
                      Normalize(num, nearest.n), material))
  }

  /** The body of the pixel loop of `renderScene`. */
  method RenderPixel(num: Numerics, scene: Scene, ray: Ray) returns (color: Option<Vec3>)
    ensures color == PixelColour(num, scene, ray)
  {
    var nearest := GetNearestObjectIntersection(num, scene.surfaces, ray);
    if !(nearest.t.Finite? && nearest.t.v > VALID_T_MIN) {
      return Some(scene.bgcolor);
    }
    if nearest.material.None? {
      return None;
    }
    var material := nearest.material.value;
    var c := Hadamard(scene.ambient, material.ambient);
    var visible := GetVisibleLights(num, scene, nearest);
    var n := Normalize(num, nearest.n);
    for i := 0 to |visible|
      invariant c == Accumulate(num, Hadamard(scene.ambient, material.ambient), visible[..i], Neg(ray.dir),
                                nearest.p, n, material)
    {
      assert visible[..i + 1][..i] == visible[..i];
      c := Add(c, Shade(num, Neg(ray.dir), visible[i], nearest.p, n, material));
    }
    assert visible[..|visible|] == visible;
    return Some(c);
  }

  /** `renderScene`: one colour per pixel, in `getPixel` order. `rayFor` stands for
      `create_ray`. */
  method RenderScene(num: Numerics, scene: Scene, width: nat, height: nat, rayFor: Pixel -> Ray)
    returns (image: seq<Option<Vec3>>)
    ensures |image| == |Grid(width, height)|
    ensures forall k :: 0 <= k < |image| ==> image[k] == PixelColour(num, scene, rayFor(Grid(width, height)[k]))
  {
    var pixels := GetPixels(width, height);
    image := [];
    for k := 0 to |pixels|
      invariant |image| == k
      invariant forall j :: 0 <= j < k ==> image[j] == PixelColour(num, scene, rayFor(pixels[j]))
    {
      var color := RenderPixel(num, scene, rayFor(pixels[k]));
      image := image + [color];
    }
  }

  /** The background shows exactly where the camera ray finds no valid hit; elsewhere the
      colour is the ambient term plus the visible lights' shading. */
  lemma BackgroundIffNoValidHit(num: Numerics, scene: Scene, ray: Ray)
    requires forall i :: 0 <= i < |scene.surfaces| ==> WellFormed(scene.surfaces[i])
    ensures var nearest := NearestHit(num, scene.surfaces, ray);
            !IsValid(nearest) <==> PixelColour(num, scene, ray) == Some(scene.bgcolor) && nearest == NoHit()
    ensures var nearest := NearestHit(num, scene.surfaces, ray);
            IsValid(nearest) ==>
              nearest.material.Some? &&
              PixelColour(num, scene, ray) ==
              Some(Accumulate(num, Hadamard(scene.ambient, nearest.material.value.ambient),
                              VisibleLights(num, scene.surfaces, scene.lights, nearest.p), Neg(ray.dir),
                              nearest.p, Normalize(num, nearest.n), nearest.material.value))
  {
    NearestHitLiesOnRay(num, scene.surfaces, ray);
    assert EPS_DISTANCE == VALID_T_MIN;
  }

  /** A point that sees no light is lit by the ambient term alone. */
  lemma ShadowedPixelIsAmbient(num: Numerics, scene: Scene, ray: Ray)
    requires var nearest := NearestHit(num, scene.surfaces, ray);
             IsValid(nearest) && nearest.material.Some? &&
             VisibleLights(num, scene.surfaces, scene.lights, nearest.p) == []
    ensures var nearest := NearestHit(num, scene.surfaces, ray);
            PixelColour(num, scene, ray) == Some(Hadamard(scene.ambient, nearest.material.value.ambient))
  {
  }

  /** A light that the hit point does not see leaves every pixel's colour unchanged. */
  lemma HiddenLightChangesNothing(num: Numerics, scene: Scene, ray: Ray, light: Light)
    requires var nearest := NearestHit(num, scene.surfaces, ray);
             IsValid(nearest) ==> !LightVisible(num, scene.surfaces, nearest.p, light)
    ensures PixelColour(num, scene.(lights := scene.lights + [light]), ray) == PixelColour(num, scene, ray)
  {
    var nearest := NearestHit(num, scene.surfaces, ray);
    var more := scene.(lights := scene.lights + [light]);
    assert more.surfaces == scene.surfaces;
    if IsValid(nearest) && nearest.material.Some? {
      VisibleLightsSnoc(num, scene.surfaces, scene.lights, light, nearest.p);
      assert VisibleLights(num, more.surfaces, more.lights, nearest.p) ==
             VisibleLights(num, scene.surfaces, scene.lights, nearest.p);
    }
  }

  /** The colour is the ambient term plus each visible light's shading: adding a light
      that the point sees adds exactly that light's shading. */
  lemma VisibleLightAddsItsShade(num: Numerics, scene: Scene, ray: Ray, light: Light)
    requires var nearest := NearestHit(num, scene.surfaces, ray);
             IsValid(nearest) && nearest.material.Some? && LightVisible(num, scene.surfaces, nearest.p, light)
    ensures var nearest := NearestHit(num, scene.surfaces, ray);
            PixelColour(num, scene.(lights := scene.lights + [light]), ray) ==
            Some(Add(PixelColour(num, scene, ray).value,
                     Shade(num, Neg(ray.dir), light, nearest.p, Normalize(num, nearest.n), nearest.material.value)))
  {
    var nearest := NearestHit(num, scene.surfaces, ray);
    var more := scene.lights + [light];
    assert more[..|more| - 1] == scene.lights;
    var v := VisibleLights(num, scene.surfaces, scene.lights, nearest.p);
    assert (v + [light])[..|v + [light]| - 1] == v;
  }
}
