# RayTracer core in Dafny

This project models the computational core of slflmm/RayTracer, a Python ray tracer
with a few modelling extras, and proves properties of that model. The arithmetic is
exact: Dafny's `real` stands in for floats throughout. The modules follow the source
files:

- `Ray` (`ray.dfy`, Ray.py). A ray is an origin plus an unnormalised direction, and
  `getPoint(t)` is `eye + t * dir`. An intersection record holds a distance `t`, which
  is a real or `inf`. The "no hit" sentinel has `t = inf`, and `is_valid_intersection`
  holds iff `1e-9 < t < inf`.
- `Nearest` (`nearest.dfy`). The running-minimum loop that `Box.intersect`,
  `SceneNode.intersect` and `get_nearest_object_intersection` share: a strict `<` on
  `t` plus each caller's own test. It comes with an independent description, the
  first index of least `t`.
- `Intersectable` (`intersectable.dfy`, Intersectable.py):
  - the sphere's quadratic and its root selection;
  - the plane's linear solve with its `ceil`-parity checkerboard;
  - the box: six face planes, a bounds filter and the minimum pick;
  - the scene node, which maps the ray into local space with `Minv` and maps hits
    back with `M`.

  `Shape` is a closed datatype, and `Intersect` is its structural recursion. The loop
  methods `WithinBounds`, `BoxIntersect`, `NodeIntersect` and `IntersectShape` are
  proved equal to that specification.
- `SphereProps` and `SurfaceProps`. Geometric properties of those intersectors.
  `SphereProps` also holds the sphere finding below.
- `SceneModel` (`scene.dfy`, Scene.py):
  - the nearest-surface search;
  - the shadow test in `get_visible_lights`, including IEEE division by zero in
    `light_t`;
  - the Blinn-Phong terms;
  - the per-pixel colour logic of `renderScene`.
- `GeomTransform` (`geom_transform.dfy`, GeomTransform.py). `normalize`, and the exact
  matrices `scale`, `translate` and `rotX/rotY/rotZ(c, s)`.
- `LSystem` (`lsystem.dfy`, LSystem.py). Python's `str.split`, the rule parser and the
  parallel rewrite of `set_grammar`, and the `LSystem` object whose fields
  `set_grammar` assigns.
- `Cubics`, `HermiteCurve` and `BicubicPatch` (HermiteCurve.py and BicubicPatch.py).
  The Hermite basis and the bicubic basis are written out as exact rational matrices
  and proved to be the inverses the source computes with `inv`. `HermiteCurve` is a
  class whose lists `add_point` and `set_data` update. The patch is a value, and
  `get_samples` fills a fresh two-dimensional array.
- `HelperClasses` (`helper_classes.dfy`, HelperClasses.py). Material and light
  defaults, the camera frustum relations, and the `getPixel` enumeration order.
- `Linear` (`linear.dfy`) and `Wrappers` (`wrappers.dfy`). Exact 3- and 4-vectors,
  4x4 matrices, and `Option`.

Some library calls are not part of this model: numpy's `sqrt`, `linalg.norm` and `**`.
They are the fields of a `Numerics` value that every operation receives.
- A property that depends on them requires `SqrtExact` or `NormExact`: the square root
  and the norm are exact.
- A concrete lemma requires only the one value it needs, for instance
  `num.sqrt(4.0) == 2.0`.

The camera ray of a pixel (`create_ray`) is a function parameter of `RenderScene`.
A scene node's `Minv` is a field with the precondition `M * Minv = I`.

## Model

| member | source | states |
|---|---|---|
| Ray.PointAt | Ray.py:32-33 | the point minus the origin is `t` times the direction, and `t = 0` gives the origin |
| Ray.PointAtIsAffine | Ray.py:32-33 | two points of a ray differ by the difference of their parameters times the direction |
| Ray.NoHit | Ray.py:48-52 | a fresh IntersectionResult: `t = inf`, zero point and normal, no material; `ValidMeansFiniteAboveMin` shows it is never valid |
| Ray.IsValid | Ray.py:57-59 | `is_valid_intersection` as a predicate on the record; `ValidMeansFiniteAboveMin` equates it with `t < inf and t > 1e-9` |
| Ray.ValidMeansFiniteAboveMin | Ray.py:57-59 | a hit is valid iff `t < inf` and `t > 1e-9`; the fresh sentinel (`t = inf`, zero `n` and `p`, no material) is never valid |
| Nearest.FirstMinIndex | Intersectable.py:277-286 | the reference choice is -1 or the index of an accepted hit with finite `t` |
| Nearest.FirstMinIsLeast | Scene.py:145-149 | the running-minimum loop returns the sentinel iff no hit is a candidate, and otherwise returns a candidate whose `t` is strictly below every earlier candidate's and at most every later one's, so the first one wins on ties |
| Nearest.FirstMinBelowAll | Scene.py:139-156 | no accepted hit has a smaller `t` than the result; the result's `t` is infinite iff no accepted hit has a finite `t`; the result is the sentinel or an accepted hit |
| Nearest.FirstMinEmpty | Intersectable.py:377-378 | with nothing to visit the loop leaves the fresh sentinel |
| Nearest.FirstMin | Intersectable.py:277-286 | the running-minimum loop after visiting the hits in order: a hit replaces the current result only when it passes the caller's test and its `t` is strictly below; `FirstMinIsLeast` shows that this is the first candidate of least `t` |
| Intersectable.SphereHitAsWritten | Intersectable.py:56-101 | the sphere intersection as written: a negative discriminant or a zero `a = dot(v, v)` (numpy's `nan` roots) gives the sentinel; any hit has `t > EPS`, `p = getPoint(t)`, the sphere's material and the normalised `p - center` as normal |
| Intersectable.SphereHit | Intersectable.py:72-98 | the corrected sphere intersection: sentinel for a negative discriminant or a zero direction; any hit has `t > EPS`, lies on the ray, and carries the sphere's material; from an origin not strictly outside, the hit is at the `+sqrt` root |
| Intersectable.PlaneHit | Intersectable.py:158-180 | `dot(normal, dir) = 0` gives the sentinel; a hit has `t > EPS`, `p = getPoint(t)`, the plane normal, and the checkerboard material of `p` |
| Intersectable.CheckerMaterial | Intersectable.py:173-177 | the checkerboard choice at `p`: `material` where `ceil(x) mod 2 == ceil(z) mod 2` or when there is no second material, else `material2`; `CheckerAlternatesAlongX` and `CheckerAlternatesAlongZ` state its alternation |
| Intersectable.BoxPlaneHit | Intersectable.py:199-215 | a parallel face gives the sentinel; a face hit has `t > EPS`, lies on the ray, and has the face normal and the box material |
| Intersectable.FaceHits | Intersectable.py:263-283 | the six `plane_intersect` results in visiting order, face `i` with normal `normals[i]` and offset `ds[i]`; `FaceHitsUnrolled` lists them |
| Intersectable.BoxHit | Intersectable.py:251-289 | the running minimum over the face hits with the bounds-and-EPS test; `BoxHitIsNearestFace` shows it is the first face hit of least `t` within bounds |
| Intersectable.WithinBounds | Intersectable.py:217-230 | the early-return loop over the coordinates answers true iff every coordinate is in `[min - EPS, max + EPS]` |
| Intersectable.BoxIntersect | Intersectable.py:251-289 | the loop over the six faces in order +x, -x, +y, -y, +z, -z equals the first face hit of least `t > EPS` among those within bounds |
| Intersectable.ToWorld | Intersectable.py:382-390 | mapping a child's hit back keeps its `t` and material |
| Intersectable.LocalRay | Intersectable.py:363-374 | the ray in the node's frame: origin `Minv e`, direction `Minv (e + d) - Minv e`; `LocalPointMapsBack` shows that `M` maps its point at `t` to the world ray's point at `t` |
| Intersectable.Intersect | Intersectable.py:29-398 | `intersect` of every kind of surface as one structural recursion, nodes through their children, with the sphere's corrected root selection; `HitLiesOnRay`, `BoxHitIsNearestFace` and `NodeHitIsNearestChild` state its properties |
| Intersectable.NodeIntersect | Intersectable.py:363-395 | the node loop over the children (local ray from `Minv e` and `Minv (e + d) - Minv e`, then `p` mapped by `M` and `n` by `Minv^T`) equals the first child hit with the least `t > EPS`; a sphere child uses the corrected root selection |
| Intersectable.IntersectShape | Scene.py:146 | `surface.intersect(ray)` dispatches to the intersector of the surface's kind and equals `Intersect`; a sphere uses the corrected root selection |
| SphereProps.QuadraticRoot | Intersectable.py:64-77 | with an exact square root, `t1` and `t2` solve `a t^2 + b t + c = 0` |
| SphereProps.RootsLieOnSphere | Intersectable.py:76-77 | the point of the ray at either root is at distance `radius` from the centre |
| SphereProps.SphereHitIsOnSphere | Intersectable.py:92-98 | any reported hit is beyond EPS, on the ray, on the sphere and has the sphere's material |
| SphereProps.LeavingAtPlusRoot | Intersectable.py:76 | at the `+sqrt` root the direction points away from the centre |
| SphereProps.SphereFromInsideExits | Intersectable.py:86-98 | from an origin not strictly outside, the corrected hit is at the larger root, where the ray leaves the sphere |
| SphereProps.SphereSeenFromInside | TestSphereIntersection.py:154-160 | a viewer strictly inside sees the sphere at the `+sqrt` root whenever that root is beyond EPS |
| SphereProps.SphereOnSurfaceOutward | TestSphereIntersection.py:42-43 | an origin on the sphere moving outward reports no hit |
| SphereProps.SphereSeenFromOutside | Intersectable.py:86-98 | a viewer strictly outside whose `-sqrt` root is beyond EPS and whose point there is more than EPS away sees the sphere at that nearer root, for any non-zero direction, including a node's unnormalised local ray |
| SphereProps.OutsideIsOutside | Intersectable.py:74 | `c > 0` means `distsphere > radius` holds |
| SphereProps.SelectAsWrittenFromOutside | Intersectable.py:86-90 | outside, with `dist2 <= dist1` and `dist2 > EPS`: the selection as written takes `t2` |
| SphereProps.MovingRayHasPositiveA | Intersectable.py:64-65 | `b != 0` forces `a = dot(v, v) > 0` |
| SphereProps.ResolvedZeroDirection | Intersectable.py:62-101 | a zero direction gives `a = b = 0`, the case in which numpy divides by zero, and then neither the selection as written nor the corrected one reports a hit |
| SphereProps.InsideNotOutside | Intersectable.py:74 | `c < 0` (origin strictly inside) means `distsphere > radius` is false |
| SphereProps.InsideRootsStraddle | Intersectable.py:76-77 | inside and moving away from the centre: `t2 < 0 < t1 < -t2` |
| SphereProps.NearerAhead | Intersectable.py:82-83 | a root nearer to zero gives a point nearer to the eye, so `dist1 < dist2` |
| SphereProps.DistanceAlong | Intersectable.py:82-83 | `dist` at `t` is `abs(t) * norm(dir)` |
| SphereProps.SelectAsWrittenFromInside | Intersectable.py:87-88 | not outside with `dist1 < dist2`: the selection as written takes `t2` |
| SphereProps.InsideViewerMissesWallAsWritten | Intersectable.py:86-92 | as written, a viewer strictly inside who moves away from the centre gets `t = t2 < 0` and no hit, although `t1 > 0` |
| SphereProps.InsideViewerSeesWall | Intersectable.py:86-98 | the corrected selection sees that wall at `t1` once `t1 > EPS` |
| SphereProps.InsideRayQuadratic | Intersectable.py:62-67 | the counterexample's quadratic is `t^2 + t - 0.75`, with discriminant 4 |
| SphereProps.InsideRayRootAhead | Intersectable.py:76 | the counterexample's `t1` is 0.5 |
| SphereProps.InsideRayMissedAsWritten | Intersectable.py:86-101 | the viewer at (0, 0, 0.5) looking along +z inside the unit sphere gets no hit as written |
| SphereProps.InsideRaySeenCorrected | Intersectable.py:86-98 | corrected, that viewer sees the sphere at `t = 0.5` |
| SurfaceProps.OnPlaneAt | Intersectable.py:204-207 | for a non-parallel ray, the point at `t` is on the plane `dot(normal, p) = d` iff `t` is the computed quotient |
| SurfaceProps.PlaneHitOnPlane | Intersectable.py:163-172 | a plane hit satisfies `dot(normal, p) = 0` |
| SurfaceProps.PlaneHitUnique | Intersectable.py:163-172 | conversely, a point of the plane at `t > EPS` along a non-parallel ray is exactly the reported hit |
| SurfaceProps.PlaneEyeOnPlaneNoHit | TestPlaneIntersection.py:42-61 | an eye on the plane never sees it, whatever the direction |
| SurfaceProps.CheckerAlternatesAlongX | Intersectable.py:173-177 | with two materials, a unit step along x switches the material |
| SurfaceProps.CheckerAlternatesAlongZ | Intersectable.py:173-177 | with two materials, a unit step along z switches the material |
| SurfaceProps.BoxPlaneHitOnPlane | Intersectable.py:204-213 | a face hit lies on its plane `dot(normal, p) = d` |
| SurfaceProps.BoxHitIsNearestFace | Intersectable.py:263-289 | the box returns the sentinel iff no face hit is within bounds beyond EPS; otherwise it returns face `k`'s hit, on the ray, on face `k`'s plane, within bounds, with face `k`'s normal, of least `t`, and the first face on ties |
| SurfaceProps.FaceBehind | Intersectable.py:204-209 | a face the ray runs along or moves away from is not hit |
| SurfaceProps.BoxOutwardNoHit | TestBoxIntersection.py:61-116 | a ray starting on a face or corner of the box and pointing outward reports no hit |
| SurfaceProps.FaceHitsUnrolled | Intersectable.py:263-269 | the six face planes and their offsets `(max.x, -min.x, max.y, -min.y, max.z, -min.z)` in visiting order |
| SurfaceProps.BoxFrontHit | TestBoxIntersection.py:169-175 | the cube of side 1 seen from (0, 0, 10) along -z is hit at `t = 9.5`, point (0, 0, 0.5), normal +z |
| SurfaceProps.NodeWithoutChildren | Intersectable.py:377-398 | a node without children returns the sentinel |
| SurfaceProps.LocalPointMapsBack | Intersectable.py:363-385 | for affine `M` with `M Minv = I`, mapping the local ray's point at `t` back by `M` gives the world ray's point at the same `t` |
| SurfaceProps.NodeHitIsNearestChild | Intersectable.py:377-395 | a node returns the sentinel iff no child hit is beyond EPS; otherwise it returns child `k`'s hit mapped back, with the child's own `t` unchanged, of least `t`, and the first child on ties |
| SurfaceProps.HitLiesOnRay | Intersectable.py:378-395 | every well-formed surface returns the sentinel or a hit beyond EPS at the ray's point for its `t`, with a material, through any nesting of nodes |
| Linear.InverseOfAffineIsAffine | Intersectable.py:316 | the inverse of an affine node matrix is affine |
| GeomTransform.Normalize | GeomTransform.py:11-16 | a vector whose norm is at most 1e-12 in absolute value comes back unchanged; otherwise the norm times the result is the input; either way the result is a non-zero multiple of the input |
| GeomTransform.NormalizeIsUnit | GeomTransform.py:11-16 | with an exact norm, a vector of norm above 1e-12 becomes a unit vector |
| GeomTransform.NormalizeZero | GeomTransform.py:14-16 | the zero vector is returned unchanged |
| GeomTransform.Scale | GeomTransform.py:18-21 | `scale(v)` as the exact matrix `diag(v.x, v.y, v.z, 1)`; `ScaleScalesPoints` and `TranslateScaleInverses` state what it does |
| GeomTransform.Translate | GeomTransform.py:23-26 | `translate(v)` as the identity with `v` in the last column; `TranslateMovesPoints` and `TranslateScaleInverses` state what it does |
| GeomTransform.RotX | GeomTransform.py:28-33 | `rotX(c, s)` as an exact matrix; `RotationsFixTheirAxis` and `RotXInverse` state what it does |
| GeomTransform.RotY | GeomTransform.py:35-40 | `rotY(c, s)` as an exact matrix; `RotationsFixTheirAxis` and `RotYInverse` state what it does |
| GeomTransform.RotZ | GeomTransform.py:42-47 | `rotZ(c, s)` as an exact matrix; `RotationsFixTheirAxis` and `RotZInverse` state what it does |
| GeomTransform.NodeTransform | Intersectable.py:310-314 | the product `translate * rotX * rotY * rotZ * scale` a node builds from its parameters; `NodeTransformIsAffine` and `ScaleOnlyNodeTransform` state what it gives |
| GeomTransform.TranslateMovesPoints | GeomTransform.py:23-26 | `translate(v) (p, 1) = (p + v, 1)` |
| GeomTransform.ScaleScalesPoints | GeomTransform.py:18-21 | `scale(v) (p, 1) = (v * p, 1)` |
| GeomTransform.RotationsFixTheirAxis | GeomTransform.py:28-47 | each rotation's own axis row and column, and its homogeneous row and column, are those of the identity |
| GeomTransform.RotXInverse | GeomTransform.py:28-33 | with `c^2 + s^2 = 1`, `rotX(c, s) rotX(c, -s) = I` |
| GeomTransform.RotYInverse | GeomTransform.py:35-40 | with `c^2 + s^2 = 1`, `rotY(c, s) rotY(c, -s) = I` |
| GeomTransform.RotZInverse | GeomTransform.py:42-47 | with `c^2 + s^2 = 1`, `rotZ(c, s) rotZ(c, -s) = I` |
| GeomTransform.TranslateScaleInverses | GeomTransform.py:18-26 | `translate(-v)` undoes `translate(v)`, and `scale(1/v)` undoes `scale(v)` for non-zero factors |
| GeomTransform.ScaleOnlyNodeTransform | Intersectable.py:311-314 | with zero angles (`c = 1`, `s = 0`) and no translation, the node matrix is `diag(scale, 1)` |
| GeomTransform.NodeTransformIsAffine | Intersectable.py:311-314 | every node matrix `translate * rotX * rotY * rotZ * scale` is affine |
| SceneModel.GetNearestObjectIntersection | Scene.py:125-156 | the loop over the surfaces equals the running minimum with strict `<` over their results |
| SceneModel.NearestIsFirstLeast | Scene.py:139-156 | the sentinel comes back iff no surface reports a finite `t`; otherwise it is surface `k`'s own result, strictly below every earlier finite `t` and at most every later one |
| SceneModel.NearestHit | Scene.py:139-156 | the running minimum with strict `<` over the surfaces' own results; `NearestIsFirstLeast` and `NearestHitLiesOnRay` state what it returns |
| SceneModel.NearestHitLiesOnRay | Scene.py:145-149 | in a well-formed scene the nearest hit is the sentinel or a material-carrying point of the ray beyond EPS |
| SceneModel.ShadowRay | Scene.py:177-178 | the ray from the point along the normalised direction to the light; `LightTReachesLight` shows it reaches the light |
| SceneModel.LightT | Scene.py:181-188 | `light_t` from the first non-zero component of the direction, with IEEE division in the z branch; `LightTOfMultiple` states its value |
| SceneModel.LightVisible | Scene.py:177-191 | the shadow test `light_t <= nearest_isect.t`, with NaN comparing false; `UnblockedLightVisible` states it for an unobstructed light |
| SceneModel.VisibleLights | Scene.py:172-194 | the lights passing the shadow test, in list order; `VisibleLightsAreTheVisible` and `VisibleLightsInOrder` state it |
| SceneModel.Divide | Scene.py:188 | float division: a real quotient for a non-zero divisor; for a zero divisor NaN exactly when the numerator is zero, else an infinity |
| SceneModel.GetVisibleLights | Scene.py:159-194 | the loop equals the in-order filter of the lights by `light_t <= nearest.t` |
| SceneModel.VisibleLightsSnoc | Scene.py:177-191 | one more light at the end is kept or dropped on its own test |
| SceneModel.VisibleLightsInOrder | Scene.py:172-194 | the visible lights are a subsequence of the lights, in their order |
| SceneModel.VisibleLightsAreTheVisible | Scene.py:177-191 | a light is in the result iff it is one of the lights and passes the shadow test |
| SceneModel.LightTOfMultiple | Scene.py:183-188 | `light_t` along a non-zero multiple `k` of `from - p` is `1/k`, whichever component it is computed from |
| SceneModel.InverseStepReaches | Scene.py:181-182 | going `1/k` along `k (from - p)` from `p` reaches the light |
| SceneModel.LightTReachesLight | Scene.py:178-188 | for a light elsewhere than `p`, `light_t` is the shadow-ray parameter at which the light is reached |
| SceneModel.UnblockedLightVisible | Scene.py:190-191 | when the shadow ray hits nothing (`t = inf`), the light is kept iff it is not at the point itself (there `0/0` is NaN) |
| SceneModel.Diffuse | Scene.py:109-114 | `color * power * diffuse * max(dot(n, l), 0)`; `DiffuseNonNegative` and `DiffuseOfLightBehind` state its clamp |
| SceneModel.Specular | Scene.py:109-117 | `color * power * specular * dot(H, n) ** hardness` with the half vector `H`; `SpecularCanDarken` shows it is unclamped |
| SceneModel.Shade | Scene.py:93-122 | `blinn_phong_shading_per_light` as the sum of the two terms; `VisibleLightAddsItsShade` shows what it adds to a pixel |
| SceneModel.DiffuseNonNegative | Scene.py:114 | with non-negative light colour, power and diffuse colour the diffuse term is never negative |
| SceneModel.DiffuseOfLightBehind | Scene.py:114 | a light behind the surface (`dot(n, l) <= 0`) adds no diffuse light |
| SceneModel.SpecularCanDarken | Scene.py:117 | the specular term is not clamped: a negative power makes it negative in every channel |
| SceneModel.Accumulate | Scene.py:236-237 | `color += shade(light)` over the lights in order; `RenderPixel` proves the loop equal to it |
| SceneModel.PixelColour | Scene.py:212-237 | the colour of one pixel of `renderScene`; `BackgroundIffNoValidHit`, `ShadowedPixelIsAmbient`, `HiddenLightChangesNothing` and `VisibleLightAddsItsShade` state it |
| SceneModel.RenderPixel | Scene.py:222-237 | the pixel body equals `PixelColour`: the background for an invalid nearest hit, else ambient times material ambient plus each visible light's shading in order |
| SceneModel.RenderScene | Scene.py:212-241 | one colour per pixel, in `getPixel` order, each the colour of that pixel's camera ray |
| SceneModel.BackgroundIffNoValidHit | Scene.py:222-237 | the background shows iff the nearest hit is not valid (and then it is the sentinel); otherwise the colour is ambient plus the visible lights' shading |
| SceneModel.ShadowedPixelIsAmbient | Scene.py:227-231 | a valid hit that sees no light gets the ambient term alone |
| SceneModel.HiddenLightChangesNothing | Scene.py:229-237 | adding a light the hit point does not see leaves the colour unchanged |
| SceneModel.VisibleLightAddsItsShade | Scene.py:236-237 | adding a light the hit point sees adds exactly its Blinn-Phong shading |
| LSystem.Find | LSystem.py:54 | the first occurrence of the separator at or after `from`, or -1 when there is none |
| LSystem.Split | LSystem.py:54 | `split` yields at least one piece |
| LSystem.SplitJoin | LSystem.py:54 | joining the pieces with the separator gives back the string |
| LSystem.SplitPiecesAreFree | LSystem.py:54 | no piece contains the separator |
| LSystem.SplitOfTerminated | LSystem.py:54 | a string ending in a one-character separator splits with an empty last piece |
| LSystem.Rule | LSystem.py:56-58 | one rule split at `->` into the first two pieces, or a failure without a second piece; `RuleParsesIffArrow` and `SecondArrowDropsTail` state it |
| LSystem.ParseRules | LSystem.py:54-58 | the rule loop over the `;`-separated rules into a map, failing at the first rule without `->`; `ParseRulesSucceeds`, `ParseRulesKeys` and `ParseRulesLastWins` state it |
| LSystem.RuleParsesIffArrow | LSystem.py:57-58 | a rule has a second piece iff it contains `->`; neither stored piece contains `->` |
| LSystem.SecondArrowDropsTail | LSystem.py:57-58 | `F->FF->X` stores `F -> FF`: text after a second `->` is dropped |
| LSystem.ParseRulesSucceeds | LSystem.py:54-58 | the parse succeeds iff every rule contains `->` |
| LSystem.ParseRulesKeys | LSystem.py:55-58 | the map's keys are exactly the rules' left parts |
| LSystem.ParseRulesLastWins | LSystem.py:56-58 | each left part maps to the right part of the last rule with that left part |
| LSystem.ParseRulesPrefixFails | LSystem.py:56-58 | once a prefix of the rules fails, the whole parse fails |
| LSystem.TrailingSemicolonFails | LSystem.py:54-58 | a rule string ending in `;` always fails, because its last rule is empty |
| LSystem.Rounds | LSystem.py:65 | `range(depth)` runs `depth` rounds, and none for `depth <= 0` |
| LSystem.Step | LSystem.py:66-72 | one parallel round: each character replaced by its production, or kept; `StepConcat`, `StepChar` and `StepFixedPoint` state it |
| LSystem.Rewrite | LSystem.py:65-72 | `k` rounds in turn; `RewriteFirstRound` and `RewriteFixedPoint` state it |
| LSystem.StepConcat | LSystem.py:67-71 | one round distributes over concatenation |
| LSystem.StepChar | LSystem.py:67-71 | one round of a single character is its production, or the character itself |
| LSystem.StepFixedPoint | LSystem.py:67-71 | a string with no rule-bearing character is unchanged by a round |
| LSystem.RewriteFixedPoint | LSystem.py:65-72 | ... and by any number of rounds |
| LSystem.SingleCharRules | LSystem.py:67-68 | the rules whose left part is a single character |
| LSystem.OnlySingleCharRulesFire | LSystem.py:67-68 | dropping every rule with a longer left part changes no round |
| LSystem.RewriteFirstRound | LSystem.py:65-72 | `k + 1` rounds are one round followed by `k` rounds |
| LSystem.ParseRuleList | LSystem.py:54-58 | the rule loop equals the rule-map parse, including its failure |
| LSystem.ExpandRounds | LSystem.py:62-74 | the nested expansion loops produce `depth` rounds of the rewrite of `init`, and `init` itself for `depth <= 0` |
| LSystem.LSystem.SetParameters | LSystem.py:44-51 | stores the grammar, its depth and each drawing parameter or its default (angle 0, growth 0.5, scales 1) |
| LSystem.LSystem.SetGrammar | LSystem.py:37-75 | the parameters are stored, and `get_grammar` then returns this grammar; on success the rule map is the parse of the rules and the production is `depth` rounds of `init`; a rule without `->` fails with the rule map and production unchanged |
| LSystem.LSystem.GetGrammar | LSystem.py:34-35 | `get_grammar` returns the stored grammar; `SetGrammar` ensures it is the grammar last set |
| Cubics.CubicRow | HermiteCurve.py:106-107 | a coefficient row dotted with `[t^3, t^2, t, 1]` is its cubic at `t`; dotted with `[3t^2, 2t, 1, 0]` it is that cubic's derivative |
| HermiteCurve.HermiteBasisInverts | HermiteCurve.py:54 | the exact `B_Hermite` is the two-sided inverse of the constraint matrix |
| HermiteCurve.BasisAtEndpoints | HermiteCurve.py:54 | `B_Hermite` sends the `t = 0, 1` monomials and their derivatives to the four unit vectors |
| HermiteCurve.HermiteRow | HermiteCurve.py:88-91 | a row of `G * B_Hermite` is the coefficient vector of the cubic with the given `p(0)`, `p(1)`, `p'(0)` and `p'(1)` |
| HermiteCurve.SegmentCoeffs | HermiteCurve.py:84-91 | `g_hermite * B_Hermite` for two consecutive data points; `EndpointsOfSegment` shows it interpolates them |
| HermiteCurve.CoeffList | HermiteCurve.py:62-91 | the coefficient matrices `add_point` accumulates over a data list; `CoeffListShape` states their number and order |
| HermiteCurve.CoeffListShape | HermiteCurve.py:73-91 | there are `max(n - 1, 0)` coefficient matrices, matrix `k` built from points `k` and `k + 1` |
| HermiteCurve.EvaluateSegment | HermiteCurve.py:95-110 | `None` iff there are no segments; an IndexError iff the segment number is outside Python's `-n .. n-1` |
| HermiteCurve.HermiteCurve.EvaluateCurveSegment | HermiteCurve.py:95-110 | `evaluate_curve_segment` on the object's coefficient list; `EvaluateSegment` and `SegmentInterpolates` state what it returns |
| HermiteCurve.HermiteCurve.constructor | HermiteCurve.py:52-57 | both lists start empty, which keeps the segment invariant |
| HermiteCurve.HermiteCurve.AddPoint | HermiteCurve.py:68-91 | appends the point as the last entry; from the second point on, appends the matrix of the segment it closes; keeps the invariant |
| HermiteCurve.HermiteCurve.SetData | HermiteCurve.py:62-66 | after clearing and adding in order, the point list is the data and the matrices are one per consecutive pair |
| HermiteCurve.SegmentInterpolates | HermiteCurveTest.py:62-70 | segment `k` gives `(p_k, m_k)` at `t = 0` and `(p_{k+1}, m_{k+1})` at `t = 1` |
| HermiteCurve.EndpointsOfSegment | HermiteCurve.py:84-91 | the matrix of one segment evaluates to its two data points and tangents at `t = 0` and `t = 1` |
| HermiteCurve.TangentIsDerivative | HermiteCurve.py:106-107 | each coordinate of the point is a cubic in `t`, and the tangent is its derivative |
| HermiteCurve.StraightSegment | HermiteCurveTest.py:72-106 | with both tangents `p1 - p0` the segment is `p0 + t (p1 - p0)` with constant tangent `p1 - p0` |
| BicubicPatch.BicubicBasisInverts | BicubicPatch.py:33 | the exact `B` is the two-sided inverse of the matrix of monomials at 0, 1, 2 and 3 |
| BicubicPatch.BasisAtNode | BicubicPatch.py:23-25 | `B` sends the monomials at grid parameter `k` to the unit vector `e_k` |
| BicubicPatch.Geometry | BicubicPatch.py:34-36 | the reshape puts coordinate `c` of control point `4i + j` at row `i`, column `j` |
| BicubicPatch.MakePatch | BicubicPatch.py:21-36 | the patch `__init__` builds: `B` and the three matrices `B^T G B`; `PatchInterpolates` states what they give |
| BicubicPatch.Evaluate | BicubicPatch.py:38-70 | the point and its two partial derivatives at `(s, t)` in `[0, 3]^2`; `PatchInterpolates` and `PartialDerivatives` state them |
| BicubicPatch.PatchForm | BicubicPatch.py:54-56 | `u * B^T G B * w` is `(B u) . (G (B w))` |
| BicubicPatch.CoordinateInterpolates | BicubicPatch.py:54-56 | each coordinate at grid parameters `(i, j)` is that coordinate of control point `4i + j` |
| BicubicPatch.PatchInterpolates | BicubicPatch.py:33-56 | the patch passes through its control points in row-major order |
| BicubicPatch.PartialDerivatives | BicubicPatch.py:59-66 | for fixed `t` the point is a cubic in `s` and `ds` is its derivative; for fixed `s` likewise in `t` with `dt` |
| BicubicPatch.SampleParameter | BicubicPatch.py:88 | `3k/(n-1)` lies in `[0, 3]`, is 0 for the first sample and 3 for the last |
| BicubicPatch.GetSamples | BicubicPatch.py:71-99 | a fresh `n0 x n1` array whose sample `(i, j)` is the evaluation at `(3i/(n0-1), 3j/(n1-1))` |
| BicubicPatch.CornerSamples | BicubicPatch.py:86-97 | the four corner samples are control points 0, 3, 12 and 15 |
| HelperClasses.MakeMaterial | HelperClasses.py:154-164 | each entry is taken from the parameters or defaulted: diffuse (1, 0, 0), specular (0.5, 0.5, 0.5), hardness 50, and ambient equal to the diffuse colour |
| HelperClasses.MakeLight | HelperClasses.py:175-180 | each entry is taken from the parameters or defaulted: colour (1, 1, 1), from (0, 5, 5), power 1, type `point` |
| HelperClasses.ComputeFrustum | HelperClasses.py:50-56 | defined iff the image height is non-zero; `aspect * height = width`, `bottom = -top`, `right = top * aspect`, `left = -right` |
| HelperClasses.FrustumHasImageShape | HelperClasses.py:50-56 | the near-plane window is centred and has the image's proportions |
| HelperClasses.Grid | HelperClasses.py:117-119 | `width * rows` pixels, each inside the image |
| HelperClasses.GetPixels | HelperClasses.py:112-119 | the nested loops produce the row-major pixel list |
| HelperClasses.GridRowMajor | HelperClasses.py:117-119 | pixel `(col, row)` is at position `row * width + col` |
| HelperClasses.GridDistinct | HelperClasses.py:117-119 | no pixel occurs twice |
| HelperClasses.PixelsEnumerateImage | HelperClasses.py:117-119 | every `(col, row)` inside the image occurs, nothing else occurs, and each occurs once |

## Left out

- Intersectable.Intersect: a sphere uses the corrected root selection (`SphereHit`), not `Sphere.intersect` as written (`SphereHitAsWritten`). A viewer strictly inside a sphere who moves away from its centre gets a hit at the `+sqrt` root, where the program as written gets none. See "## Findings".
- Intersectable.IntersectShape: dispatches a sphere to the corrected `SphereHit`, with the same difference.
- Intersectable.NodeIntersect: a sphere child is intersected with the corrected selection, with the same difference.
- SceneModel.NearestHit: built on `Intersect`, so it models the program with the corrected sphere selection. Where a camera or shadow ray starts inside a sphere and moves away from its centre, it sees the sphere where the program as written does not.
- SceneModel.GetNearestObjectIntersection: built on `NearestHit`, with the same difference.
- SceneModel.VisibleLights: built on `NearestHit`, with the same difference.
- SceneModel.GetVisibleLights: built on `NearestHit`, with the same difference.
- SceneModel.PixelColour: built on `NearestHit`, with the same difference.
- SceneModel.RenderPixel: built on `NearestHit`, with the same difference.
- SceneModel.RenderScene: built on `NearestHit`, with the same difference.
- Floating point. Every quantity is an exact real. Rounding, `assert_almost_equal` tolerances and float overflow are not modelled. The thresholds `1e-9` and `1e-12` are kept as exact constants.
- `sqrt`, `linalg.norm` and `**` (numpy). They are uninterpreted fields of `Numerics`. Properties that need them exact say so in their preconditions. Non-integer `hardness` powers are not interpreted at all.
- Matrix inversion. `np.linalg.inv` in `SceneNode.__init__` (Intersectable.py:316) is not part of this model: `Minv` is given, with `M * Minv = I` in `WellFormed`. For `B_Hermite` (HermiteCurve.py:54) and the patch's `B` (BicubicPatch.py:33) the exact inverse is written out and proved to invert.
- Trigonometry: `rotateX/Y/Z`, `rotate`, `perspectiveMatrix`, the lookat matrices, and the `tan` in `Camera.top`. The rotations take `(cos, sin)` as `rotX/rotY/rotZ` do, and `ComputeFrustum` takes `tan(fov/2)` as a parameter.
- `Scene.create_ray` and camera setup. They invert a matrix and use trigonometry; the camera ray of each pixel is a parameter of `RenderScene`.
- Surface constructors, which read parameter dictionaries.
  - `Sphere`, `Plane` and `Box` are datatype values.
  - `Plane.__init__` normalises its normal; the model takes the stored normal as given.
  - The `assert` of `Box.__init__` becomes part of `WellFormed`.
  - A scene node built from parameters is covered by `NodeTransform` over the exact matrices.
- `SceneNode.intersect` updates the child's result in place (`temp_isect.p`, `.n`). The model builds a new value. This is the same thing here, because every child result is fresh.
- `renderScene` normalises `nearest_isect.n` in place. The model passes the normalised normal to shading and keeps the hit unchanged; nothing reads the field afterwards.
- `Render.init`, `setPixel` and `save` (PIL, matplotlib, file output). `RenderScene` returns the colours in pixel order instead of writing an image. The conversion of colours to bytes in `setPixel` is not modelled.
- `Material` and `Light` from dictionaries. Absent keys are `None` entries of `MaterialParams` and `LightParams`; `float()` conversion of strings is not modelled.
- `LSystem.__init__`, `bVerbose` tracing, `exec_draw_cmd` and `draw_scene`. The object is only observed after `set_grammar`. The missing-key `KeyError` for `rule`, `init` or `depth` is ruled out by making those fields of `Grammar` required.
- `HermiteCurve.__init__` with data points (HermiteCurve.py:59-60) is not modelled: it calls `set_data` without `self` and so raises. Only the empty constructor is modelled. `draw_scene` of the curve and of the patch, and `set_color_from_XYZ`, are OpenGL drawing.
- BicubicPatch.GetSamples: the nine arrays `X .. DtZ` are kept as one two-dimensional array of `PatchSample` values (point, d/ds, d/dt). Each array of the source is one field of that array.
- `data_points` is a 16x3 numpy array in the source. The model takes a sequence of 16 points; the reshape requires exactly 16.
- The Python `assert`s of `evaluate` and `get_samples` are preconditions of `Evaluate` and `GetSamples`.
- A valid hit that carries no material would make Python raise when its material is read. `PixelColour` returns `None` for it. `BackgroundIffNoValidHit` shows that this does not happen in a well-formed scene.
- SceneParser.py, the windowing and OpenGL modules, the drivers, the tests and setup.py. Tests appear only as properties in the table above.

## Findings

| source | as written | input that shows it | evidently intended | confidence | as-written member | corrected member |
|---|---|---|---|---|---|---|
| Intersectable.py:86-90 | when the origin is not strictly outside the sphere (`distsphere > radius` fails), the root nearer to the origin is never taken, even when it is the only one ahead; the other root is behind the viewer, so `t > EPS` fails and no hit is reported | unit sphere at the origin, ray from (0, 0, 0.5) along (0, 0, 1): `t1 = 0.5`, `t2 = -1.5`, `dist1 < dist2`, so `t = t2 = -1.5` and the result is the sentinel | a viewer inside a sphere sees its inside along the view direction (the docstring's NOTE 1 and `test_ray_intersection_inside_sphere`): take `t1`, the `+sqrt` root, when the origin is not outside, which gives the hit at `t = 0.5`, point (0, 0, 1) | not executed | SphereProps.InsideRayMissedAsWritten | SphereProps.InsideRaySeenCorrected |
