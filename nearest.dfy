/** The running-minimum selection shared by `Box.intersect`, `SceneNode.intersect`
    and `Scene.get_nearest_object_intersection`: start from the "no hit" sentinel
    and keep a candidate only when it passes the caller's test and its `t` is
    strictly below the current one. */
module Nearest {
  import opened Linear
  import opened Ray

  /** `EPS_DISTANCE` of Intersectable.py. */
  const EPS_DISTANCE: real := 0.000000001

  /** Python's `t > EPS_DISTANCE`; `inf > 1e-9` holds. */
  predicate GtEps(t: Param)
  {
    t.Inf? || t.v > EPS_DISTANCE
  }

  /** `Box.within_bounds`: every coordinate within `[min - EPS, max + EPS]`. */
  predicate InBounds(lo: Vec3, hi: Vec3, p: Vec3)
  {
    lo.x - EPS_DISTANCE <= p.x <= hi.x + EPS_DISTANCE &&
    lo.y - EPS_DISTANCE <= p.y <= hi.y + EPS_DISTANCE &&
    lo.z - EPS_DISTANCE <= p.z <= hi.z + EPS_DISTANCE
  }

  /** The caller's acceptance test, on top of the strict `t <` comparison.
      `Any`: the scene loop. `BeyondEps`: a scene node (`t > EPS`).
      `FaceInBox`: a box face (`within_bounds(p)` and `t > EPS`). */
  datatype Filter = Any | BeyondEps | FaceInBox(lo: Vec3, hi: Vec3)

  predicate Accept(f: Filter, h: Hit)
  {
    match f
    case Any => true
    case BeyondEps => GtEps(h.t)
    case FaceInBox(lo, hi) => InBounds(lo, hi, h.p) && GtEps(h.t)
  }

  /** One loop iteration. */
  function Keep(f: Filter, acc: Hit, h: Hit): Hit
  {
    if Accept(f, h) && Less(h.t, acc.t) then h else acc
  }

  /** The loop's result after visiting `hits` in order. */
  function FirstMin(f: Filter, hits: seq<Hit>): Hit
  {
    if |hits| == 0 then NoHit() else Keep(f, FirstMin(f, hits[..|hits| - 1]), hits[|hits| - 1])
  }

  /** A candidate the loop may choose: accepted with a finite `t`. */
  predicate Candidate(f: Filter, h: Hit)
  {
    Accept(f, h) && h.t.Finite?
  }

  /** Independent description of the choice: the index of the first candidate whose
      `t` is strictly below that of every earlier candidate and not above any later
      one, or -1 when there is no candidate. */
  function FirstMinIndex(f: Filter, hits: seq<Hit>): (k: int)
    ensures -1 <= k < |hits|
    ensures k != -1 ==> Candidate(f, hits[k])
  {
    if |hits| == 0 then -1
    else
      var k := FirstMinIndex(f, hits[..|hits| - 1]);
      var h := hits[|hits| - 1];
      if Candidate(f, h) && (k == -1 || h.t.v < hits[k].t.v) then |hits| - 1 else k
  }

  /** The loop returns the sentinel exactly when there is no candidate; otherwise
      it returns the candidate of least `t`, the first one on ties. */
  lemma {:induction false} FirstMinIsLeast(f: Filter, hits: seq<Hit>)
    ensures var k := FirstMinIndex(f, hits);
            FirstMin(f, hits) == (if k == -1 then NoHit() else hits[k])
    ensures FirstMinIndex(f, hits) == -1 <==> forall i :: 0 <= i < |hits| ==> !Candidate(f, hits[i])
    ensures var k := FirstMinIndex(f, hits);
            k != -1 ==> Candidate(f, hits[k]) &&
                        (forall j :: 0 <= j < k && Candidate(f, hits[j]) ==> hits[k].t.v < hits[j].t.v) &&
                        (forall j :: k < j < |hits| && Candidate(f, hits[j]) ==> hits[k].t.v <= hits[j].t.v)
  {
    if |hits| > 0 {
      var init := hits[..|hits| - 1];
      FirstMinIsLeast(f, init);
      var k := FirstMinIndex(f, init);
      forall i | 0 <= i < |init| ensures init[i] == hits[i] { }
    }
  }

  /** The result's `t` is never above an accepted hit's `t`, and it is infinite
      exactly when no accepted hit has a finite `t`. */
  lemma FirstMinBelowAll(f: Filter, hits: seq<Hit>)
    ensures forall i :: 0 <= i < |hits| && Accept(f, hits[i]) ==> !Less(hits[i].t, FirstMin(f, hits).t)
    ensures FirstMin(f, hits).t.Inf? <==> forall i :: 0 <= i < |hits| ==> !Candidate(f, hits[i])
    ensures FirstMin(f, hits) == NoHit() || Accept(f, FirstMin(f, hits))
  {
    FirstMinIsLeast(f, hits);
  }

  /** With no candidates at all the loop leaves the sentinel untouched. */
  lemma FirstMinEmpty(f: Filter)
    ensures FirstMin(f, []) == NoHit()
  {
  }
}
