/**
 * The clearance test `isPointSufficientlyFarFromOtherRacksAndBoundary`: a
 * point is far enough when its distance to the boundary rectangle's edges
 * and to every rack other than the one being grown is at least the
 * tolerance.  Distances are compared through their squares.
 */
module Clearance {
  import opened Geometry2D
  import opened Racks

  /** `sqrt(sqDist) < tol`, stated exactly on the squared distance. */
  predicate TooClose(sqDist: real, tol: real)
  {
    tol > 0.0 && sqDist < Sq(tol)
  }

  /** A tolerance of 0 stands for epsilon. */
  function EffectiveTolerance(tolerance: real, eps: real): (t: real)
    ensures tolerance != 0.0 ==> t == tolerance
    ensures tolerance == 0.0 ==> t == eps
  {
    if tolerance == 0.0 then eps else tolerance
  }

  /**
   * `isPointSufficientlyFarFromOtherRacksAndBoundary(pt, tolerance, thisRack)`.
   * `thisRack` is the position of the excluded rack in `racks`, or None.
   */
  function IsPointSufficientlyFar(boundary: Rect, eps: real, racks: seq<Rack>, pt: Point,
                                  tolerance: real, thisRack: Option<nat>): (b: bool)
    ensures var t := EffectiveTolerance(tolerance, eps);
            b <==> !TooClose(RectSqDistanceFromPoint(boundary, pt), t) &&
                   forall k :: 0 <= k < |racks| && thisRack != Some(k) ==>
                     !TooClose(SqDistanceFromPoint(racks[k].seg, pt), t)
  {
    var t := EffectiveTolerance(tolerance, eps);
    if TooClose(RectSqDistanceFromPoint(boundary, pt), t) then false
    else FarFromRacks(racks, pt, t, thisRack, 0)
  }

  /** The scan over `racks[k..]`, skipping the excluded rack. */
  function FarFromRacks(racks: seq<Rack>, pt: Point, t: real, thisRack: Option<nat>, k: nat): (b: bool)
    requires k <= |racks|
    ensures b <==> forall j :: k <= j < |racks| && thisRack != Some(j) ==>
                     !TooClose(SqDistanceFromPoint(racks[j].seg, pt), t)
    decreases |racks| - k
  {
    if k == |racks| then true
    else if thisRack != Some(k) && TooClose(SqDistanceFromPoint(racks[k].seg, pt), t) then false
    else FarFromRacks(racks, pt, t, thisRack, k + 1)
  }

  /** Squaring is monotone on the non-negative reals. */
  lemma SqMonotone(a: real, b: real)
    requires 0.0 <= a <= b
    ensures Sq(a) <= Sq(b)
  {
    SqIsProduct(a);
    SqIsProduct(b);
    NonNegativeProduct(b - a, b + a);
    assert Sq(b) - Sq(a) == (b - a) * (b + a);
  }

  /** A larger tolerance accepts fewer points. */
  lemma TolerancesNest(boundary: Rect, eps: real, racks: seq<Rack>, pt: Point,
                       t1: real, t2: real, thisRack: Option<nat>)
    requires 0.0 < t1 <= t2
    requires IsPointSufficientlyFar(boundary, eps, racks, pt, t2, thisRack)
    ensures IsPointSufficientlyFar(boundary, eps, racks, pt, t1, thisRack)
  {
    SqMonotone(t1, t2);
  }

  /** The excluded rack never blocks: removing it from consideration can only help. */
  lemma ExcludedRackIgnored(boundary: Rect, eps: real, racks: seq<Rack>, pt: Point,
                            tolerance: real, k: nat)
    requires k < |racks|
    requires IsPointSufficientlyFar(boundary, eps, racks, pt, tolerance, None)
    ensures IsPointSufficientlyFar(boundary, eps, racks, pt, tolerance, Some(k))
  {
  }

  /**
   * With a positive tolerance, an endpoint of any rack other than the
   * excluded one, and any point on the boundary, is too close.
   */
  lemma EndpointsAndBoundaryRejected(boundary: Rect, eps: real, racks: seq<Rack>,
                                     tolerance: real, thisRack: Option<nat>, k: nat, pt: Point)
    requires EffectiveTolerance(tolerance, eps) > 0.0
    requires k < |racks| && thisRack != Some(k)
    ensures !IsPointSufficientlyFar(boundary, eps, racks, Start(racks[k].seg), tolerance, thisRack)
    ensures !IsPointSufficientlyFar(boundary, eps, racks, End(racks[k].seg), tolerance, thisRack)
    ensures Normalized(boundary) && Contains(boundary, pt) &&
            (pt.x == boundary.left || pt.x == boundary.right ||
             pt.y == boundary.top || pt.y == boundary.bottom) ==>
            !IsPointSufficientlyFar(boundary, eps, racks, pt, tolerance, thisRack)
  {
    SqDistanceFromPointEndpoints(racks[k].seg, pt);
    if Normalized(boundary) && Contains(boundary, pt) &&
       (pt.x == boundary.left || pt.x == boundary.right ||
        pt.y == boundary.top || pt.y == boundary.bottom) {
      RectDistanceZeroOnBoundary(boundary, pt);
    }
  }
}
