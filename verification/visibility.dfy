/**
 * Complete-coverage visibility, as `guardCanSeeRack` decides it: under the
 * poser's-choice model the guard must first stand on the rack's guarded
 * side; then the triangle spanned by the guard and the rack must not be
 * crossed by any other rack.
 */
module Visibility {
  import opened Geometry2D
  import opened Racks

  /** The guarding models POSERS_CHOICE, SOLVERS_CHOICE and BOTH_SIDES. */
  datatype GuardingModel = PosersChoice | SolversChoice | BothSidesModel

  /**
   * The poser's-choice side filter: a rack guarded from the right needs the
   * guard strictly right of x1, from the left strictly left of x1, from below
   * strictly above y1 in screen terms (y < y1), from above y > y1.  The
   * other models, and the directions EITHER and BOTH_SIDES, filter nothing.
   */
  predicate OnGuardedSide(model: GuardingModel, rack: Rack, g: Point): (b: bool)
    ensures b <==> model != PosersChoice ||
                   ((rack.dir == Right ==> g.x > rack.seg.x1) && (rack.dir == Left ==> g.x < rack.seg.x1) &&
                    (rack.dir == Down ==> g.y < rack.seg.y1) && (rack.dir == Up ==> g.y > rack.seg.y1))
  {
    if model != PosersChoice then true
    else if rack.dir == Right && g.x <= rack.seg.x1 then false
    else if rack.dir == Left && g.x >= rack.seg.x1 then false
    else if rack.dir == Down && g.y >= rack.seg.y1 then false
    else if rack.dir == Up && g.y <= rack.seg.y1 then false
    else true
  }

  /** The triangle from the guard to the rack's two endpoints. */
  function GuardingTriangle(g: Point, rack: Rack): Triangle
  {
    Triangle(g, Start(rack.seg), End(rack.seg))
  }

  /** The scan over racks[i..] for a rack, other than the target, that crosses the triangle. */
  function NoBlocker(tri: Triangle, racks: seq<Rack>, target: nat, i: nat): (b: bool)
    requires i <= |racks|
    ensures b <==> forall k :: i <= k < |racks| && k != target ==>
                     !TriangleIntersectsSegment(tri, racks[k].seg)
    decreases |racks| - i
  {
    if i == |racks| then true
    else if i != target && TriangleIntersectsSegment(tri, racks[i].seg) then false
    else NoBlocker(tri, racks, target, i + 1)
  }

  /** `guardCanSeeRack` under complete coverage, for a guard at g and the rack at `target`. */
  function CanSee(model: GuardingModel, racks: seq<Rack>, g: Point, target: nat): (b: bool)
    requires target < |racks|
    ensures b <==> OnGuardedSide(model, racks[target], g) &&
                   forall k :: 0 <= k < |racks| && k != target ==>
                     !TriangleIntersectsSegment(GuardingTriangle(g, racks[target]), racks[k].seg)
  {
    var rack := racks[target];
    if !OnGuardedSide(model, rack, g) then false
    else NoBlocker(GuardingTriangle(g, rack), racks, target, 0)
  }

  /** Under the poser's choice a guard on the wrong side of the rack never sees it. */
  lemma WrongSideRejected(racks: seq<Rack>, g: Point, target: nat)
    requires target < |racks|
    requires var r := racks[target];
             (r.dir == Right && g.x <= r.seg.x1) || (r.dir == Left && g.x >= r.seg.x1) ||
             (r.dir == Down && g.y >= r.seg.y1) || (r.dir == Up && g.y <= r.seg.y1)
    ensures !CanSee(PosersChoice, racks, g, target)
  {
  }

  /** The poser's choice is the strictest model; the other two agree with each other. */
  lemma PosersChoiceStrictest(racks: seq<Rack>, g: Point, target: nat)
    requires target < |racks|
    ensures CanSee(PosersChoice, racks, g, target) ==> CanSee(SolversChoice, racks, g, target)
    ensures CanSee(SolversChoice, racks, g, target) == CanSee(BothSidesModel, racks, g, target)
  {
  }

  /** A lone rack is seen exactly from its guarded side: nothing else can block. */
  lemma LoneRackSeenFromGuardedSide(model: GuardingModel, rack: Rack, g: Point)
    ensures CanSee(model, [rack], g, 0) == OnGuardedSide(model, rack, g)
  {
  }

  /** Adding a rack never makes a rack visible that was not: visibility only shrinks. */
  lemma MoreRacksSeeLess(model: GuardingModel, racks: seq<Rack>, extra: Rack, g: Point, target: nat)
    requires target < |racks|
    ensures CanSee(model, racks + [extra], g, target) ==> CanSee(model, racks, g, target)
    ensures CanSee(model, racks + [extra], g, target) ==>
              !TriangleIntersectsSegment(GuardingTriangle(g, racks[target]), extra.seg)
  {
    var more := racks + [extra];
    if CanSee(model, more, g, target) {
      forall k | 0 <= k < |racks| && k != target
        ensures !TriangleIntersectsSegment(GuardingTriangle(g, racks[target]), racks[k].seg)
      {
        assert more[k] == racks[k];
      }
      assert more[|racks|] == extra;
    }
  }

  /** A rack with an endpoint strictly inside the guarding triangle blocks the view. */
  lemma InsideEndpointBlocks(model: GuardingModel, racks: seq<Rack>, g: Point, target: nat, k: nat)
    requires target < |racks| && k < |racks| && k != target
    requires var tri := GuardingTriangle(g, racks[target]);
             PointInside(tri, Start(racks[k].seg)) || PointInside(tri, End(racks[k].seg))
    ensures !CanSee(model, racks, g, target)
  {
    InsideEndpointIntersects(GuardingTriangle(g, racks[target]), racks[k].seg);
  }
}
