/**
 * The specification of `growRacks`: one pass over the racks in order; each
 * growable rack tries, in turn, to extend its segment one unit to the right
 * (x2), to the left (x1), up (y2) and down (y1), each attempt allowed by its
 * permission and by the clearance test at the new endpoint, evaluated on
 * the racks as they stand at that moment.
 */
module Growth {
  import opened Geometry2D
  import opened Racks
  import opened Clearance

  datatype Side = ToRight | ToLeft | ToUp | ToDown

  /** The result of growing: the racks afterwards, and whether anything grew. */
  datatype Grown = Grown(racks: seq<Rack>, grew: bool)

  predicate AllGrowable(racks: seq<Rack>)
  {
    forall j :: 0 <= j < |racks| ==> racks[j].flags.Some?
  }

  function Allowed(f: Flags, side: Side): bool
  {
    match side
    case ToRight => f.canGrowRight
    case ToLeft => f.canGrowLeft
    case ToUp => f.canGrowUp
    case ToDown => f.canGrowDown
  }

  /** The point probed before growing: the moved endpoint at its new place. */
  function GrowPoint(s: Segment, side: Side): Point
  {
    match side
    case ToRight => Point(s.x2 + 1.0, s.y2)
    case ToLeft => Point(s.x1 - 1.0, s.y1)
    case ToUp => Point(s.x2, s.y2 + 1.0)
    case ToDown => Point(s.x1, s.y1 - 1.0)
  }

  /** The segment after one unit of growth towards `side`. */
  function Extended(s: Segment, side: Side): (e: Segment)
    ensures GrowPoint(s, side) in Endpoints(e)
  {
    match side
    case ToRight => s.(x2 := s.x2 + 1.0)
    case ToLeft => s.(x1 := s.x1 - 1.0)
    case ToUp => s.(y2 := s.y2 + 1.0)
    case ToDown => s.(y1 := s.y1 - 1.0)
  }

  /** One growth attempt of rack i towards `side`; `GrowStepShape` states its effect. */
  function GrowStep(boundary: Rect, eps: real, racks: seq<Rack>, i: nat, side: Side): Grown
    requires i < |racks| && racks[i].flags.Some?
  {
    var r := racks[i];
    if Allowed(r.flags.value, side) &&
       IsPointSufficientlyFar(boundary, eps, racks, GrowPoint(r.seg, side), 0.0, Some(i))
    then Grown(racks[i := r.(seg := Extended(r.seg, side))], true)
    else Grown(racks, false)
  }

  /** The four attempts for rack i: right, left, up, down; `GrowRackShape` states their effect. */
  function GrowRack(boundary: Rect, eps: real, racks: seq<Rack>, i: nat): Grown
    requires i < |racks| && racks[i].flags.Some?
  {
    var g1 := GrowStep(boundary, eps, racks, i, ToRight);
    var g2 := GrowStep(boundary, eps, g1.racks, i, ToLeft);
    var g3 := GrowStep(boundary, eps, g2.racks, i, ToUp);
    var g4 := GrowStep(boundary, eps, g3.racks, i, ToDown);
    Grown(g4.racks, g1.grew || g2.grew || g3.grew || g4.grew)
  }

  /** The pass over the first k racks. */
  function GrowPrefix(boundary: Rect, eps: real, racks: seq<Rack>, k: nat): (g: Grown)
    requires k <= |racks| && AllGrowable(racks)
    ensures |g.racks| == |racks| && AllGrowable(g.racks)
    ensures forall j :: k <= j < |racks| ==> g.racks[j] == racks[j]
  {
    if k == 0 then Grown(racks, false)
    else
      var g := GrowPrefix(boundary, eps, racks, k - 1);
      var h := GrowRack(boundary, eps, g.racks, k - 1);
      GrowRackKeepsOthers(boundary, eps, g.racks, k - 1);
      Grown(h.racks, g.grew || h.grew)
  }

  /** Growing rack i leaves every other rack as it was. */
  lemma GrowRackKeepsOthers(boundary: Rect, eps: real, racks: seq<Rack>, i: nat)
    requires i < |racks| && racks[i].flags.Some?
    ensures forall j :: 0 <= j < |racks| && j != i ==> GrowRack(boundary, eps, racks, i).racks[j] == racks[j]
  {
    GrowRackShape(boundary, eps, racks, i);
  }

  /** `growRacks`: the pass over all racks. */
  function GrowPass(boundary: Rect, eps: real, racks: seq<Rack>): (g: Grown)
    requires AllGrowable(racks)
    ensures |g.racks| == |racks| && AllGrowable(g.racks)
  {
    GrowPrefix(boundary, eps, racks, |racks|)
  }

  /**
   * How a rack may have changed after one pass: direction and permissions
   * are kept, and each coordinate either stays or moves exactly one unit
   * outward, and then only with the matching permission.
   */
  predicate OneUnitOutward(a: Rack, b: Rack)
    requires a.flags.Some?
  {
    b.dir == a.dir && b.flags == a.flags && SegmentOutward(a.flags.value, a.seg, b.seg)
  }

  predicate SegmentOutward(f: Flags, a: Segment, b: Segment)
  {
    (b.x2 == a.x2 || (f.canGrowRight && b.x2 == a.x2 + 1.0)) &&
    (b.x1 == a.x1 || (f.canGrowLeft && b.x1 == a.x1 - 1.0)) &&
    (b.y2 == a.y2 || (f.canGrowUp && b.y2 == a.y2 + 1.0)) &&
    (b.y1 == a.y1 || (f.canGrowDown && b.y1 == a.y1 - 1.0))
  }

  /** What one attempt does to the segment: extend it when it grew, else nothing. */
  predicate StepOn(f: Flags, a: Segment, b: Segment, side: Side, grew: bool)
  {
    if grew then Allowed(f, side) && b == Extended(a, side) else b == a
  }

  /**
   * Right, left, up, down in turn: each coordinate moves at most once, so
   * the segment changed exactly when some attempt grew it.
   */
  lemma FourSteps(f: Flags, s0: Segment, s1: Segment, s2: Segment, s3: Segment, s4: Segment,
                  g1: bool, g2: bool, g3: bool, g4: bool)
    requires StepOn(f, s0, s1, ToRight, g1) && StepOn(f, s1, s2, ToLeft, g2)
    requires StepOn(f, s2, s3, ToUp, g3) && StepOn(f, s3, s4, ToDown, g4)
    ensures SegmentOutward(f, s0, s4)
    ensures g1 || g2 || g3 || g4 <==> s4 != s0
  {
    if g1 { assert s4.x2 != s0.x2; }
    if g2 { assert s4.x1 != s0.x1; }
    if g3 { assert s4.y2 != s0.y2; }
    if g4 { assert s4.y1 != s0.y1; }
  }

  /**
   * One attempt changes nothing but rack i, and reports growth exactly
   * when the rack's coordinate on that side moved one unit outward, which
   * needs both the permission and clearance at the new endpoint.
   */
  lemma GrowStepShape(boundary: Rect, eps: real, racks: seq<Rack>, i: nat, side: Side)
    requires i < |racks| && racks[i].flags.Some?
    ensures var g := GrowStep(boundary, eps, racks, i, side);
            |g.racks| == |racks| &&
            (forall j :: 0 <= j < |racks| && j != i ==> g.racks[j] == racks[j]) &&
            g.racks[i].dir == racks[i].dir && g.racks[i].flags == racks[i].flags &&
            (g.grew <==> g.racks[i] != racks[i]) &&
            (g.grew <==> Allowed(racks[i].flags.value, side) &&
                         IsPointSufficientlyFar(boundary, eps, racks,
                           GrowPoint(racks[i].seg, side), 0.0, Some(i))) &&
            StepOn(racks[i].flags.value, racks[i].seg, g.racks[i].seg, side, g.grew) &&
            (!g.grew ==> g.racks == racks)
  {
    var s := racks[i].seg;
    var e := Extended(s, side);
    match side
    case ToRight => assert e.x2 != s.x2;
    case ToLeft => assert e.x1 != s.x1;
    case ToUp => assert e.y2 != s.y2;
    case ToDown => assert e.y1 != s.y1;
  }

  /**
   * The four attempts on rack i change only rack i, move each of its
   * coordinates at most one unit outward, and report growth exactly when
   * the rack changed.
   */
  lemma GrowRackShape(boundary: Rect, eps: real, racks: seq<Rack>, i: nat)
    requires i < |racks| && racks[i].flags.Some?
    ensures var g := GrowRack(boundary, eps, racks, i);
            |g.racks| == |racks| &&
            (forall j :: 0 <= j < |racks| && j != i ==> g.racks[j] == racks[j]) &&
            OneUnitOutward(racks[i], g.racks[i]) &&
            (g.grew <==> g.racks[i] != racks[i])
  {
    var g1 := GrowStep(boundary, eps, racks, i, ToRight);
    GrowStepShape(boundary, eps, racks, i, ToRight);
    var g2 := GrowStep(boundary, eps, g1.racks, i, ToLeft);
    GrowStepShape(boundary, eps, g1.racks, i, ToLeft);
    var g3 := GrowStep(boundary, eps, g2.racks, i, ToUp);
    GrowStepShape(boundary, eps, g2.racks, i, ToUp);
    var g4 := GrowStep(boundary, eps, g3.racks, i, ToDown);
    GrowStepShape(boundary, eps, g3.racks, i, ToDown);
    FourSteps(racks[i].flags.value, racks[i].seg, g1.racks[i].seg, g2.racks[i].seg, g3.racks[i].seg,
              g4.racks[i].seg, g1.grew, g2.grew, g3.grew, g4.grew);
  }

  /**
   * After the pass over the first k racks, each of them moved at most one
   * unit outward per coordinate, the rest are untouched, and the pass
   * reports growth exactly when some rack changed.
   */
  lemma {:induction false} GrowPrefixOutward(boundary: Rect, eps: real, racks: seq<Rack>, k: nat)
    requires k <= |racks| && AllGrowable(racks)
    ensures var g := GrowPrefix(boundary, eps, racks, k);
            (forall j :: 0 <= j < k ==> OneUnitOutward(racks[j], g.racks[j])) &&
            (g.grew <==> g.racks != racks)
  {
    if k > 0 {
      GrowPrefixOutward(boundary, eps, racks, k - 1);
      var g := GrowPrefix(boundary, eps, racks, k - 1);
      GrowRackShape(boundary, eps, g.racks, k - 1);
      var h := GrowRack(boundary, eps, g.racks, k - 1);
      OneMoreRack(racks, g, h, k);
    }
  }

  /**
   * The inductive step of `GrowPrefixOutward`, on the racks alone: g is the
   * pass over the first k - 1 racks, h the growth of rack k - 1 after it.
   */
  lemma OneMoreRack(racks: seq<Rack>, g: Grown, h: Grown, k: nat)
    requires 0 < k <= |racks| && AllGrowable(racks)
    requires |g.racks| == |racks| && forall j :: k - 1 <= j < |racks| ==> g.racks[j] == racks[j]
    requires forall j :: 0 <= j < k - 1 ==> OneUnitOutward(racks[j], g.racks[j])
    requires g.grew <==> g.racks != racks
    requires |h.racks| == |racks| && forall j :: 0 <= j < |racks| && j != k - 1 ==> h.racks[j] == g.racks[j]
    requires g.racks[k - 1].flags.Some? && OneUnitOutward(g.racks[k - 1], h.racks[k - 1])
    requires h.grew <==> h.racks[k - 1] != g.racks[k - 1]
    ensures forall j :: 0 <= j < k ==> OneUnitOutward(racks[j], h.racks[j])
    ensures g.grew || h.grew <==> h.racks != racks
  {
    if g.grew {
      var j :| 0 <= j < |racks| && g.racks[j] != racks[j];
      assert h.racks[j] != racks[j];
    } else if h.grew {
      assert h.racks[k - 1] != racks[k - 1];
    } else {
      assert h.racks == g.racks;
    }
  }

  /**
   * `growRacks` returns true exactly when some rack changed; every rack
   * keeps its direction and permissions, and each coordinate moves by
   * exactly one unit outward or not at all.
   */
  lemma GrowPassOutward(boundary: Rect, eps: real, racks: seq<Rack>)
    requires AllGrowable(racks)
    ensures var g := GrowPass(boundary, eps, racks);
            |g.racks| == |racks| &&
            (forall j :: 0 <= j < |racks| ==> OneUnitOutward(racks[j], g.racks[j])) &&
            (g.grew <==> g.racks != racks)
  {
    GrowPrefixOutward(boundary, eps, racks, |racks|);
  }

  /** Racks without any permission never grow. */
  lemma FixedRacksDoNotGrow(boundary: Rect, eps: real, racks: seq<Rack>)
    requires AllGrowable(racks)
    requires forall j :: 0 <= j < |racks| ==> racks[j].flags.value == Flags(false, false, false, false)
    ensures GrowPass(boundary, eps, racks) == Grown(racks, false)
  {
    GrowPassOutward(boundary, eps, racks);
    var g := GrowPass(boundary, eps, racks);
    assert forall j :: 0 <= j < |racks| ==> g.racks[j] == racks[j];
  }
}
