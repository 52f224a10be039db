/**
 * The deterministic H-style configuration (`placeHStyleRackConfiguration`):
 * vertical racks in pairs with one horizontal rack bridging every gap
 * between pairs, spaced epsilon apart across a 100 x 100 boundary.
 */
module Layout {
  import opened Geometry2D
  import opened Racks

  /** Rack i is horizontal: every third rack from index 2 on, but never the last. */
  predicate HorizontalAt(num: nat, i: nat)
  {
    i >= 2 && i % 3 == 2 && i != num - 1
  }

  /** The number of horizontal racks among the first i. */
  function HorizontalsBelow(num: nat, i: nat): (c: nat)
    requires 0 < num && i <= num
  {
    if i < num then i / 3 else (num - 1) / 3
  }

  /** `count_horizontal`: the number of horizontal racks in the whole configuration. */
  function HorizontalCount(num: nat): nat
    requires num > 0
  {
    HorizontalsBelow(num, num)
  }

  /** The width of each horizontal rack: what is left of the span after the epsilon gaps. */
  function Separation(num: nat, eps: real): real
    requires num > 0
  {
    var spare := (100.0 - eps) - num as real * eps;
    if HorizontalCount(num) > 0 then spare / HorizontalCount(num) as real
    else spare / num as real
  }

  /** The x coordinate at which rack i starts. */
  function RackX(num: nat, eps: real, i: nat): real
    requires i < num
  {
    var sep := Separation(num, eps);
    if HorizontalCount(num) > 0 then (i + 1) as real * eps + HorizontalsBelow(num, i) as real * sep
    else (i + 1) as real * (eps + sep)
  }

  /**
   * The facing direction of rack i: horizontal racks face up; vertical ones
   * alternate left, right starting from the first, and the last faces right.
   * Without any horizontal rack every rack keeps the initial UP.
   */
  function HStyleDirection(num: nat, i: nat): (d: Direction)
    requires i < num
    ensures d == Up <==> HorizontalCount(num) == 0 || HorizontalAt(num, i)
  {
    if HorizontalCount(num) == 0 || HorizontalAt(num, i) then Up
    else if i % 3 == 0 && i != num - 1 then Left
    else Right
  }

  /** Rack i of the configuration. */
  function HStyleRack(num: nat, eps: real, i: nat): (r: Rack)
    requires i < num
    ensures r.seg.x1 == RackX(num, eps, i) && r.flags == None
  {
    var x := RackX(num, eps, i);
    if HorizontalAt(num, i) then
      Rack(Segment(x, 50.0, x + Separation(num, eps), 50.0), Up, None)
    else
      Rack(Segment(x, eps, x, 100.0 - eps), HStyleDirection(num, i), None)
  }

  /** The orientation recorded for rack i. */
  function OrientationAt(num: nat, i: nat): Orientation
  {
    if HorizontalAt(num, i) then Horizontal else Vertical
  }

  /**
   * The first loop of `placeHStyleRackConfiguration`: the first two racks and
   * the last are vertical, a rack after two verticals is horizontal.
   */
  method HStyleOrientations(num: nat) returns (orientations: seq<Orientation>, countHorizontal: nat)
    requires num > 0
    ensures |orientations| == num
    ensures forall i :: 0 <= i < num ==> orientations[i] == OrientationAt(num, i)
    ensures countHorizontal == HorizontalCount(num)
  {
    orientations := [];
    countHorizontal := 0;
    for i := 0 to num
      invariant |orientations| == i
      invariant forall k :: 0 <= k < i ==> orientations[k] == OrientationAt(num, k)
      invariant countHorizontal == HorizontalsBelow(num, i)
    {
      if i == 0 || i == 1 || i == num - 1 {
        orientations := orientations + [Vertical];
      } else if orientations[i - 1] == Vertical && orientations[i - 2] == Vertical {
        orientations := orientations + [Horizontal];
        countHorizontal := countHorizontal + 1;
      } else {
        orientations := orientations + [Vertical];
      }
    }
  }

  /**
   * `placeHStyleRackConfiguration(num)`: the racks in placement order, with
   * the running `last_x` and the direction of the last vertical rack.
   */
  method HStyleLayout(num: nat, eps: real) returns (racks: seq<Rack>)
    requires num > 0
    ensures |racks| == num
    ensures forall i :: 0 <= i < num ==> racks[i] == HStyleRack(num, eps, i)
  {
    var orientations, countHorizontal := HStyleOrientations(num);
    var separation;
    if countHorizontal > 0 {
      separation := ((100.0 - eps) - num as real * eps) / countHorizontal as real;
    } else {
      separation := ((100.0 - eps) - num as real * eps) / num as real;
    }
    assert separation == Separation(num, eps);
    var lastX := 0.0;
    var lastVerticalDir := Left;
    racks := [];
    for i := 0 to num
      invariant |racks| == i
      invariant forall k :: 0 <= k < i ==> racks[k] == HStyleRack(num, eps, k)
      invariant lastX == LastX(num, eps, i)
      invariant countHorizontal > 0 ==> lastVerticalDir == LastVerticalDir(num, i)
    {
      var rack;
      rack, lastX, lastVerticalDir :=
        PlaceRack(num, eps, i, orientations[i], countHorizontal, separation, lastX, lastVerticalDir);
      racks := racks + [rack];
    }
  }

  /** `last_x` after i racks are placed: the running right end of the configuration. */
  function LastX(num: nat, eps: real, i: nat): real
    requires 0 < num && i <= num
  {
    if HorizontalCount(num) > 0 then i as real * eps + HorizontalsBelow(num, i) as real * Separation(num, eps)
    else i as real * (eps + Separation(num, eps))
  }

  /** `lastVerticalDir` after i racks are placed, when there are horizontal racks. */
  function LastVerticalDir(num: nat, i: nat): Direction
  {
    if i == 0 || ((i - 1) % 3 == 0 && i - 1 != num - 1) then Left else Right
  }

  /** Rack i starts eps (and a separation, without horizontals) past `last_x`, and moves it to its right end. */
  lemma PlacementStep(num: nat, eps: real, i: nat)
    requires i < num
    ensures HorizontalCount(num) > 0 ==>
              RackX(num, eps, i) == LastX(num, eps, i) + eps &&
              LastX(num, eps, i + 1) ==
                LastX(num, eps, i) + eps + (if HorizontalAt(num, i) then Separation(num, eps) else 0.0)
    ensures HorizontalCount(num) == 0 ==>
              RackX(num, eps, i) == LastX(num, eps, i) + eps + Separation(num, eps) &&
              LastX(num, eps, i + 1) == LastX(num, eps, i) + eps + Separation(num, eps) &&
              !HorizontalAt(num, i)
  {
    var sep := Separation(num, eps);
    if HorizontalCount(num) > 0 {
      var h := HorizontalsBelow(num, i);
      assert HorizontalsBelow(num, i + 1) == h + (if HorizontalAt(num, i) then 1 else 0);
      assert RackX(num, eps, i) == (i + 1) as real * eps + h as real * sep;
      assert LastX(num, eps, i) == i as real * eps + h as real * sep;
    } else {
      OrientationPattern(num, i);
      assert RackX(num, eps, i) == (i + 1) as real * (eps + sep);
      assert LastX(num, eps, i + 1) == (i + 1) as real * (eps + sep);
    }
  }

  /**
   * With horizontals, a vertical rack's direction follows from the previous
   * vertical one as the placement loop decides it, and becomes the new
   * `lastVerticalDir`.
   */
  lemma DirectionStep(num: nat, i: nat)
    requires i < num && HorizontalCount(num) > 0 && !HorizontalAt(num, i)
    ensures HStyleDirection(num, i) ==
              if i == 0 then Left
              else if i == 1 || i == num - 1 then Right
              else if LastVerticalDir(num, i) == Left then Right
              else Left
    ensures LastVerticalDir(num, i + 1) == HStyleDirection(num, i)
  {
  }

  /** One iteration of the placement loop: rack i from the running state. */
  method PlaceRack(num: nat, eps: real, i: nat, orientation: Orientation, countHorizontal: nat,
                   separation: real, lastX: real, lastVerticalDir: Direction)
    returns (rack: Rack, lastX': real, lastVerticalDir': Direction)
    requires i < num && orientation == OrientationAt(num, i)
    requires countHorizontal == HorizontalCount(num) && separation == Separation(num, eps)
    requires lastX == LastX(num, eps, i)
    requires countHorizontal > 0 ==> lastVerticalDir == LastVerticalDir(num, i)
    ensures rack == HStyleRack(num, eps, i)
    ensures lastX' == LastX(num, eps, i + 1)
    ensures countHorizontal > 0 ==> lastVerticalDir' == LastVerticalDir(num, i + 1)
  {
    PlacementStep(num, eps, i);
    if countHorizontal > 0 && !HorizontalAt(num, i) {
      DirectionStep(num, i);
    }
    lastVerticalDir' := lastVerticalDir;
    var facingDir := Up;
    if orientation == Vertical {
      if countHorizontal > 0 {
        if i == 0 {
          facingDir := Left;
        } else if i == 1 || i == num - 1 {
          facingDir := Right;
        } else {
          if lastVerticalDir == Left {
            facingDir := Right;
          } else {
            facingDir := Left;
          }
        }
        lastVerticalDir' := facingDir;
        var x := lastX + eps;
        rack := Rack(Segment(x, eps, x, 100.0 - eps), facingDir, None);
        lastX' := lastX + eps;
      } else {
        var x := lastX + eps + separation;
        rack := Rack(Segment(x, eps, x, 100.0 - eps), facingDir, None);
        lastX' := lastX + eps + separation;
      }
    } else {
      var x := lastX + eps;
      rack := Rack(Segment(x, 50.0, x + separation, 50.0), facingDir, None);
      lastX' := lastX + eps + separation;
    }
  }

  /**
   * The orientation pattern: the first two racks and the last are vertical,
   * every horizontal rack follows two vertical ones and is followed by a
   * vertical one, and there are (num - 1) / 3 horizontal racks.
   */
  lemma OrientationPattern(num: nat, i: nat)
    requires 0 < num && i < num
    ensures !HorizontalAt(num, 0) && !HorizontalAt(num, 1) && !HorizontalAt(num, num - 1)
    ensures HorizontalAt(num, i) ==>
              !HorizontalAt(num, i - 1) && !HorizontalAt(num, i - 2) && !HorizontalAt(num, i + 1)
    ensures HorizontalCount(num) == (num - 1) / 3
    ensures HorizontalCount(num) > 0 <==> num >= 4
  {
  }

  /** The two kinds of rack: verticals span [eps, 100 - eps] in y, horizontals lie on y = 50. */
  lemma HStyleShapes(num: nat, eps: real, i: nat)
    requires i < num
    ensures var r := HStyleRack(num, eps, i);
            r.flags == None &&
            (HorizontalAt(num, i) ==>
               r.seg.y1 == 50.0 && r.seg.y2 == 50.0 && r.seg.x2 == r.seg.x1 + Separation(num, eps) && r.dir == Up) &&
            (!HorizontalAt(num, i) ==>
               r.seg.x1 == r.seg.x2 && r.seg.y1 == eps && r.seg.y2 == 100.0 - eps)
  {
  }

  /**
   * With at least one horizontal rack, vertical racks face left and right in
   * turn: the first left, the second and the last right; horizontal racks
   * face up.  The last rack breaks the alternation when the one before it
   * also faced right.  With no horizontal rack, every rack faces up.
   */
  lemma DirectionPattern(num: nat, i: nat)
    requires 0 < num && i < num
    ensures HorizontalCount(num) == 0 ==> HStyleDirection(num, i) == Up
    ensures HorizontalCount(num) > 0 ==>
              HStyleDirection(num, 0) == Left && HStyleDirection(num, 1) == Right &&
              HStyleDirection(num, num - 1) == Right
    ensures var next := if HorizontalAt(num, i + 1) then i + 2 else i + 1;
            HorizontalCount(num) > 0 && !HorizontalAt(num, i) && next < num - 1 ==>
              HStyleDirection(num, i) != HStyleDirection(num, next)
  {
  }

  /** `(d / c) * c == d`. */
  lemma DivTimes(d: real, c: real)
    requires c != 0.0
    ensures (d / c) * c == d
  {
  }

  /** The separation fills the span: the horizontal racks' widths plus the gaps come to 100 - eps. */
  lemma SeparationFillsSpan(num: nat, eps: real)
    requires num > 0
    ensures HorizontalCount(num) > 0 ==>
              HorizontalCount(num) as real * Separation(num, eps) == (100.0 - eps) - num as real * eps
    ensures HorizontalCount(num) == 0 ==>
              num as real * Separation(num, eps) == (100.0 - eps) - num as real * eps
  {
    var spare := (100.0 - eps) - num as real * eps;
    if HorizontalCount(num) > 0 {
      DivTimes(spare, HorizontalCount(num) as real);
    } else {
      DivTimes(spare, num as real);
    }
  }

  /** The last rack stands on x = 100 - eps, as the first stands eps in from x = 0. */
  lemma LastRackAtRightMargin(num: nat, eps: real)
    requires num > 0
    ensures RackX(num, eps, num - 1) == 100.0 - eps
    ensures HorizontalCount(num) > 0 ==> RackX(num, eps, 0) == eps
  {
    SeparationFillsSpan(num, eps);
    var sep := Separation(num, eps);
    if HorizontalCount(num) > 0 {
      assert HorizontalsBelow(num, num - 1) == HorizontalCount(num);
    } else {
      assert RackX(num, eps, num - 1) == num as real * eps + num as real * sep;
    }
  }

  /**
   * With horizontal racks, consecutive racks start eps apart, except that
   * after a horizontal rack the next starts eps beyond its right end.
   */
  lemma Spacing(num: nat, eps: real, i: nat)
    requires i + 1 < num && HorizontalCount(num) > 0
    ensures RackX(num, eps, i + 1) ==
              RackX(num, eps, i) + eps + (if HorizontalAt(num, i) then Separation(num, eps) else 0.0)
  {
    assert HorizontalsBelow(num, i + 1) == HorizontalsBelow(num, i) + (if HorizontalAt(num, i) then 1 else 0);
  }
}
