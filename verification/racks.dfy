/**
 * Racks: a segment with the direction from which it has to be guarded, and,
 * for a growable rack, the four growth permissions derived from that
 * direction.  Also the random choice of a guarding direction for a rack of
 * a given orientation, with the random draw passed in.
 */
module Racks {
  import opened Geometry2D

  datatype Option<T> = None | Some(value: T)

  /**
   * The guarding directions UP, DOWN, RIGHT, LEFT, EITHER and BOTH_SIDES.
   * A rack guarded "from the right" needs its guards to the right of it.
   */
  datatype Direction = Up | Down | Right | Left | Either | BothSides

  /** The growth permissions of a growable rack. */
  datatype Flags = Flags(canGrowUp: bool, canGrowDown: bool, canGrowRight: bool, canGrowLeft: bool)

  /**
   * A rack.  `flags` is None for a plain rack, and for a growable rack
   * whose direction never assigned the permissions (EITHER, BOTH_SIDES).
   */
  datatype Rack = Rack(seg: Segment, dir: Direction, flags: Option<Flags>)

  /** The label `guardingDirToString` gives a direction. */
  function GuardingDirToString(d: Direction): (s: string)
    ensures |s| >= 9 && s[..5] == "FROM "
  {
    match d
    case Up => "FROM ABOVE"
    case Right => "FROM RIGHT"
    case Down => "FROM BELOW"
    case Left => "FROM LEFT"
    case Either => "FROM EITHER SIDE"
    case BothSides => "FROM BOTH SIDES"
  }

  /** Different directions get different labels, so the label identifies the direction. */
  lemma GuardingDirToStringInjective(d: Direction, e: Direction)
    requires d != e
    ensures GuardingDirToString(d) != GuardingDirToString(e)
  {
    var s, t := GuardingDirToString(d), GuardingDirToString(e);
    if |s| == |t| {
      // Labels of equal length differ in their sixth character, or (FROM
      // RIGHT against FROM BELOW, FROM ABOVE against either) in the seventh.
      assert s[5] != t[5] || s[6] != t[6];
    }
  }

  /**
   * `setGrowthPossibilities`: a rack guarded from the left or right may grow
   * up and down, a rack guarded from above or below may grow left and right;
   * for any other direction the permissions are left as they were.
   */
  function SetGrowthPossibilities(r: Rack): (q: Rack)
    ensures q.seg == r.seg && q.dir == r.dir
    ensures (r.dir == Left || r.dir == Right) ==>
              q.flags == Some(Flags(true, true, false, false))
    ensures (r.dir == Up || r.dir == Down) ==>
              q.flags == Some(Flags(false, false, true, true))
    ensures r.dir == Either || r.dir == BothSides ==> q == r
  {
    var r1 := if r.dir == Left || r.dir == Right
              then r.(flags := Some(Flags(true, true, false, false))) else r;
    if r1.dir == Up || r1.dir == Down
    then r1.(flags := Some(Flags(false, false, true, true))) else r1
  }

  /** `GrowableRack(seg, dir)`: a rack whose permissions follow its direction. */
  function GrowableRack(seg: Segment, dir: Direction): (r: Rack)
    ensures r.seg == seg && r.dir == dir
  {
    SetGrowthPossibilities(Rack(seg, dir, None))
  }

  /** How many of the four permissions are granted. */
  function FlagCount(f: Flags): nat
  {
    (if f.canGrowUp then 1 else 0) + (if f.canGrowDown then 1 else 0) +
    (if f.canGrowRight then 1 else 0) + (if f.canGrowLeft then 1 else 0)
  }

  /**
   * A growable rack with one of the four axis directions gets exactly two
   * permissions, both along its own segment's axis and never towards its
   * guarded side.
   */
  lemma GrowableRackFlags(seg: Segment, dir: Direction)
    requires dir in {Up, Down, Left, Right}
    ensures GrowableRack(seg, dir).flags.Some?
    ensures FlagCount(GrowableRack(seg, dir).flags.value) == 2
    ensures var f := GrowableRack(seg, dir).flags.value;
            f.canGrowUp == f.canGrowDown && f.canGrowRight == f.canGrowLeft &&
            f.canGrowUp != f.canGrowRight
  {
  }

  /** Setting the permissions twice changes nothing more. */
  lemma SetGrowthPossibilitiesIdempotent(r: Rack)
    ensures SetGrowthPossibilities(SetGrowthPossibilities(r)) == SetGrowthPossibilities(r)
  {
  }

  /** The rack orientations ORIENTATION_VERTICAL, _HORIZONTAL, _ORTHOGONAL and _GENERIC. */
  datatype Orientation = Vertical | Horizontal | Orthogonal | Generic

  /**
   * `generateRandomDirection` with the uniform draw r in [0, 1] as a
   * parameter.  Every threshold is inclusive.
   */
  function GenerateRandomDirection(o: Orientation, r: real): (d: Direction)
    ensures o == Vertical ==> (d == Right <==> r <= 0.5) && (d == Left <==> r > 0.5)
    ensures o == Horizontal ==> (d == Up <==> r <= 0.5) && (d == Down <==> r > 0.5)
  {
    match o
    case Vertical => if r <= 0.5 then Right else Left
    case Horizontal => if r <= 0.5 then Up else Down
    case _ =>
      if r <= 0.25 then Up
      else if r <= 0.5 then Right
      else if r <= 0.75 then Down
      else Left
  }

  /**
   * A vertical rack is guarded from the left or right and a horizontal one
   * from above or below; any other orientation gets one of the four axis
   * directions, never EITHER or BOTH_SIDES.
   */
  lemma RandomDirectionFitsOrientation(o: Orientation, r: real)
    ensures o == Vertical ==> GenerateRandomDirection(o, r) in {Left, Right}
    ensures o == Horizontal ==> GenerateRandomDirection(o, r) in {Up, Down}
    ensures GenerateRandomDirection(o, r) in {Up, Down, Left, Right}
  {
  }

  /**
   * For an orthogonal or generic rack the four directions split [0, 1] into
   * quarters: UP on [0, 1/4], RIGHT on (1/4, 1/2], DOWN on (1/2, 3/4] and
   * LEFT on (3/4, 1].
   */
  lemma RandomDirectionQuarters(o: Orientation, r: real)
    requires o == Orthogonal || o == Generic
    ensures GenerateRandomDirection(o, r) == Up <==> r <= 0.25
    ensures GenerateRandomDirection(o, r) == Right <==> 0.25 < r <= 0.5
    ensures GenerateRandomDirection(o, r) == Down <==> 0.5 < r <= 0.75
    ensures GenerateRandomDirection(o, r) == Left <==> 0.75 < r
  {
  }
}
