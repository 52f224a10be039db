/**
 * The candidate grid: the cross coordinates taken from the rack endpoints,
 * the cells cut by the sorted grid lines, and one candidate guard at the
 * centre of every cell.
 */
module Grid {
  import opened Geometry2D
  import opened Racks
  import opened CrossLines

  /** A candidate guard (camera) position; `selected` once the optimiser picks it. */
  datatype Guard = Guard(loc: Point, selected: bool)

  // ------------------------------------------------------------ Cells

  /** The cell between grid lines i, i+1 (x) and j, j+1 (y), as `Rect(topLeft, bottomRight)`. */
  function CellAt(xs: seq<real>, ys: seq<real>, i: nat, j: nat): Rect
    requires i + 1 < |xs| && j + 1 < |ys|
  {
    RectFromPoints(Point(xs[i], ys[j]), Point(xs[i + 1], ys[j + 1]))
  }

  /** The cells of column i, top to bottom (the inner loop over y). */
  function Column(xs: seq<real>, ys: seq<real>, i: nat): (col: seq<Rect>)
    requires i + 1 < |xs| && |ys| >= 1
    ensures |col| == |ys| - 1
    ensures forall j :: 0 <= j < |ys| - 1 ==> col[j] == CellAt(xs, ys, i, j)
  {
    seq(|ys| - 1, j requires 0 <= j < |ys| - 1 => CellAt(xs, ys, i, j))
  }

  /** The cells of the first n columns, column after column (the outer loop over x). */
  function GridCells(xs: seq<real>, ys: seq<real>, n: nat): seq<Rect>
    requires n < |xs| && |ys| >= 1
  {
    if n == 0 then [] else GridCells(xs, ys, n - 1) + Column(xs, ys, n - 1)
  }

  /** Column i, row j comes before the end of n columns of m cells. */
  lemma PositionBound(i: nat, j: nat, m: nat, n: nat)
    requires i < n && j < m
    ensures i * m + j < n * m
  {
    var d := n - 1 - i;
    assert d * m >= 0;
    assert n * m == (i + d + 1) * m;
    assert (i + d + 1) * m == i * m + d * m + m;
  }

  /** One more column adds m cells. */
  lemma ColumnStep(n: nat, m: nat)
    requires n > 0
    ensures n * m == (n - 1) * m + m
  {
  }

  /** There are n (|ys| - 1) cells in the first n columns. */
  lemma {:induction false} GridCellsLength(xs: seq<real>, ys: seq<real>, n: nat)
    requires n < |xs| && |ys| >= 1
    ensures |GridCells(xs, ys, n)| == n * (|ys| - 1)
  {
    if n > 0 {
      GridCellsLength(xs, ys, n - 1);
      ColumnStep(n, |ys| - 1);
    }
  }

  /**
   * The cell of column i and row j sits at position i (|ys| - 1) + j:
   * x is the outer loop, y the inner one.
   */
  lemma {:induction false} GridCellsIndex(xs: seq<real>, ys: seq<real>, n: nat, i: nat, j: nat)
    requires n < |xs| && i < n && j + 1 < |ys|
    ensures |GridCells(xs, ys, n)| == n * (|ys| - 1)
    ensures i * (|ys| - 1) + j < n * (|ys| - 1)
    ensures GridCells(xs, ys, n)[i * (|ys| - 1) + j] == CellAt(xs, ys, i, j)
  {
    var m := |ys| - 1;
    GridCellsLength(xs, ys, n);
    GridCellsLength(xs, ys, n - 1);
    PositionBound(i, j, m, n);
    var prev := GridCells(xs, ys, n - 1);
    var col := Column(xs, ys, n - 1);
    assert GridCells(xs, ys, n) == prev + col;
    if i < n - 1 {
      GridCellsIndex(xs, ys, n - 1, i, j);
    } else {
      assert i * m == (n - 1) * m;
    }
  }

  /** Between consecutive sorted lines, each cell has exactly those lines as its sides. */
  lemma SortedCellSides(xs: seq<real>, ys: seq<real>, i: nat, j: nat)
    requires Sorted(xs) && Sorted(ys)
    requires i + 1 < |xs| && j + 1 < |ys|
    ensures CellAt(xs, ys, i, j) == Rect(xs[i], ys[j], xs[i + 1], ys[j + 1])
    ensures Normalized(CellAt(xs, ys, i, j))
  {
  }

  /** In a sorted list, a value between the first and last entry lies between two neighbours. */
  lemma FindInterval(xs: seq<real>, v: real) returns (i: nat)
    requires Sorted(xs) && |xs| >= 2 && xs[0] <= v <= xs[|xs| - 1]
    ensures i + 1 < |xs| && xs[i] <= v <= xs[i + 1]
  {
    i := 0;
    while xs[i + 1] < v
      invariant i + 1 < |xs| && xs[i] <= v
      decreases |xs| - i
    {
      i := i + 1;
    }
  }

  /** No point lies strictly inside two different cells. */
  lemma CellInteriorsDisjoint(xs: seq<real>, ys: seq<real>, i: nat, j: nat, i': nat, j': nat, p: Point)
    requires Sorted(xs) && Sorted(ys)
    requires i + 1 < |xs| && j + 1 < |ys| && i' + 1 < |xs| && j' + 1 < |ys|
    requires StrictlyInside(CellAt(xs, ys, i, j), p) && StrictlyInside(CellAt(xs, ys, i', j'), p)
    ensures i == i' && j == j'
  {
    SortedCellSides(xs, ys, i, j);
    SortedCellSides(xs, ys, i', j');
  }

  // ------------------------------------------------------------ Vertices and cross points

  /** Every rack endpoint, in rack order; the points are distinct objects, so none merge. */
  function RackVertices(racks: seq<Rack>): (vs: seq<Point>)
    ensures |vs| == 2 * |racks|
    ensures forall k :: 0 <= k < |racks| ==>
              vs[2 * k] == Start(racks[k].seg) && vs[2 * k + 1] == End(racks[k].seg)
  {
    if racks == [] then []
    else
      var vs := RackVertices(racks[..|racks| - 1]) + Endpoints(racks[|racks| - 1].seg);
      assert forall k :: 0 <= k < |racks| - 1 ==> racks[..|racks| - 1][k] == racks[k];
      vs
  }

  /** The x coordinates of the points, gathered one point at a time. */
  function XCoords(vs: seq<Point>): set<real>
  {
    if vs == [] then {} else XCoords(vs[..|vs| - 1]) + {vs[|vs| - 1].x}
  }

  /** The y coordinates of the points, gathered one point at a time. */
  function YCoords(vs: seq<Point>): set<real>
  {
    if vs == [] then {} else YCoords(vs[..|vs| - 1]) + {vs[|vs| - 1].y}
  }

  /** Every vertex contributes its coordinates to the cross points. */
  lemma {:induction false} VerticesAreCrossPoints(vs: seq<Point>)
    ensures forall k :: 0 <= k < |vs| ==> vs[k].x in XCoords(vs) && vs[k].y in YCoords(vs)
  {
    if vs != [] {
      var init := vs[..|vs| - 1];
      VerticesAreCrossPoints(init);
      assert forall k :: 0 <= k < |init| ==> init[k] == vs[k];
    }
  }

  /** Every cross point is a coordinate of some vertex. */
  lemma {:induction false} CrossPointsFromVertices(vs: seq<Point>)
    ensures forall x :: x in XCoords(vs) ==> exists k :: 0 <= k < |vs| && vs[k].x == x
    ensures forall y :: y in YCoords(vs) ==> exists k :: 0 <= k < |vs| && vs[k].y == y
  {
    if vs != [] {
      var init := vs[..|vs| - 1];
      CrossPointsFromVertices(init);
      assert forall k :: 0 <= k < |init| ==> init[k] == vs[k];
    }
  }

  /** The centres of the given cells, in order: each lies in its own cell. */
  function Centers(cells: seq<Rect>): (cs: seq<Point>)
    ensures |cs| == |cells|
    ensures forall k :: 0 <= k < |cells| ==> cs[k] == Center(cells[k])
    ensures forall k :: 0 <= k < |cells| && Normalized(cells[k]) ==> Contains(cells[k], cs[k])
  {
    seq(|cells|, k requires 0 <= k < |cells| => Center(cells[k]))
  }

  /** One unselected candidate at the centre of each cell, in cell order: none is selected, and each lies in its own cell. */
  function CandidatesFor(cells: seq<Rect>): (gs: seq<Guard>)
    ensures |gs| == |cells|
    ensures forall k :: 0 <= k < |cells| ==> gs[k] == Guard(Center(cells[k]), false)
    ensures forall k :: 0 <= k < |cells| ==> !gs[k].selected
    ensures forall k :: 0 <= k < |cells| && Normalized(cells[k]) ==> Contains(cells[k], gs[k].loc)
  {
    seq(|cells|, k requires 0 <= k < |cells| => Guard(Center(cells[k]), false))
  }

  /**
   * The cells `getCells` cuts inside boundary b: the grid lines along each
   * axis are the boundary's two sides and the cross coordinates, sorted.
   */
  ghost function CellsFor(b: Rect, xCross: set<real>, yCross: set<real>): seq<Rect>
  {
    GridCells(Lines(b.left, xCross, b.right), Lines(b.top, yCross, b.bottom), |xCross| + 1)
  }

  /** Each candidate lies in its own cell. */
  lemma CandidatesInsideTheirCells(cells: seq<Rect>, k: nat)
    requires k < |cells| && Normalized(cells[k])
    ensures Contains(cells[k], CandidatesFor(cells)[k].loc)
    ensures !CandidatesFor(cells)[k].selected
  {
    ContainsCornersAndCenter(cells[k]);
  }

  // ------------------------------------------------------------ The grid object

  class DataCenterGrid {
    var vertices: seq<Point>
    /** Whether the cross-point sets exist: the constructor creates them only inside its rack loop. */
    var crossPtsAssigned: bool
    var xCrossPts: set<real>
    var yCrossPts: set<real>
    var boundingRect: Rect
    var rackSet: seq<Rack>
    var cells: seq<Rect>
    var candidateGuardSet: seq<Guard>
    /** Row i, entry j: 1 when candidate j sees rack i (filled in by the data centre). */
    var guardingMatrix: seq<seq<int>>

    /** Cells only ever come from `GetCells`, which needs the cross points. */
    ghost predicate Valid()
      reads this`cells, this`crossPtsAssigned
    {
      |cells| > 0 ==> crossPtsAssigned
    }

    /**
     * `DataCenterGrid(bdingRect, racks)`: every rack endpoint becomes a
     * vertex and every vertex coordinate a cross point; with no racks the
     * cross-point sets are never created.
     */
    constructor (bdingRect: Rect, racks: seq<Rack>)
      ensures vertices == RackVertices(racks)
      ensures crossPtsAssigned <==> |racks| > 0
      ensures crossPtsAssigned ==> xCrossPts == XCoords(vertices) && yCrossPts == YCoords(vertices)
      ensures boundingRect == bdingRect && rackSet == racks
      ensures cells == [] && candidateGuardSet == [] && guardingMatrix == []
      ensures Valid()
    {
      var vs: seq<Point> := [];
      var made := false;
      for i := 0 to |racks|
        invariant vs == RackVertices(racks[..i])
        invariant made <==> i > 0
      {
        assert racks[..i + 1][..i] == racks[..i];
        vs := vs + Endpoints(racks[i].seg);
        made := true;
      }
      assert racks[..|racks|] == racks;
      var xs: set<real> := {};
      var ys: set<real> := {};
      for k := 0 to |vs|
        invariant xs == XCoords(vs[..k]) && ys == YCoords(vs[..k])
      {
        assert vs[..k + 1][..k] == vs[..k];
        xs := xs + {vs[k].x};
        ys := ys + {vs[k].y};
      }
      assert vs[..|vs|] == vs;
      vertices := vs;
      crossPtsAssigned := made;
      xCrossPts := xs;
      yCrossPts := ys;
      boundingRect := bdingRect;
      rackSet := racks;
      cells := [];
      candidateGuardSet := [];
      guardingMatrix := [];
    }

    /**
     * `refineGrid`: the centre of every current cell becomes a vertex and its
     * coordinates cross points; nothing is removed and the cells stay as they are.
     */
    method RefineGrid()
      requires Valid()
      modifies this`vertices, this`xCrossPts, this`yCrossPts
      ensures vertices == old(vertices) + Centers(cells)
      ensures xCrossPts == old(xCrossPts) + XCoords(Centers(cells))
      ensures yCrossPts == old(yCrossPts) + YCoords(Centers(cells))
      ensures forall k :: 0 <= k < |cells| ==>
                Center(cells[k]).x in xCrossPts && Center(cells[k]).y in yCrossPts
      ensures |CellsFor(boundingRect, old(xCrossPts), old(yCrossPts))| <=
              |CellsFor(boundingRect, xCrossPts, yCrossPts)|
      ensures Valid()
    {
      var cs := Centers(cells);
      var vs, xs, ys := AddPoints(vertices, xCrossPts, yCrossPts, cs);
      vertices, xCrossPts, yCrossPts := vs, xs, ys;
      VerticesAreCrossPoints(cs);
      RefinementKeepsCount(boundingRect, old(xCrossPts), old(yCrossPts), xCrossPts, yCrossPts);
    }

    /** The loop of `refineGrid`: each point becomes a vertex and its coordinates cross points. */
    static method AddPoints(vs: seq<Point>, xs: set<real>, ys: set<real>, pts: seq<Point>)
      returns (vs': seq<Point>, xs': set<real>, ys': set<real>)
      ensures vs' == vs + pts && xs' == xs + XCoords(pts) && ys' == ys + YCoords(pts)
    {
      vs', xs', ys' := vs, xs, ys;
      for k := 0 to |pts|
        invariant vs' == vs + pts[..k] && xs' == xs + XCoords(pts[..k]) && ys' == ys + YCoords(pts[..k])
      {
        assert pts[..k + 1][..k] == pts[..k];
        vs' := vs' + [pts[k]];
        xs' := xs' + {pts[k].x};
        ys' := ys' + {pts[k].y};
      }
      assert pts[..|pts|] == pts;
    }

    /** The elements of a set in some order, as a `for` over a Python set visits them. */
    static method Enumerate(s: set<real>) returns (r: seq<real>)
      ensures multiset(r) == multiset(s)
    {
      r := [];
      var rest := s;
      while rest != {}
        invariant multiset(r) + multiset(rest) == multiset(s)
        decreases |rest|
      {
        SomeElement(rest);
        var x :| x in rest;
        r := r + [x];
        assert multiset(rest) == multiset(rest - {x}) + multiset{x};
        rest := rest - {x};
      }
    }

    /** One axis of `getCells`: lo, then every cross point, then hi, sorted. */
    static method SortedCrosses(lo: real, cross: set<real>, hi: real) returns (r: seq<real>)
      ensures r == Lines(lo, cross, hi)
      ensures Sorted(r) && |r| == |cross| + 2
    {
      var enumeration := Enumerate(cross);
      r := SortSeq([lo] + enumeration + [hi]);
      SortedEnumerationIsLines(lo, enumeration, cross, hi);
    }

    /** The double loop of `getCells`: column by column, each column top to bottom. */
    static method CutCells(xs: seq<real>, ys: seq<real>) returns (cs: seq<Rect>)
      requires |xs| >= 1 && |ys| >= 1
      ensures cs == GridCells(xs, ys, |xs| - 1)
    {
      cs := [];
      for i := 0 to |xs| - 1
        invariant cs == GridCells(xs, ys, i)
      {
        var col := Column(xs, ys, i);
        for j := 0 to |ys| - 1
          invariant cs == GridCells(xs, ys, i) + col[..j]
        {
          var topLeft := Point(xs[i], ys[j]);
          var bottomRight := Point(xs[i + 1], ys[j + 1]);
          assert col[..j + 1] == col[..j] + [col[j]];
          cs := cs + [RectFromPoints(topLeft, bottomRight)];
        }
        assert col[..|ys| - 1] == col;
      }
    }

    /** The body of `getCells` on the values it reads. */
    static method CellsOf(b: Rect, xCross: set<real>, yCross: set<real>) returns (cs: seq<Rect>)
      ensures cs == CellsFor(b, xCross, yCross)
    {
      var xCrosses := SortedCrosses(b.left, xCross, b.right);
      var yCrosses := SortedCrosses(b.top, yCross, b.bottom);
      cs := CutCells(xCrosses, yCrosses);
    }

    /**
     * `getCells`: the grid lines are the boundary sides together with the
     * cross points, sorted; the cells are cut column by column.
     */
    method GetCells() returns (result: seq<Rect>)
      requires crossPtsAssigned
      modifies this`cells
      ensures cells == CellsFor(boundingRect, xCrossPts, yCrossPts) && result == cells
      ensures Valid()
    {
      var cs := CellsOf(boundingRect, xCrossPts, yCrossPts);
      cells := cs;
      result := cs;
    }

    /** The loop of `generateCandidateGuardSet`: a fresh guard at each cell's centre. */
    static method PlaceCandidates(cs: seq<Rect>) returns (gs: seq<Guard>)
      ensures gs == CandidatesFor(cs)
    {
      gs := [];
      for k := 0 to |cs|
        invariant gs == CandidatesFor(cs)[..k]
      {
        gs := gs + [Guard(Center(cs[k]), false)];
      }
    }

    /** `generateCandidateGuardSet`: recut the cells, then one unselected guard per cell centre. */
    method GenerateCandidateGuardSet() returns (result: seq<Guard>)
      requires crossPtsAssigned
      modifies this`cells, this`candidateGuardSet
      ensures cells == CellsFor(boundingRect, xCrossPts, yCrossPts)
      ensures candidateGuardSet == CandidatesFor(cells) && result == candidateGuardSet
      ensures |candidateGuardSet| == (|xCrossPts| + 1) * (|yCrossPts| + 1)
      ensures Valid()
    {
      var cs := GetCells();
      var gs := PlaceCandidates(cs);
      candidateGuardSet := gs;
      result := gs;
      CellsForShape(boundingRect, xCrossPts, yCrossPts, 0, 0);
    }
  }

  /**
   * Refinement never loses candidates: with at least the same cross points
   * along each axis, `getCells` cuts at least as many cells, so the next
   * `generateCandidateGuardSet` places at least as many guards.
   */
  lemma RefinementKeepsCount(b: Rect, xCross: set<real>, yCross: set<real>,
                             xCross': set<real>, yCross': set<real>)
    requires xCross <= xCross' && yCross <= yCross'
    ensures |CellsFor(b, xCross, yCross)| <= |CellsFor(b, xCross', yCross')|
  {
    CellsForShape(b, xCross, yCross, 0, 0);
    CellsForShape(b, xCross', yCross', 0, 0);
    SubsetSize(xCross, xCross');
    SubsetSize(yCross, yCross');
    ProductMonotone(|xCross| + 1, |yCross| + 1, |xCross'| + 1, |yCross'| + 1);
  }

  /** A product of naturals grows with each factor. */
  lemma ProductMonotone(m: nat, n: nat, m': nat, n': nat)
    requires m <= m' && n <= n'
    ensures m * n <= m' * n'
  {
    assert m' * n' - m * n' == (m' - m) * n';
    assert m * n' - m * n == m * (n' - n);
  }

  /** A subset is no larger than its superset. */
  lemma SubsetSize(a: set<real>, b: set<real>)
    requires a <= b
    ensures |a| <= |b|
  {
    assert b == a + (b - a);
  }

  /**
   * `getCells` produces (|x cross points| + 1) (|y cross points| + 1) cells;
   * the one at position i (|y cross points| + 1) + j lies between the x
   * lines i, i + 1 and the y lines j, j + 1, which are consecutive in
   * sorted order, so it is normalised.
   */
  lemma CellsForShape(b: Rect, xCross: set<real>, yCross: set<real>, i: nat, j: nat)
    requires i <= |xCross| && j <= |yCross|
    ensures var cells, xs, ys := CellsFor(b, xCross, yCross), Lines(b.left, xCross, b.right),
                                 Lines(b.top, yCross, b.bottom);
            |cells| == (|xCross| + 1) * (|yCross| + 1) &&
            i * (|yCross| + 1) + j < |cells| &&
            cells[i * (|yCross| + 1) + j] == Rect(xs[i], ys[j], xs[i + 1], ys[j + 1]) &&
            Normalized(cells[i * (|yCross| + 1) + j])
  {
    var xs, ys := Lines(b.left, xCross, b.right), Lines(b.top, yCross, b.bottom);
    SortedGridCell(xs, ys, i, j);
  }

  /** The cells cover the boundary: every point it contains lies in some cell. */
  lemma CellsForCover(b: Rect, xCross: set<real>, yCross: set<real>, p: Point)
    requires Contains(b, p)
    ensures exists k :: 0 <= k < |CellsFor(b, xCross, yCross)| && Contains(CellsFor(b, xCross, yCross)[k], p)
  {
    LinesBracket(b.left, xCross, b.right);
    LinesBracket(b.top, yCross, b.bottom);
    var xs, ys := Lines(b.left, xCross, b.right), Lines(b.top, yCross, b.bottom);
    GridCellsCover(xs, ys, |xCross| + 1, p);
    var k :| 0 <= k < |GridCells(xs, ys, |xCross| + 1)| && Contains(GridCells(xs, ys, |xCross| + 1)[k], p);
    assert CellsFor(b, xCross, yCross)[k] == GridCells(xs, ys, |xCross| + 1)[k];
  }

  /** Over sorted lines, every point of their span lies in one of the cells, in grid order. */
  lemma GridCellsCover(xs: seq<real>, ys: seq<real>, n: nat, p: Point)
    requires Sorted(xs) && Sorted(ys) && |xs| >= 2 && |ys| >= 2 && n == |xs| - 1
    requires xs[0] <= p.x <= xs[n] && ys[0] <= p.y <= ys[|ys| - 1]
    ensures exists k :: 0 <= k < |GridCells(xs, ys, n)| && Contains(GridCells(xs, ys, n)[k], p)
  {
    var i := FindInterval(xs, p.x);
    var j := FindInterval(ys, p.y);
    GridCellsIndex(xs, ys, n, i, j);
    SortedCellSides(xs, ys, i, j);
  }

  /** Over sorted lines, the cell at position i (|ys| - 1) + j has consecutive lines as sides. */
  lemma SortedGridCell(xs: seq<real>, ys: seq<real>, i: nat, j: nat)
    requires Sorted(xs) && Sorted(ys) && i + 1 < |xs| && j + 1 < |ys|
    ensures var cells := GridCells(xs, ys, |xs| - 1);
            |cells| == (|xs| - 1) * (|ys| - 1) &&
            i * (|ys| - 1) + j < |cells| &&
            cells[i * (|ys| - 1) + j] == Rect(xs[i], ys[j], xs[i + 1], ys[j + 1]) &&
            Normalized(cells[i * (|ys| - 1) + j])
  {
    GridCellsIndex(xs, ys, |xs| - 1, i, j);
    SortedCellSides(xs, ys, i, j);
  }
}
